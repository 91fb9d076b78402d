/** `ChunkingProcessor`: the splitter in front of editing. It cuts and packs a
    text like the proofreading splitter, with a paragraph limit of half the
    chunk size, and gives every chunk its position and a glimpse of its
    neighbours: a summary of the chunk before and a preview of the one after. */
module ChunkingProcessor {
  import opened Common
  import opened Strings
  import opened Whitespace
  import opened Segmenter

  /** The constructor's defaults, which is how the pipeline builds it:
      chunk_size 2000, overlap_size 200. */
  const DefaultSizes := Sizes(2000, 200)

  /** The default threshold of `should_use_chunking`. */
  const DefaultThreshold := 3000

  /** The context dictionary of a chunk: `{'is_single': True}` for a text left
      whole, the four positional entries otherwise. */
  datatype Context =
    | Single
    | Neighbours(isFirst: bool, isLast: bool, previousSummary: Option<string>, nextPreview: Option<string>)
  {
    /** context.get('is_single', False) */
    predicate SingleFlag() {
      Single?
    }

    /** context.get('is_first', False) */
    predicate FirstFlag() {
      Neighbours? && isFirst
    }

    /** context.get('is_last', False) */
    predicate LastFlag() {
      Neighbours? && isLast
    }

    /** context.get('previous_summary'), None when missing. */
    function Summary(): Option<string> {
      if Neighbours? then previousSummary else None
    }

    /** context.get('next_preview'), None when missing. */
    function Preview(): Option<string> {
      if Neighbours? then nextPreview else None
    }
  }

  /** One entry of the list `split_for_editing` returns. */
  datatype ChunkInfo = ChunkInfo(content: string, index: int, total: int, context: Context)

  // ---------------------------------------------------------------------------
  // Clauses: re.split(r'[。！？.!?]+', text), stripped, empty ones dropped.

  /** Length of the leading run of sentence-ending marks. */
  function MarkRun(s: string): (k: nat)
    ensures k <= |s|
    ensures forall i :: 0 <= i < k ==> IsSentenceEnd(s[i])
    ensures k == |s| || !IsSentenceEnd(s[k])
    decreases |s|
  {
    if s != [] && IsSentenceEnd(s[0]) then 1 + MarkRun(s[1..]) else 0
  }

  /** The pieces between the maximal runs of sentence-ending marks. */
  function MarkSplit(s: string): (r: seq<string>)
    ensures |r| >= 1
    decreases |s|
  {
    if s == [] then [[]]
    else if IsSentenceEnd(s[0]) then [[]] + MarkSplit(s[MarkRun(s)..])
    else Glue(s[0], MarkSplit(s[1..]))
  }

  /** The text without its sentence-ending marks. */
  function Unmarked(s: string): string
    decreases |s|
  {
    if s == [] then [] else (if IsSentenceEnd(s[0]) then [] else [s[0]]) + Unmarked(s[1..])
  }

  /** A text holding no sentence-ending mark. */
  predicate MarkFree(s: string) {
    forall c :: c in s ==> !IsSentenceEnd(c)
  }

  /** The non-empty stripped clauses of a text. */
  function Clauses(text: string): seq<string> {
    StrippedNonEmpty(MarkSplit(text))
  }

  lemma {:induction false} UnmarkedMarks(s: string, k: nat)
    requires k <= |s|
    requires forall i :: 0 <= i < k ==> IsSentenceEnd(s[i])
    ensures Unmarked(s[k..]) == Unmarked(s)
    decreases k
  {
    if k > 0 {
      UnmarkedMarks(s[1..], k - 1);
      assert s[1..][k - 1..] == s[k..];
    }
  }

  /** The pieces hold the text minus its marks, and none holds a mark. */
  lemma {:induction false} MarkSplitLayout(s: string)
    ensures Flatten(MarkSplit(s)) == Unmarked(s)
    ensures forall k :: 0 <= k < |MarkSplit(s)| ==> MarkFree(MarkSplit(s)[k])
    decreases |s|
  {
    if s == [] {
      FlattenOne<char>([]);
    } else if IsSentenceEnd(s[0]) {
      var k := MarkRun(s);
      MarkSplitLayout(s[k..]);
      UnmarkedMarks(s, k);
      FlattenCons([], MarkSplit(s[k..]));
    } else {
      var rest := MarkSplit(s[1..]);
      MarkSplitLayout(s[1..]);
      FlattenGlue(s[0], rest);
      var r := Glue(s[0], rest);
      assert r[1..] == rest[1..];
      assert MarkFree([s[0]] + rest[0]);
    }
  }

  /** Every clause is non-empty, stripped and free of marks, and together the
      clauses hold every visible character of the text except the marks, in
      order. */
  lemma ClausesShape(text: string)
    ensures forall k :: 0 <= k < |Clauses(text)| ==>
      Clauses(text)[k] != [] && IsStripped(Clauses(text)[k]) && MarkFree(Clauses(text)[k])
    ensures Visible(Flatten(Clauses(text))) == Visible(Unmarked(text))
  {
    var raw := MarkSplit(text);
    StrippedNonEmptyIs(raw);
    MarkSplitLayout(text);
    VisibleStripAll(raw);
    FlattenNonEmptyOnly(StripAll(raw));
    forall j | 0 <= j < |raw|
      ensures MarkFree(StripAll(raw)[j])
    {
      StripChars(raw[j]);
    }
    NonEmptyOnlyKeeps(StripAll(raw), IsStripped);
    NonEmptyOnlyKeeps(StripAll(raw), MarkFree);
  }

  /** A run of marks at the start is one separator. */
  lemma MarkSplitAtMarks(m: string, rest: string)
    requires m != [] && forall i :: 0 <= i < |m| ==> IsSentenceEnd(m[i])
    requires rest == [] || !IsSentenceEnd(rest[0])
    ensures MarkSplit(m + rest) == [[]] + MarkSplit(rest)
  {
    var s := m + rest;
    assert MarkRun(s) == |m| by {
      assert forall i :: 0 <= i < |m| ==> IsSentenceEnd(s[i]);
      assert |m| < |s| ==> s[|m|] == rest[0];
    }
    assert s[|m|..] == rest;
  }

  /** A mark-free piece followed by a run of marks splits off as one piece. */
  lemma {:induction false} MarkSplitPrefix(a: string, m: string, rest: string)
    requires MarkFree(a) && m != [] && forall i :: 0 <= i < |m| ==> IsSentenceEnd(m[i])
    requires rest == [] || !IsSentenceEnd(rest[0])
    ensures MarkSplit(a + m + rest) == [a] + MarkSplit(rest)
    decreases |a|
  {
    if a == [] {
      MarkSplitAtMarks(m, rest);
      assert a + m + rest == m + rest;
    } else {
      var s := a + m + rest;
      assert a[0] in a;
      assert s[0] == a[0] && s[1..] == a[1..] + m + rest;
      MarkSplitPrefix(a[1..], m, rest);
      var tail := MarkSplit(rest);
      assert MarkSplit(s) == Glue(a[0], [a[1..]] + tail);
      assert ([a[1..]] + tail)[1..] == tail;
      assert [a[0]] + a[1..] == a;
    }
  }

  /** The clauses of a clause followed by marks and more text. */
  lemma ClausesPrefix(a: string, m: string, rest: string)
    requires a != [] && IsStripped(a) && MarkFree(a)
    requires m != [] && forall i :: 0 <= i < |m| ==> IsSentenceEnd(m[i])
    requires rest == [] || !IsSentenceEnd(rest[0])
    ensures Clauses(a + m + rest) == [a] + Clauses(rest)
  {
    MarkSplitPrefix(a, m, rest);
    StripStripped(a);
    assert ([a] + MarkSplit(rest))[1..] == MarkSplit(rest);
  }

  // ---------------------------------------------------------------------------
  // Summary and preview.

  /** text[:100] + "..." if len(text) > 100 else text */
  function Truncated(text: string): (r: string)
    ensures |r| <= 103 && |r| <= |text| + 3
    ensures IsPrefix(text[..if |text| <= 100 then |text| else 100], r)
  {
    if |text| > 100 then text[..100] + "..." else text
  }

  /** `_extract_summary`. */
  function ExtractSummary(text: string): string {
    var cs := Clauses(text);
    if |cs| <= 2 then Truncated(text) else Join(LastN(cs, 2), "...") + "。"
  }

  /** `_extract_preview`. */
  function ExtractPreview(text: string): string {
    var cs := Clauses(text);
    if |cs| <= 2 then Truncated(text) else Join(cs[..2], "。") + "。"
  }

  /** The clauses of two clauses joined by a run of marks and closed by one. */
  lemma ClausesOfPair(a: string, m: string, b: string)
    requires a != [] && IsStripped(a) && MarkFree(a)
    requires b != [] && IsStripped(b) && MarkFree(b)
    requires m != [] && forall i :: 0 <= i < |m| ==> IsSentenceEnd(m[i])
    ensures Clauses(a + m + b + "。") == [a, b]
  {
    assert b[0] in b;
    ClausesPrefix(a, m, b + "。");
    assert a + m + (b + "。") == a + m + b + "。";
    ClausesPrefix(b, "。", []);
    assert b + "。" + [] == b + "。";
    assert Clauses([]) == [] by {
      assert MarkSplit([]) == [[]];
    }
  }

  /** The clause at k is non-empty, stripped and free of marks. */
  lemma ClauseAt(text: string, k: nat)
    requires k < |Clauses(text)|
    ensures Clauses(text)[k] != [] && IsStripped(Clauses(text)[k]) && MarkFree(Clauses(text)[k])
  {
    ClausesShape(text);
  }

  /** With more than two clauses, the summary is made of the last two of them:
      cutting it into clauses gives those two back. */
  lemma SummaryClauses(text: string)
    requires |Clauses(text)| > 2
    ensures Clauses(ExtractSummary(text)) == LastN(Clauses(text), 2)
  {
    var cs := Clauses(text);
    var n := |cs|;
    var a, b := cs[n - 2], cs[n - 1];
    var t := a + "..." + b + "。";
    assert LastN(cs, 2) == [a, b];
    assert ExtractSummary(text) == t by {
      JoinPair(a, b, "...");
    }
    assert Clauses(t) == [a, b] by {
      ClauseAt(text, n - 2);
      ClauseAt(text, n - 1);
      ClausesOfPair(a, "...", b);
    }
  }

  /** With more than two clauses, the preview is made of the first two of them:
      cutting it into clauses gives those two back. */
  lemma PreviewClauses(text: string)
    requires |Clauses(text)| > 2
    ensures Clauses(ExtractPreview(text)) == Clauses(text)[..2]
  {
    var cs := Clauses(text);
    var a, b := cs[0], cs[1];
    var t := a + "。" + b + "。";
    assert ExtractPreview(text) == t by {
      assert cs[..2] == [a, b];
      JoinPair(a, b, "。");
    }
    assert Clauses(t) == [a, b] by {
      ClauseAt(text, 0);
      ClauseAt(text, 1);
      ClausesOfPair(a, "。", b);
    }
    assert cs[..2] == [a, b];
  }

  /** With at most two clauses, summary and preview are the text cut to 100
      characters with an ellipsis. */
  lemma DigestShort(text: string)
    requires |Clauses(text)| <= 2
    ensures ExtractSummary(text) == ExtractPreview(text)
    ensures |text| <= 100 ==> ExtractSummary(text) == text
    ensures |text| > 100 ==> |ExtractSummary(text)| == 103 && IsPrefix(ExtractSummary(text)[..100], text)
  {
  }

  // ---------------------------------------------------------------------------
  // Context and the entries.

  /** `_generate_context` for chunk i of the list. */
  function GenerateContext(chunks: seq<string>, i: nat): (ctx: Context)
    requires i < |chunks|
    ensures ctx.Neighbours?
    ensures ctx.isFirst <==> i == 0
    ensures ctx.isLast <==> i == |chunks| - 1
    ensures ctx.previousSummary.None? <==> i == 0
    ensures ctx.nextPreview.None? <==> i == |chunks| - 1
  {
    Neighbours(i == 0, i == |chunks| - 1,
               if i > 0 then Some(ExtractSummary(chunks[i - 1])) else None,
               if i < |chunks| - 1 then Some(ExtractPreview(chunks[i + 1])) else None)
  }

  /** The context of every chunk of the list. */
  function Contexts(chunks: seq<string>): (r: seq<Context>)
    ensures |r| == |chunks|
  {
    seq(|chunks|, i requires 0 <= i < |chunks| => GenerateContext(chunks, i))
  }

  /** The first n entries: chunk i numbered i + 1 of all of them, with its
      context. */
  function Numbered(chunks: seq<string>, ctxs: seq<Context>, n: nat): (r: seq<ChunkInfo>)
    requires n <= |chunks| == |ctxs|
    ensures |r| == n
  {
    if n == 0 then [] else Numbered(chunks, ctxs, n - 1) + [ChunkInfo(chunks[n - 1], n, |chunks|, ctxs[n - 1])]
  }

  /** The entries for a list of chunks. */
  function Entries(chunks: seq<string>): (r: seq<ChunkInfo>)
    ensures |r| == |chunks|
  {
    Numbered(chunks, Contexts(chunks), |chunks|)
  }

  /** The chunks of a text too long to be left whole. */
  function EditingChunks(text: string, sz: Sizes): seq<string> {
    Pack(PiecesOf(Paragraphs(CleanText(text)), sz.chunkSize / 2), sz)
  }

  /** What `split_for_editing` returns. */
  function EditingInfos(text: string, sz: Sizes): seq<ChunkInfo> {
    if |text| <= sz.chunkSize then [ChunkInfo(text, 1, 1, Single)]
    else
      Entries(EditingChunks(text, sz))
  }

  /** The loop of `split_for_editing` that numbers the chunks and gives each
      its context. */
  method AttachContexts(chunks: seq<string>) returns (infos: seq<ChunkInfo>)
    ensures infos == Entries(chunks)
  {
    infos := [];
    var i := 0;
    while i < |chunks|
      invariant 0 <= i <= |chunks|
      invariant infos == Numbered(chunks, Contexts(chunks), i)
    {
      infos := infos + [ChunkInfo(chunks[i], i + 1, |chunks|, GenerateContext(chunks, i))];
      i := i + 1;
    }
  }

  /** `split_for_editing`. */
  method SplitForEditing(text: string, sz: Sizes) returns (infos: seq<ChunkInfo>)
    ensures infos == EditingInfos(text, sz)
  {
    if |text| <= sz.chunkSize {
      return [ChunkInfo(text, 1, 1, Single)];
    }
    var paragraphs := SplitByParagraphs(CleanText(text), sz.chunkSize / 2);
    var chunks := CombineParagraphsToChunks(paragraphs, sz);
    infos := AttachContexts(chunks);
  }

  /** A text that fits is one entry holding the raw text, marked single. */
  lemma EditingInfosShort(text: string, sz: Sizes)
    requires |text| <= sz.chunkSize
    ensures |EditingInfos(text, sz)| == 1
    ensures EditingInfos(text, sz)[0].content == text && EditingInfos(text, sz)[0].context.SingleFlag()
    ensures EditingInfos(text, sz)[0].index == 1 && EditingInfos(text, sz)[0].total == 1
  {
  }

  /** The chunks are laid out from groups of pieces that hold every visible
      character of the text, and there is one unless the text is blank. */
  lemma EditingChunksLayout(text: string, sz: Sizes) returns (gs: seq<seq<string>>)
    ensures Laid(EditingChunks(text, sz), gs, sz)
    ensures Visible(Flatten(Flatten(gs))) == Visible(text)
    ensures Strip(text) != [] ==> EditingChunks(text, sz) != []
  {
    var pieces := PiecesOf(Paragraphs(CleanText(text)), sz.chunkSize / 2);
    SplitByParagraphsProperties(CleanText(text), sz.chunkSize / 2);
    CleanTextVisible(text);
    gs := PackLayout(pieces, sz);
    if Strip(text) != [] {
      VisibleOfStripped(text);
      PackNonEmpty(pieces, sz);
      assert pieces != [] by {
        assert pieces == [] ==> Visible(Flatten(pieces)) == [];
      }
    }
  }

  /** A longer text gives entries numbered 1..n, each knowing n, exactly the
      first marked first and the last marked last; their contents are chunks
      laid out from groups of pieces that hold every visible character of the
      text in order. */
  lemma EditingInfosLong(text: string, sz: Sizes) returns (gs: seq<seq<string>>)
    requires |text| > sz.chunkSize
    ensures var infos := EditingInfos(text, sz);
      forall k :: 0 <= k < |infos| ==>
        infos[k].index == k + 1 && infos[k].total == |infos| && !infos[k].context.SingleFlag()
        && (infos[k].context.FirstFlag() <==> k == 0)
        && (infos[k].context.LastFlag() <==> k == |infos| - 1)
    ensures Laid(Contents(EditingInfos(text, sz)), gs, sz)
    ensures Visible(Flatten(Flatten(gs))) == Visible(text)
    ensures Strip(text) != [] ==> EditingInfos(text, sz) != []
  {
    var chunks := EditingChunks(text, sz);
    EntriesShape(chunks);
    EntriesContents(chunks);
    gs := EditingChunksLayout(text, sz);
  }

  /** The contents of a list of entries. */
  function Contents(infos: seq<ChunkInfo>): (r: seq<string>)
    ensures |r| == |infos|
  {
    seq(|infos|, k requires 0 <= k < |infos| => infos[k].content)
  }

  /** The entries hold the chunks, in order. */
  lemma EntriesContents(chunks: seq<string>)
    ensures Contents(Entries(chunks)) == chunks
  {
    EntriesShape(chunks);
  }

  /** Entry k holds chunk k, numbered k + 1 of all of them, marked first and
      last exactly at the two ends and never single. */
  lemma EntriesShape(chunks: seq<string>)
    ensures var es := Entries(chunks);
      forall k :: 0 <= k < |es| ==>
        es[k].content == chunks[k] && es[k].index == k + 1 && es[k].total == |es| && !es[k].context.SingleFlag()
        && (es[k].context.FirstFlag() <==> k == 0)
        && (es[k].context.LastFlag() <==> k == |es| - 1)
  {
    var ctxs := Contexts(chunks);
    forall k | 0 <= k < |chunks|
      ensures Entries(chunks)[k] == ChunkInfo(chunks[k], k + 1, |chunks|, GenerateContext(chunks, k))
    {
      NumberedAt(chunks, ctxs, |chunks|, k);
    }
  }

  /** Entry k of the first n holds chunk k, numbered k + 1, with its context. */
  lemma {:induction false} NumberedAt(chunks: seq<string>, ctxs: seq<Context>, n: nat, k: nat)
    requires k < n <= |chunks| == |ctxs|
    ensures Numbered(chunks, ctxs, n)[k] == ChunkInfo(chunks[k], k + 1, |chunks|, ctxs[k])
    decreases n
  {
    if k < n - 1 {
      NumberedAt(chunks, ctxs, n - 1, k);
    }
  }

  /** `should_use_chunking`. */
  function ShouldUseChunking(text: string, threshold: int): bool {
    |text| > threshold
  }

  /** A text long enough to be chunked at the default threshold takes the
      splitter's long path with its defaults: no entry is marked single, the
      first entry is marked first and the last marked last, and a non-blank
      text gives at least one entry. The text may still come back as one
      entry 1/1 (first and last at once) when it has nowhere to be cut, such
      as a long run without a sentence mark. */
  lemma ChunkingMeansSplitting(text: string)
    requires ShouldUseChunking(text, DefaultThreshold)
    ensures var infos := EditingInfos(text, DefaultSizes);
      forall k :: 0 <= k < |infos| ==>
        !infos[k].context.SingleFlag()
        && (infos[k].context.FirstFlag() <==> k == 0)
        && (infos[k].context.LastFlag() <==> k == |infos| - 1)
    ensures Strip(text) != [] ==> EditingInfos(text, DefaultSizes) != []
  {
    var _ := EditingInfosLong(text, DefaultSizes);
  }
}
