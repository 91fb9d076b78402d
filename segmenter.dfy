/** The cutting and packing both splitters share (`TextProcessor` and
    `ChunkingProcessor` carry line-for-line copies of these helpers): a text is
    cut into paragraphs at blank lines, an over-long paragraph into sentence
    pieces, and the pieces are packed greedily into chunks, each new chunk
    seeded with a sentence-aligned tail of the chunk before it. */
module Segmenter {
  import opened Strings

  /** The constructor arguments `chunk_size` and `overlap_size`. */
  datatype Sizes = Sizes(chunkSize: int, overlapSize: int)

  /** The sentence-ending marks `。！？.!?`. */
  predicate IsSentenceEnd(c: char) {
    c == '。' || c == '！' || c == '？' || c == '.' || c == '!' || c == '?'
  }

  function Max(a: int, b: int): int {
    if a >= b then a else b
  }

  // ---------------------------------------------------------------------------
  // Paragraphs: re.split(r'\n\s*\n', text), then strip and drop the empty ones.

  /** Index of the last newline in t[..k], or -1 when there is none. */
  function LastNewline(t: string, k: nat): (j: int)
    requires k <= |t|
    ensures -1 <= j < k
    ensures j >= 0 ==> t[j] == '\n'
    ensures forall i :: j < i < k ==> t[i] != '\n'
    decreases k
  {
    if k == 0 then -1 else if t[k - 1] == '\n' then k - 1 else LastNewline(t, k - 1)
  }

  /** Length of the match of `\n\s*\n` at the start of s, 0 when it does not
      match there. The greedy `\s*` backs off to the last newline of the
      whitespace run that follows the first newline. */
  function BlankLineMatch(s: string): (e: nat)
    ensures e == 0 || (2 <= e <= |s| && s[0] == '\n' && s[e - 1] == '\n')
  {
    if s == [] || s[0] != '\n' then 0
    else
      var j := LastNewline(s[1..], SpaceRun(s[1..]));
      if j < 0 then 0 else j + 2
  }

  /** The separator is made of whitespace only. */
  lemma BlankLineMatchSpaces(s: string)
    ensures forall i :: 0 <= i < BlankLineMatch(s) ==> IsSpace(s[i])
  {
    if s != [] && s[0] == '\n' {
      var k := SpaceRun(s[1..]);
      assert forall i :: 1 <= i <= k ==> s[i] == s[1..][i - 1];
    }
  }

  /** re.split(r'\n\s*\n', s): the pieces between the leftmost non-overlapping
      matches. */
  function RawParagraphs(s: string): (r: seq<string>)
    ensures |r| >= 1
    decreases |s|
  {
    if s == [] then [[]]
    else if BlankLineMatch(s) > 0 then [[]] + RawParagraphs(s[BlankLineMatch(s)..])
    else Glue(s[0], RawParagraphs(s[1..]))
  }

  /** c put in front of the first piece. */
  function Glue(c: char, pieces: seq<string>): (r: seq<string>)
    requires |pieces| >= 1
    ensures |r| == |pieces|
  {
    [[c] + pieces[0]] + pieces[1..]
  }

  lemma FlattenGlue(c: char, pieces: seq<string>)
    requires |pieces| >= 1
    ensures Flatten(Glue(c, pieces)) == [c] + Flatten(pieces)
  {
    FlattenCons([c] + pieces[0], pieces[1..]);
    FlattenCons(pieces[0], pieces[1..]);
    assert pieces == [pieces[0]] + pieces[1..];
  }

  /** [p for p in xs if p] */
  function NonEmptyOnly(xs: seq<string>): (r: seq<string>)
    ensures forall k :: 0 <= k < |r| ==> r[k] != []
    decreases |xs|
  {
    if xs == [] then []
    else (if xs[0] != [] then [xs[0]] else []) + NonEmptyOnly(xs[1..])
  }

  /** Dropping the empty strings keeps any property all the strings have. */
  lemma {:induction false} NonEmptyOnlyKeeps(xs: seq<string>, P: string -> bool)
    requires forall j :: 0 <= j < |xs| ==> P(xs[j])
    ensures forall k :: 0 <= k < |NonEmptyOnly(xs)| ==> P(NonEmptyOnly(xs)[k])
    decreases |xs|
  {
    if xs != [] {
      NonEmptyOnlyKeeps(xs[1..], P);
      var head := if xs[0] != [] then [xs[0]] else [];
      var r := NonEmptyOnly(xs);
      forall k | 0 <= k < |r|
        ensures P(r[k])
      {
        if k >= |head| {
          assert r[k] == NonEmptyOnly(xs[1..])[k - |head|];
        }
      }
    }
  }

  /** [p.strip() for p in xs if p.strip()] */
  function StrippedNonEmpty(xs: seq<string>): (r: seq<string>)
    ensures |r| <= |xs|
    decreases |xs|
  {
    if xs == [] then []
    else (if Strip(xs[0]) != [] then [Strip(xs[0])] else []) + StrippedNonEmpty(xs[1..])
  }

  /** Stripping and filtering in one pass is stripping everything, then
      dropping the empty strings. */
  lemma {:induction false} StrippedNonEmptyIs(xs: seq<string>)
    ensures StrippedNonEmpty(xs) == NonEmptyOnly(StripAll(xs))
    decreases |xs|
  {
    if xs != [] {
      StrippedNonEmptyIs(xs[1..]);
      assert StripAll(xs)[1..] == StripAll(xs[1..]);
    }
  }

  /** [p.strip() for p in re.split(r'\n\s*\n', text) if p.strip()] */
  function Paragraphs(text: string): seq<string> {
    StrippedNonEmpty(RawParagraphs(text))
  }

  /** A blank-line separator holds only whitespace and contributes nothing to
      the pieces. */
  lemma RawParagraphsSkip(s: string)
    requires s != [] && BlankLineMatch(s) > 0
    ensures Flatten(RawParagraphs(s)) == Flatten(RawParagraphs(s[BlankLineMatch(s)..]))
    ensures Visible(s) == Visible(s[BlankLineMatch(s)..])
  {
    var e := BlankLineMatch(s);
    BlankLineMatchSpaces(s);
    FlattenCons([], RawParagraphs(s[e..]));
    assert s == s[..e] + s[e..];
    VisibleConcat(s[..e], s[e..]);
    VisibleOfSpaces(s[..e]);
  }

  /** Any other character goes to the front of the first piece. */
  lemma RawParagraphsKeep(s: string)
    requires s != [] && BlankLineMatch(s) == 0
    ensures Flatten(RawParagraphs(s)) == [s[0]] + Flatten(RawParagraphs(s[1..]))
  {
    FlattenGlue(s[0], RawParagraphs(s[1..]));
  }

  lemma {:induction false} VisibleRawParagraphs(s: string)
    ensures Visible(Flatten(RawParagraphs(s))) == Visible(s)
    decreases |s|
  {
    if s != [] {
      if BlankLineMatch(s) > 0 {
        RawParagraphsSkip(s);
        VisibleRawParagraphs(s[BlankLineMatch(s)..]);
      } else {
        RawParagraphsKeep(s);
        VisibleRawParagraphs(s[1..]);
        VisibleConcat([s[0]], Flatten(RawParagraphs(s[1..])));
        assert s == [s[0]] + s[1..];
        VisibleConcat([s[0]], s[1..]);
      }
    }
  }

  lemma {:induction false} VisibleStripAll(xs: seq<string>)
    ensures Visible(Flatten(StripAll(xs))) == Visible(Flatten(xs))
    decreases |xs|
  {
    if xs != [] {
      VisibleStripAll(xs[1..]);
      assert StripAll(xs)[1..] == StripAll(xs[1..]);
      VisibleConcat(Strip(xs[0]), Flatten(StripAll(xs[1..])));
      VisibleConcat(xs[0], Flatten(xs[1..]));
      VisibleStrip(xs[0]);
    }
  }

  lemma {:induction false} FlattenNonEmptyOnly(xs: seq<string>)
    ensures Flatten(NonEmptyOnly(xs)) == Flatten(xs)
    decreases |xs|
  {
    if xs != [] {
      FlattenNonEmptyOnly(xs[1..]);
      var head := if xs[0] != [] then [xs[0]] else [];
      FlattenConcat(head, NonEmptyOnly(xs[1..]));
      if xs[0] != [] {
        assert Flatten(head) == xs[0] + Flatten(head[1..]);
      }
    }
  }

  /** Cutting at blank lines loses no visible character, and every paragraph is
      non-empty and stripped. */
  lemma ParagraphsProperties(text: string)
    ensures Visible(Flatten(Paragraphs(text))) == Visible(text)
    ensures forall k :: 0 <= k < |Paragraphs(text)| ==> Paragraphs(text)[k] != [] && IsStripped(Paragraphs(text)[k])
  {
    var raw := RawParagraphs(text);
    StrippedNonEmptyIs(raw);
    VisibleRawParagraphs(text);
    VisibleStripAll(raw);
    FlattenNonEmptyOnly(StripAll(raw));
    NonEmptyOnlyKeeps(StripAll(raw), IsStripped);
  }

  // ---------------------------------------------------------------------------
  // Sentence pieces of an over-long paragraph (`_split_long_paragraph`).

  /** The pieces the character loop emits when `rest` is still to be read and
      `cur` has been accumulated: a piece is closed at a sentence end once the
      accumulation is longer than 100 characters; a non-blank remainder is the
      last piece. */
  function Cuts(rest: string, cur: string): seq<string>
    decreases |rest|
  {
    if rest == [] then (if Strip(cur) != [] then [Strip(cur)] else [])
    else
      var c := cur + [rest[0]];
      if IsSentenceEnd(rest[0]) && |c| > 100 then [Strip(c)] + Cuts(rest[1..], [])
      else Cuts(rest[1..], c)
  }

  function SentencePieces(p: string): seq<string> {
    Cuts(p, [])
  }

  /** The raw accumulations behind the pieces, the last one possibly blank. */
  function RawCuts(rest: string, cur: string): (r: seq<string>)
    ensures |r| >= 1
    decreases |rest|
  {
    if rest == [] then [cur]
    else
      var c := cur + [rest[0]];
      if IsSentenceEnd(rest[0]) && |c| > 100 then [c] + RawCuts(rest[1..], [])
      else RawCuts(rest[1..], c)
  }

  /** No sentence end at index 100 or later. */
  predicate NoLateEnd(seg: string) {
    forall j :: 100 <= j < |seg| ==> !IsSentenceEnd(seg[j])
  }

  /** A segment closed by the loop: longer than 100 characters, ending at a
      sentence end, and with no earlier sentence end at index 100 or later. */
  predicate ClosedSegment(seg: string) {
    |seg| > 100 && IsSentenceEnd(seg[|seg| - 1]) && NoLateEnd(seg[..|seg| - 1])
  }

  /** The pieces are the stripped raw segments, the last one only when it is not
      blank. */
  function PiecesOfSegments(raws: seq<string>): seq<string>
    requires |raws| >= 1
  {
    var last := raws[|raws| - 1];
    StripAll(raws[..|raws| - 1]) + (if Strip(last) != [] then [Strip(last)] else [])
  }

  lemma PiecesOfSegmentsCons(c: string, tail: seq<string>)
    requires |tail| >= 1
    ensures PiecesOfSegments([c] + tail) == [Strip(c)] + PiecesOfSegments(tail)
  {
    var r := [c] + tail;
    assert r[..|r| - 1] == [c] + tail[..|tail| - 1];
    assert StripAll(r[..|r| - 1]) == [Strip(c)] + StripAll(tail[..|tail| - 1]);
    assert r[|r| - 1] == tail[|tail| - 1];
  }

  lemma ClosedSegmentsCons(c: string, tail: seq<string>)
    requires ClosedSegment(c) && |tail| >= 1
    requires forall k :: 0 <= k < |tail| - 1 ==> ClosedSegment(tail[k])
    ensures forall k :: 0 <= k < |[c] + tail| - 1 ==> ClosedSegment(([c] + tail)[k])
  {
  }

  lemma {:induction false} RawCutsLayout(rest: string, cur: string)
    requires NoLateEnd(cur)
    ensures Flatten(RawCuts(rest, cur)) == cur + rest
    ensures forall k :: 0 <= k < |RawCuts(rest, cur)| - 1 ==> ClosedSegment(RawCuts(rest, cur)[k])
    ensures NoLateEnd(RawCuts(rest, cur)[|RawCuts(rest, cur)| - 1])
    ensures Cuts(rest, cur) == PiecesOfSegments(RawCuts(rest, cur))
    decreases |rest|
  {
    if rest == [] {
      FlattenOne(cur);
    } else {
      var c := cur + [rest[0]];
      assert cur + rest == c + rest[1..];
      if IsSentenceEnd(rest[0]) && |c| > 100 {
        var tail := RawCuts(rest[1..], []);
        RawCutsLayout(rest[1..], []);
        FlattenCons(c, tail);
        assert [] + rest[1..] == rest[1..];
        assert c[..|c| - 1] == cur;
        ClosedSegmentsCons(c, tail);
        PiecesOfSegmentsCons(c, tail);
      } else {
        assert NoLateEnd(c);
        RawCutsLayout(rest[1..], c);
      }
    }
  }

  /** The pieces of a paragraph are exactly its loop segments, stripped: the
      segments concatenate back to the paragraph, every one but the last was
      closed at a sentence end after more than 100 characters and at the first
      such chance, and a blank remainder is dropped. */
  lemma SentencePiecesLayout(p: string) returns (raws: seq<string>)
    ensures |raws| >= 1 && Flatten(raws) == p
    ensures forall k :: 0 <= k < |raws| - 1 ==> ClosedSegment(raws[k])
    ensures NoLateEnd(raws[|raws| - 1])
    ensures SentencePieces(p) == PiecesOfSegments(raws)
  {
    raws := RawCuts(p, []);
    RawCutsLayout(p, []);
  }

  lemma {:induction false} CutsShape(rest: string, cur: string)
    ensures forall k :: 0 <= k < |Cuts(rest, cur)| ==> Cuts(rest, cur)[k] != [] && IsStripped(Cuts(rest, cur)[k])
    ensures Visible(Flatten(Cuts(rest, cur))) == Visible(cur + rest)
    decreases |rest|
  {
    if rest == [] {
      assert cur + rest == cur;
      VisibleStrip(cur);
      FlattenOne(Strip(cur));
    } else {
      var c := cur + [rest[0]];
      assert cur + rest == c + rest[1..];
      CutsShape(rest[1..], if IsSentenceEnd(rest[0]) && |c| > 100 then [] else c);
      if IsSentenceEnd(rest[0]) && |c| > 100 {
        assert [] + rest[1..] == rest[1..];
        CutsCloseStep(c, Cuts(rest[1..], []));
        CutsCloseVisible(c, rest[1..], Cuts(rest[1..], []));
      }
    }
  }

  /** Closing a piece at a sentence end keeps every piece non-empty and
      stripped. */
  lemma CutsCloseStep(c: string, tail: seq<string>)
    requires c != [] && IsSentenceEnd(c[|c| - 1])
    requires forall k :: 0 <= k < |tail| ==> tail[k] != [] && IsStripped(tail[k])
    ensures forall k :: 0 <= k < |[Strip(c)] + tail| ==> ([Strip(c)] + tail)[k] != [] && IsStripped(([Strip(c)] + tail)[k])
  {
    assert Visible(Strip(c)) != [] by {
      VisibleStrip(c);
      VisibleEndsWithMark(c);
    }
  }

  /** A piece ending at a sentence end keeps a visible character. */
  lemma VisibleEndsWithMark(c: string)
    requires c != [] && IsSentenceEnd(c[|c| - 1])
    ensures Visible(c) != []
  {
    assert Visible(c[|c| - 1..]) == [c[|c| - 1]] by {
      assert c[|c| - 1..] == [c[|c| - 1]];
      VisibleChar(c[|c| - 1]);
    }
    assert c == c[..|c| - 1] + c[|c| - 1..];
    VisibleConcat(c[..|c| - 1], c[|c| - 1..]);
  }

  /** Closing a piece keeps the visible characters. */
  lemma CutsCloseVisible(c: string, r: string, tail: seq<string>)
    requires Visible(Flatten(tail)) == Visible(r)
    ensures Visible(Flatten([Strip(c)] + tail)) == Visible(c + r)
  {
    FlattenCons(Strip(c), tail);
    VisibleConcat(Strip(c), Flatten(tail));
    VisibleStrip(c);
    VisibleConcat(c, r);
  }

  /** Every piece is non-empty and stripped, and together the pieces hold the
      paragraph's visible characters in order. */
  lemma SentencePiecesShape(p: string)
    ensures forall k :: 0 <= k < |SentencePieces(p)| ==> SentencePieces(p)[k] != [] && IsStripped(SentencePieces(p)[k])
    ensures Visible(Flatten(SentencePieces(p))) == Visible(p)
  {
    CutsShape(p, []);
    assert [] + p == p;
  }

  /** `_split_long_paragraph`: the character loop. */
  method SplitLongParagraph(p: string) returns (sentences: seq<string>)
    ensures sentences == SentencePieces(p)
  {
    sentences := [];
    var current := "";
    var i := 0;
    while i < |p|
      invariant 0 <= i <= |p|
      invariant sentences + Cuts(p[i..], current) == SentencePieces(p)
    {
      assert p[i..][0] == p[i] && p[i..][1..] == p[i + 1..];
      current := current + [p[i]];
      if IsSentenceEnd(p[i]) && |current| > 100 {
        sentences := sentences + [Strip(current)];
        current := "";
      }
      i := i + 1;
    }
    if Strip(current) != [] {
      sentences := sentences + [Strip(current)];
    }
  }

  // ---------------------------------------------------------------------------
  // The overlap seed (`_get_overlap_text`).

  /** Index of the first sentence end in t, or -1. */
  function FirstSentenceEnd(t: string): (i: int)
    ensures -1 <= i < |t|
    ensures i >= 0 ==> IsSentenceEnd(t[i])
    ensures forall j :: 0 <= j < |t| && (i < 0 || j < i) ==> !IsSentenceEnd(t[j])
    decreases |t|
  {
    if t == [] then -1
    else if IsSentenceEnd(t[0]) then 0
    else
      var i := FirstSentenceEnd(t[1..]);
      if i < 0 then -1 else i + 1
  }

  /** The text itself when it has at most n characters; otherwise, of its last
      n characters, the stripped part after the first sentence end, or all n
      when there is no sentence end among them. */
  function OverlapText(text: string, n: int): string
    requires n > 0
  {
    if |text| <= n then text
    else
      var t := text[|text| - n..];
      var i := FirstSentenceEnd(t);
      if i >= 0 then Strip(t[i + 1..]) else t
  }

  /** Stripping the text from an offset on gives a slice of the text starting
      at or after the offset. */
  lemma StripFromSlice(text: string, off: nat) returns (a: nat, b: nat)
    requires off <= |text|
    ensures off <= a <= b <= |text| && Strip(text[off..]) == text[a..b]
  {
    var x, y := StripIsSlice(text[off..]);
    a, b := off + x, off + y;
    assert text[off..][x..y] == text[a..b];
  }

  /** The overlap never exceeds n characters and is a slice of the text's last
      n characters; when those hold a sentence end, the overlap starts after the
      first one. */
  lemma OverlapTextTail(text: string, n: int) returns (a: nat, b: nat)
    requires n > 0
    ensures |OverlapText(text, n)| <= n
    ensures a <= b <= |text| && OverlapText(text, n) == text[a..b]
    ensures |text| <= n ==> OverlapText(text, n) == text
    ensures |text| > n ==> |text| - n <= a
    ensures |text| > n && FirstSentenceEnd(text[|text| - n..]) >= 0 ==>
      |text| - n + FirstSentenceEnd(text[|text| - n..]) < a
  {
    if |text| <= n {
      a, b := 0, |text|;
    } else {
      var t := text[|text| - n..];
      var i := FirstSentenceEnd(t);
      if i >= 0 {
        a, b := OverlapAfterEnd(text, n, i);
      } else {
        a, b := |text| - n, |text|;
      }
    }
  }

  /** When the last n characters hold a sentence end at i, the overlap is a
      slice of the text after it. */
  lemma OverlapAfterEnd(text: string, n: int, i: int) returns (a: nat, b: nat)
    requires 0 < n < |text| && i == FirstSentenceEnd(text[|text| - n..]) && i >= 0
    ensures |text| - n + i < a <= b <= |text| && OverlapText(text, n) == text[a..b]
  {
    var t := text[|text| - n..];
    assert t[i + 1..] == text[|text| - n + i + 1..];
    a, b := StripFromSlice(text, |text| - n + i + 1);
  }

  lemma FirstSentenceEndAt(t: string, i: nat)
    requires i < |t| && IsSentenceEnd(t[i])
    requires forall j :: 0 <= j < i ==> !IsSentenceEnd(t[j])
    ensures FirstSentenceEnd(t) == i
  {
  }

  /** `_get_overlap_text`: the scan for the first sentence end, returning early. */
  method GetOverlapText(text: string, n: int) returns (r: string)
    requires n > 0
    ensures r == OverlapText(text, n)
  {
    if |text| <= n {
      return text;
    }
    var t := text[|text| - n..];
    var i := 0;
    while i < |t|
      invariant 0 <= i <= |t|
      invariant forall j :: 0 <= j < i ==> !IsSentenceEnd(t[j])
    {
      if IsSentenceEnd(t[i]) {
        FirstSentenceEndAt(t, i);
        return Strip(t[i + 1..]);
      }
      i := i + 1;
    }
    r := t;
  }

  // ---------------------------------------------------------------------------
  // Greedy packing (`_combine_paragraphs_to_chunks`).

  /** The loop over the remaining paragraphs with the chunks emitted so far and
      the chunk being filled. */
  function PackFrom(paras: seq<string>, chunks: seq<string>, cur: string, sz: Sizes): seq<string>
    decreases |paras|
  {
    if paras == [] then (if cur != [] then chunks + [cur] else chunks)
    else
      var p := paras[0];
      if |cur| + |p| + 2 <= sz.chunkSize then
        PackFrom(paras[1..], chunks, if cur != [] then cur + "\n\n" + p else p, sz)
      else
        var chunks' := if cur != [] then chunks + [cur] else chunks;
        var cur' := if chunks' != [] && sz.overlapSize > 0 then OverlapText(cur, sz.overlapSize) + "\n\n" + p else p;
        PackFrom(paras[1..], chunks', cur', sz)
  }

  function Pack(paras: seq<string>, sz: Sizes): seq<string> {
    PackFrom(paras, [], "", sz)
  }

  /** What chunk k starts with before its own paragraphs: the overlap of the
      chunk before it and a blank line, when there is one and overlap is on. */
  function Seed(chunks: seq<string>, k: nat, sz: Sizes): string
    requires k <= |chunks|
  {
    if k == 0 || sz.overlapSize <= 0 then "" else OverlapText(chunks[k - 1], sz.overlapSize) + "\n\n"
  }

  /** Chunk k holds group k: it is its seed followed by the group joined with
      blank lines; when it took two or more paragraphs it is within the size;
      and the group's first paragraph did not fit onto the chunk before. */
  predicate LaidAt(cs: seq<string>, gs: seq<seq<string>>, k: nat, sz: Sizes)
    requires k < |cs| == |gs|
  {
    gs[k] != []
    && cs[k] == Seed(cs, k, sz) + Join(gs[k], "\n\n")
    && (|gs[k]| >= 2 ==> |cs[k]| <= sz.chunkSize)
    && (k > 0 ==> |cs[k - 1]| + |gs[k][0]| + 2 > sz.chunkSize)
  }

  /** Chunks cs hold the paragraph groups gs, one group each. */
  predicate Laid(cs: seq<string>, gs: seq<seq<string>>, sz: Sizes) {
    |cs| == |gs| && forall k :: 0 <= k < |cs| ==> LaidAt(cs, gs, k, sz)
  }

  /** The loop's state: finished chunks laid out from their groups, and the
      current chunk built from the paragraphs gathered since. */
  predicate PackInv(chunks: seq<string>, cur: string, gdone: seq<seq<string>>, gcur: seq<string>, sz: Sizes) {
    Laid(chunks, gdone, sz)
    && (forall j :: 0 <= j < |gcur| ==> gcur[j] != [])
    && (gcur == [] ==> chunks == [] && cur == [])
    && (gcur != [] ==> cur == Seed(chunks, |chunks|, sz) + Join(gcur, "\n\n"))
    && (|gcur| >= 2 ==> |cur| <= sz.chunkSize)
    && (chunks != [] ==> gcur != [] && |chunks[|chunks| - 1]| + |gcur[0]| + 2 > sz.chunkSize)
  }

  lemma {:induction false} JoinNonEmpty(parts: seq<string>, sep: string)
    requires parts != [] && parts[0] != []
    ensures Join(parts, sep) != []
    decreases |parts|
  {
  }

  lemma SeedSnoc(chunks: seq<string>, c: string, k: nat, sz: Sizes)
    requires k <= |chunks|
    ensures Seed(chunks + [c], k, sz) == Seed(chunks, k, sz)
  {
    if k > 0 {
      assert (chunks + [c])[k - 1] == chunks[k - 1];
    }
  }

  /** Closing the current chunk keeps the layout. */
  lemma LaidSnoc(chunks: seq<string>, cur: string, gdone: seq<seq<string>>, gcur: seq<string>, sz: Sizes)
    requires PackInv(chunks, cur, gdone, gcur, sz) && gcur != []
    ensures Laid(chunks + [cur], gdone + [gcur], sz)
  {
    var cs := chunks + [cur];
    var gs := gdone + [gcur];
    var n := |chunks|;
    forall k | 0 <= k < |cs|
      ensures LaidAt(cs, gs, k, sz)
    {
      SeedSnoc(chunks, cur, k, sz);
      if k < n {
        assert LaidAt(chunks, gdone, k, sz);
        assert cs[k] == chunks[k] && gs[k] == gdone[k];
        assert k > 0 ==> cs[k - 1] == chunks[k - 1];
      } else {
        assert cs[k] == cur && gs[k] == gcur;
        assert k > 0 ==> cs[k - 1] == chunks[n - 1];
      }
    }
  }

  /** The current chunk is empty exactly when no paragraph was gathered. */
  lemma PackInvCur(chunks: seq<string>, cur: string, gdone: seq<seq<string>>, gcur: seq<string>, sz: Sizes)
    requires PackInv(chunks, cur, gdone, gcur, sz)
    ensures cur == [] <==> gcur == []
  {
    if gcur != [] {
      JoinNonEmpty(gcur, "\n\n");
    }
  }

  /** Appending a paragraph that fits keeps the loop's state. */
  lemma PackFitStep(chunks: seq<string>, cur: string, gdone: seq<seq<string>>, gcur: seq<string>,
                    p: string, sz: Sizes)
    requires PackInv(chunks, cur, gdone, gcur, sz) && p != []
    requires |cur| + |p| + 2 <= sz.chunkSize
    ensures PackInv(chunks, if cur != [] then cur + "\n\n" + p else p, gdone, gcur + [p], sz)
  {
    PackInvCur(chunks, cur, gdone, gcur, sz);
    var g := gcur + [p];
    if cur != [] {
      JoinSnoc(gcur, p, "\n\n");
      assert g[0] == gcur[0];
      assert cur + "\n\n" + p == Seed(chunks, |chunks|, sz) + Join(g, "\n\n");
    } else {
      assert Join([p], "\n\n") == p;
      assert g == [p];
    }
    assert forall j :: 0 <= j < |g| ==> g[j] != [];
  }

  /** Starting a new chunk with a paragraph that does not fit keeps the loop's
      state. */
  lemma PackCloseStep(chunks: seq<string>, cur: string, gdone: seq<seq<string>>, gcur: seq<string>,
                      p: string, sz: Sizes)
    requires PackInv(chunks, cur, gdone, gcur, sz) && p != []
    requires |cur| + |p| + 2 > sz.chunkSize
    ensures var chunks' := if cur != [] then chunks + [cur] else chunks;
            var gdone' := if cur != [] then gdone + [gcur] else gdone;
            PackInv(chunks', if chunks' != [] && sz.overlapSize > 0 then OverlapText(cur, sz.overlapSize) + "\n\n" + p else p,
                    gdone', [p], sz)
            && Flatten(gdone') == Flatten(gdone) + gcur
  {
    PackInvCur(chunks, cur, gdone, gcur, sz);
    assert Join([p], "\n\n") == p;
    if cur != [] {
      LaidSnoc(chunks, cur, gdone, gcur, sz);
      FlattenSnoc(gdone, gcur);
    }
  }

  /** Closing the last chunk at the end of the loop completes the layout. */
  lemma PackEndStep(chunks: seq<string>, cur: string, gdone: seq<seq<string>>, gcur: seq<string>, sz: Sizes)
    requires PackInv(chunks, cur, gdone, gcur, sz)
    ensures var gs := if cur != [] then gdone + [gcur] else gdone;
            Laid(if cur != [] then chunks + [cur] else chunks, gs, sz)
            && Flatten(gs) == Flatten(gdone) + gcur
  {
    PackInvCur(chunks, cur, gdone, gcur, sz);
    if cur != [] {
      LaidSnoc(chunks, cur, gdone, gcur, sz);
      FlattenSnoc(gdone, gcur);
    }
  }

  lemma Regroup<T>(x: seq<T>, a: seq<T>, ps: seq<T>)
    ensures ps == [] ==> x + a + ps == x + a
    ensures ps != [] ==> x + (a + [ps[0]]) + ps[1..] == x + a + ps
    ensures ps != [] ==> (x + a) + [ps[0]] + ps[1..] == x + a + ps
  {
    if ps != [] {
      assert ps == [ps[0]] + ps[1..];
    }
  }

  lemma {:induction false} PackFromLayout(paras: seq<string>, chunks: seq<string>, cur: string,
                                          gdone: seq<seq<string>>, gcur: seq<string>, sz: Sizes)
    returns (gs: seq<seq<string>>)
    requires PackInv(chunks, cur, gdone, gcur, sz)
    requires forall j :: 0 <= j < |paras| ==> paras[j] != []
    ensures Laid(PackFrom(paras, chunks, cur, sz), gs, sz)
    ensures Flatten(gs) == Flatten(gdone) + gcur + paras
    decreases |paras|
  {
    if paras == [] {
      PackEndStep(chunks, cur, gdone, gcur, sz);
      gs := if cur != [] then gdone + [gcur] else gdone;
      Regroup(Flatten(gdone), gcur, paras);
    } else {
      var p := paras[0];
      Regroup(Flatten(gdone), gcur, paras);
      if |cur| + |p| + 2 <= sz.chunkSize {
        PackFitStep(chunks, cur, gdone, gcur, p, sz);
        gs := PackFromLayout(paras[1..], chunks, if cur != [] then cur + "\n\n" + p else p, gdone, gcur + [p], sz);
      } else {
        var chunks' := if cur != [] then chunks + [cur] else chunks;
        var gdone' := if cur != [] then gdone + [gcur] else gdone;
        PackCloseStep(chunks, cur, gdone, gcur, p, sz);
        gs := PackFromLayout(paras[1..], chunks',
                             if chunks' != [] && sz.overlapSize > 0 then OverlapText(cur, sz.overlapSize) + "\n\n" + p else p,
                             gdone', [p], sz);
      }
    }
  }

  /** The packing, stated whole: there are groups of consecutive paragraphs,
      together exactly the input in order, such that each chunk is its seed
      followed by its group joined with blank lines, appending never took a
      chunk past the size, and each group's first paragraph did not fit onto
      the chunk before. */
  lemma PackLayout(paras: seq<string>, sz: Sizes) returns (gs: seq<seq<string>>)
    requires forall j :: 0 <= j < |paras| ==> paras[j] != []
    ensures Laid(Pack(paras, sz), gs, sz)
    ensures Flatten(gs) == paras
  {
    gs := PackFromLayout(paras, [], "", [], [], sz);
  }

  lemma {:induction false} PackFromNoEmpty(paras: seq<string>, chunks: seq<string>, cur: string, sz: Sizes)
    requires forall k :: 0 <= k < |chunks| ==> chunks[k] != []
    ensures forall k :: 0 <= k < |PackFrom(paras, chunks, cur, sz)| ==> PackFrom(paras, chunks, cur, sz)[k] != []
    decreases |paras|
  {
    if paras != [] {
      var p := paras[0];
      if |cur| + |p| + 2 <= sz.chunkSize {
        PackFromNoEmpty(paras[1..], chunks, if cur != [] then cur + "\n\n" + p else p, sz);
      } else {
        var chunks' := if cur != [] then chunks + [cur] else chunks;
        var cur' := if chunks' != [] && sz.overlapSize > 0 then OverlapText(cur, sz.overlapSize) + "\n\n" + p else p;
        PackFromNoEmpty(paras[1..], chunks', cur', sz);
      }
    }
  }

  /** No chunk is empty, and there is a chunk exactly when there is a paragraph. */
  lemma PackNonEmpty(paras: seq<string>, sz: Sizes)
    requires forall j :: 0 <= j < |paras| ==> paras[j] != []
    ensures forall k :: 0 <= k < |Pack(paras, sz)| ==> Pack(paras, sz)[k] != []
    ensures Pack(paras, sz) != [] <==> paras != []
  {
    PackFromNoEmpty(paras, [], "", sz);
    var gs := PackLayout(paras, sz);
    assert gs == [] ==> Flatten(gs) == [];
  }

  /** Length of the longest paragraph. */
  function MaxLen(xs: seq<string>): (m: nat)
    ensures forall k :: 0 <= k < |xs| ==> |xs[k]| <= m
    decreases |xs|
  {
    if xs == [] then 0 else Max(|xs[0]|, MaxLen(xs[1..]))
  }

  /** No chunk is longer than the size or than its longest paragraph plus the
      overlap and a blank line: a single paragraph over the size is not cut. */
  lemma PackChunkBound(paras: seq<string>, sz: Sizes)
    requires forall j :: 0 <= j < |paras| ==> paras[j] != []
    ensures forall k :: 0 <= k < |Pack(paras, sz)| ==>
      |Pack(paras, sz)[k]| <= Max(sz.chunkSize, MaxLen(paras) + Max(sz.overlapSize, 0) + 2)
  {
    var cs := Pack(paras, sz);
    var gs := PackLayout(paras, sz);
    forall k | 0 <= k < |cs|
      ensures |cs[k]| <= Max(sz.chunkSize, MaxLen(paras) + Max(sz.overlapSize, 0) + 2)
    {
      assert LaidAt(cs, gs, k, sz);
      if |gs[k]| == 1 {
        assert Join(gs[k], "\n\n") == gs[k][0];
        InFlatten(gs, k, 0);
        if k > 0 && sz.overlapSize > 0 {
          var a, b := OverlapTextTail(cs[k - 1], sz.overlapSize);
        }
      }
    }
  }

  /** `_combine_paragraphs_to_chunks`: the loop over the paragraphs. */
  method CombineParagraphsToChunks(paras: seq<string>, sz: Sizes) returns (chunks: seq<string>)
    ensures chunks == Pack(paras, sz)
  {
    chunks := [];
    var current := "";
    var i := 0;
    while i < |paras|
      invariant 0 <= i <= |paras|
      invariant PackFrom(paras[i..], chunks, current, sz) == Pack(paras, sz)
    {
      var p := paras[i];
      assert paras[i..][0] == p && paras[i..][1..] == paras[i + 1..];
      if |current| + |p| + 2 <= sz.chunkSize {
        if current != [] {
          current := current + "\n\n" + p;
        } else {
          current := p;
        }
      } else {
        if current != [] {
          chunks := chunks + [current];
        }
        if chunks != [] && sz.overlapSize > 0 {
          var overlap := GetOverlapText(current, sz.overlapSize);
          current := overlap + "\n\n" + p;
        } else {
          current := p;
        }
      }
      i := i + 1;
    }
    if current != [] {
      chunks := chunks + [current];
    }
  }

  // ---------------------------------------------------------------------------
  // Paragraph pieces (`_split_by_paragraphs` after its regex split).

  /** Each paragraph whole when it has at most `limit` characters, its sentence
      pieces otherwise, in order. */
  function PiecesOf(paras: seq<string>, limit: int): seq<string>
    decreases |paras|
  {
    if paras == [] then []
    else
      var last := paras[|paras| - 1];
      PiecesOf(paras[..|paras| - 1], limit) + (if |last| <= limit then [last] else SentencePieces(last))
  }

  /** The pieces keep every visible character, in order, and each one is
      non-empty and stripped when the paragraphs are. */
  lemma {:induction false} PiecesOfShape(paras: seq<string>, limit: int)
    requires forall k :: 0 <= k < |paras| ==> paras[k] != [] && IsStripped(paras[k])
    ensures forall k :: 0 <= k < |PiecesOf(paras, limit)| ==> PiecesOf(paras, limit)[k] != [] && IsStripped(PiecesOf(paras, limit)[k])
    ensures Visible(Flatten(PiecesOf(paras, limit))) == Visible(Flatten(paras))
    decreases |paras|
  {
    if paras != [] {
      var init := paras[..|paras| - 1];
      var last := paras[|paras| - 1];
      PiecesOfShape(init, limit);
      var tail := if |last| <= limit then [last] else SentencePieces(last);
      if |last| <= limit {
        FlattenOne(last);
      } else {
        SentencePiecesShape(last);
      }
      FlattenConcat(PiecesOf(init, limit), tail);
      VisibleConcat(Flatten(PiecesOf(init, limit)), Flatten(tail));
      assert paras == init + [last];
      FlattenSnoc(init, last);
      VisibleConcat(Flatten(init), last);
    }
  }

  /** The loop of `_split_by_paragraphs` over already split paragraphs. */
  method ExpandParagraphs(paras: seq<string>, limit: int) returns (pieces: seq<string>)
    ensures pieces == PiecesOf(paras, limit)
  {
    pieces := [];
    var i := 0;
    while i < |paras|
      invariant 0 <= i <= |paras|
      invariant pieces == PiecesOf(paras[..i], limit)
    {
      var para := paras[i];
      assert paras[..i + 1][..i] == paras[..i];
      if |para| <= limit {
        pieces := pieces + [para];
      } else {
        var sentences := SplitLongParagraph(para);
        pieces := pieces + sentences;
      }
      i := i + 1;
    }
    assert paras[..|paras|] == paras;
  }

  /** `_split_by_paragraphs` on a text, with the length limit its caller uses. */
  method SplitByParagraphs(text: string, limit: int) returns (pieces: seq<string>)
    ensures pieces == PiecesOf(Paragraphs(text), limit)
  {
    pieces := ExpandParagraphs(Paragraphs(text), limit);
  }

  /** The pieces of a text keep all its visible characters, in order, and none is
      empty or starts or ends with whitespace. */
  lemma SplitByParagraphsProperties(text: string, limit: int)
    ensures forall k :: 0 <= k < |PiecesOf(Paragraphs(text), limit)| ==>
      PiecesOf(Paragraphs(text), limit)[k] != [] && IsStripped(PiecesOf(Paragraphs(text), limit)[k])
    ensures Visible(Flatten(PiecesOf(Paragraphs(text), limit))) == Visible(text)
  {
    ParagraphsProperties(text);
    PiecesOfShape(Paragraphs(text), limit);
  }
}
