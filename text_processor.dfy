/** `TextProcessor`: the splitter in front of proofreading and the merger that
    stitches the proofread chunks back together, trimming the lines a chunk
    repeats from the end of the one before it. The processor's two settings are
    the `Sizes` value every operation takes. */
module TextProcessor {
  import opened Strings
  import opened Whitespace
  import opened Segmenter

  /** The constructor's defaults: chunk_size 1500, overlap_size 100. */
  const DefaultSizes := Sizes(1500, 100)

  // ---------------------------------------------------------------------------
  // split_text

  /** The chunks `split_text` returns: none for a blank text, the text itself,
      uncleaned, when it fits, and otherwise the packed pieces of the cleaned
      text's paragraphs, a paragraph longer than the chunk size being cut into
      sentence pieces. */
  function SplitChunks(text: string, sz: Sizes): seq<string> {
    if Strip(text) == [] then []
    else if |text| <= sz.chunkSize then [text]
    else Pack(PiecesOf(Paragraphs(CleanText(text)), sz.chunkSize), sz)
  }

  /** `split_text`. */
  method SplitText(text: string, sz: Sizes) returns (chunks: seq<string>)
    ensures chunks == SplitChunks(text, sz)
  {
    if text == [] || |Strip(text)| == 0 {
      return [];
    }
    if |text| <= sz.chunkSize {
      return [text];
    }
    var cleaned := CleanText(text);
    var paragraphs := SplitByParagraphs(cleaned, sz.chunkSize);
    chunks := CombineParagraphsToChunks(paragraphs, sz);
  }

  /** A blank text gives no chunk, a short one comes back as it is, and any
      other text gives at least one chunk, none of them empty. */
  lemma SplitChunksCases(text: string, sz: Sizes)
    ensures SplitChunks(text, sz) == [] <==> Strip(text) == []
    ensures Strip(text) != [] && |text| <= sz.chunkSize ==> SplitChunks(text, sz) == [text]
    ensures forall k :: 0 <= k < |SplitChunks(text, sz)| ==> SplitChunks(text, sz)[k] != []
  {
    if Strip(text) != [] {
      VisibleOfStripped(text);
      if |text| > sz.chunkSize {
        var pieces := PiecesOf(Paragraphs(CleanText(text)), sz.chunkSize);
        SplitByParagraphsProperties(CleanText(text), sz.chunkSize);
        CleanTextVisible(text);
        PackNonEmpty(pieces, sz);
        assert pieces != [] by {
          assert pieces == [] ==> Visible(Flatten(pieces)) == [];
        }
      } else {
        assert text != [];
      }
    }
  }

  /** A long text is laid out whole: the chunks are built from groups of
      consecutive pieces which together hold exactly the visible characters of
      the text, in order, each chunk being its overlap seed followed by its
      group joined with blank lines. */
  lemma SplitChunksLayout(text: string, sz: Sizes) returns (gs: seq<seq<string>>)
    requires Strip(text) != [] && |text| > sz.chunkSize
    ensures Laid(SplitChunks(text, sz), gs, sz)
    ensures Visible(Flatten(Flatten(gs))) == Visible(text)
  {
    var pieces := PiecesOf(Paragraphs(CleanText(text)), sz.chunkSize);
    SplitByParagraphsProperties(CleanText(text), sz.chunkSize);
    CleanTextVisible(text);
    gs := PackLayout(pieces, sz);
  }

  // ---------------------------------------------------------------------------
  // _process_overlap

  /** A line the previous part already holds: non-blank and, stripped and
      lower-cased, a substring of the previous part's lower-cased tail. */
  predicate Repeated(line: string, tail: string) {
    Strip(line) != [] && IsInfix(Lower(Strip(line)), tail)
  }

  /** How many of the first five lines are skipped: the longest run of
      repeated lines at the start. */
  function LeadingRepeats(lines: seq<string>, tail: string, limit: nat): (skip: nat)
    ensures skip <= |lines| && skip <= limit
    ensures forall i :: 0 <= i < skip ==> Repeated(lines[i], tail)
    ensures skip < |lines| && skip < limit ==> !Repeated(lines[skip], tail)
    decreases limit
  {
    if lines == [] || limit == 0 || !Repeated(lines[0], tail) then 0
    else 1 + LeadingRepeats(lines[1..], tail, limit - 1)
  }

  /** The lower-cased last 200 characters (or fewer) of a text. */
  function LowerTail(previous: string): string {
    Lower(previous[|previous| - if |previous| < 200 then |previous| else 200..])
  }

  /** What `_process_overlap` returns for the next result `current` after the
      part `previous`. */
  function Deduplicated(current: string, previous: string): string {
    if previous == [] || current == [] then current
    else
      var lines := Split(current, '\n');
      Strip(Join(lines[LeadingRepeats(lines, LowerTail(previous), 5)..], "\n"))
  }

  /** `_process_overlap`: the scan over the first five lines, stopping at the
      first line that is not repeated. */
  method ProcessOverlap(current: string, previous: string) returns (r: string)
    ensures r == Deduplicated(current, previous)
  {
    if previous == [] || current == [] {
      return current;
    }
    var tail := LowerTail(previous);
    var lines := Split(current, '\n');
    var skip := 0;
    var i := 0;
    while i < |lines| && i < 5
      invariant 0 <= i <= |lines| && i <= 5
      invariant skip == i
      invariant forall j :: 0 <= j < i ==> Repeated(lines[j], tail)
    {
      var stripped := Strip(lines[i]);
      if stripped != [] && IsInfix(Lower(stripped), tail) {
        skip := i + 1;
      } else {
        break;
      }
      i := i + 1;
    }
    LeadingRepeatsIs(lines, tail, 5, skip);
    var kept := if skip > 0 then lines[skip..] else lines;
    r := Strip(Join(kept, "\n"));
  }

  /** The longest repeated run is determined by its two defining facts. */
  lemma {:induction false} LeadingRepeatsIs(lines: seq<string>, tail: string, limit: nat, k: nat)
    requires k <= |lines| && k <= limit
    requires forall i :: 0 <= i < k ==> Repeated(lines[i], tail)
    requires k < |lines| && k < limit ==> !Repeated(lines[k], tail)
    ensures LeadingRepeats(lines, tail, limit) == k
    decreases limit
  {
    if k > 0 {
      LeadingRepeatsIs(lines[1..], tail, limit - 1, k - 1);
    }
  }

  /** Stripping a suffix of a text gives a slice of the text. */
  lemma StripSuffixSlice(t: string, s: string) returns (a: nat, b: nat)
    requires IsSuffix(t, s)
    ensures a <= b <= |s| && Strip(t) == s[a..b]
  {
    var x, y := StripIsSlice(t);
    a, b := |s| - |t| + x, |s| - |t| + y;
    assert t[x..y] == s[a..b];
  }

  /** The result is a stretch of the current text: only leading lines, and
      whitespace at the ends, are ever dropped. */
  lemma DeduplicatedSlice(current: string, previous: string) returns (a: nat, b: nat)
    ensures a <= b <= |current| && Deduplicated(current, previous) == current[a..b]
  {
    if previous == [] || current == [] {
      a, b := 0, |current|;
    } else {
      var lines := Split(current, '\n');
      var k := LeadingRepeats(lines, LowerTail(previous), 5);
      JoinSplit(current, '\n');
      JoinSuffix(lines, k, "\n");
      a, b := StripSuffixSlice(Join(lines[k..], "\n"), current);
    }
  }

  /** The result keeps a suffix of the current text's visible characters. */
  lemma DeduplicatedVisible(current: string, previous: string)
    ensures IsSuffix(Visible(Deduplicated(current, previous)), Visible(current))
  {
    if previous != [] && current != [] {
      var lines := Split(current, '\n');
      var kept := Join(lines[LeadingRepeats(lines, LowerTail(previous), 5)..], "\n");
      JoinSplit(current, '\n');
      JoinSuffix(lines, LeadingRepeats(lines, LowerTail(previous), 5), "\n");
      VisibleStrip(kept);
      VisibleSuffix(kept, current);
    }
  }

  /** Nothing is dropped when there is nothing before or the first line is not
      repeated; apart from that, the dropped lines are exactly the leading
      repeated ones, at most five of them. */
  lemma DeduplicatedKeeps(current: string, previous: string)
    ensures previous == [] || current == [] ==> Deduplicated(current, previous) == current
    ensures previous != [] && !Repeated(Split(current, '\n')[0], LowerTail(previous)) ==>
      Deduplicated(current, previous) == Strip(current)
  {
    var lines := Split(current, '\n');
    if previous != [] && current != [] && !Repeated(lines[0], LowerTail(previous)) {
      JoinSplit(current, '\n');
      assert lines[0..] == lines;
    }
  }

  // ---------------------------------------------------------------------------
  // merge_results

  /** The parts `merge_results` collects: each result stripped, every one after
      the first trimmed against the part before it. */
  function MergedParts(results: seq<string>): (parts: seq<string>)
    ensures |parts| == |results|
    decreases |results|
  {
    if results == [] then []
    else
      var init := MergedParts(results[..|results| - 1]);
      var r := Strip(results[|results| - 1]);
      init + [if init == [] then r else Deduplicated(r, init[|init| - 1])]
  }

  /** What `merge_results` returns. */
  function Merged(results: seq<string>): string {
    if results == [] then ""
    else if |results| == 1 then results[0]
    else Strip(CollapseNewlines(Join(MergedParts(results), "\n\n")))
  }

  /** `merge_results`: the loop collecting the parts, then the join. */
  method MergeResults(results: seq<string>) returns (merged: string)
    ensures merged == Merged(results)
    ensures results == [] ==> merged == ""
    ensures |results| == 1 ==> merged == results[0]
  {
    if results == [] {
      return "";
    }
    if |results| == 1 {
      return results[0];
    }
    var parts := CollectParts(results);
    merged := Strip(CollapseNewlines(Join(parts, "\n\n")));
  }

  /** The loop of `merge_results`: each result stripped, every one after the
      first passed through `_process_overlap` with the part before it. */
  method CollectParts(results: seq<string>) returns (parts: seq<string>)
    ensures parts == MergedParts(results)
  {
    parts := [];
    var i := 0;
    while i < |results|
      invariant 0 <= i <= |results|
      invariant parts == MergedParts(results[..i])
    {
      var result := Strip(results[i]);
      var next := result;
      if i > 0 {
        next := ProcessOverlap(result, parts[|parts| - 1]);
      }
      MergedPartsNext(results, i, parts, next);
      parts := parts + [next];
      i := i + 1;
    }
    assert results[..|results|] == results;
  }

  /** One step of the loop: the part of result i follows those before it. */
  lemma MergedPartsNext(results: seq<string>, i: nat, parts: seq<string>, next: string)
    requires i < |results| && parts == MergedParts(results[..i])
    requires next == if i == 0 then Strip(results[i]) else Deduplicated(Strip(results[i]), parts[i - 1])
    ensures MergedParts(results[..i + 1]) == parts + [next]
  {
    assert results[..i + 1][..i] == results[..i];
  }

  /** The parts before the last result's are those of the results before it. */
  lemma MergedPartsInit(results: seq<string>)
    requires results != []
    ensures MergedParts(results)[..|results| - 1] == MergedParts(results[..|results| - 1])
  {
  }

  /** The last part keeps a suffix of its result's visible characters, all of
      them when it is the only one. */
  lemma MergedPartsLast(results: seq<string>)
    requires results != []
    ensures IsSuffix(Visible(MergedParts(results)[|results| - 1]), Visible(results[|results| - 1]))
    ensures |results| == 1 ==> Visible(MergedParts(results)[0]) == Visible(results[0])
  {
    var n := |results| - 1;
    var init := MergedParts(results[..n]);
    var r := Strip(results[n]);
    VisibleStrip(results[n]);
    if init != [] {
      DeduplicatedVisible(r, init[|init| - 1]);
    }
  }

  lemma {:induction false} MergedPartSuffix(results: seq<string>, i: nat)
    requires i < |results|
    ensures IsSuffix(Visible(MergedParts(results)[i]), Visible(results[i]))
    ensures i == 0 ==> Visible(MergedParts(results)[i]) == Visible(results[i])
    decreases |results|
  {
    var n := |results| - 1;
    if i < n {
      MergedPartSuffix(results[..n], i);
      MergedPartsInit(results);
      assert MergedParts(results)[i] == MergedParts(results)[..n][i];
      assert results[..n][i] == results[i];
    } else {
      MergedPartsLast(results);
    }
  }

  /** Every part keeps a suffix of its result's visible characters, and the
      first part all of them. */
  lemma MergedPartsSuffix(results: seq<string>)
    ensures forall i :: 0 <= i < |results| ==>
      IsSuffix(Visible(MergedParts(results)[i]), Visible(results[i]))
    ensures results != [] ==> Visible(MergedParts(results)[0]) == Visible(results[0])
  {
    forall i | 0 <= i < |results|
      ensures IsSuffix(Visible(MergedParts(results)[i]), Visible(results[i]))
    {
      MergedPartSuffix(results, i);
    }
    if results != [] {
      MergedPartSuffix(results, 0);
    }
  }

  /** Joining parts with blank lines, collapsing newline runs and stripping
      only adds and removes whitespace, leaves no run of three newlines and no
      whitespace at either end. */
  lemma JoinedShape(parts: seq<string>)
    ensures var m := Strip(CollapseNewlines(Join(parts, "\n\n")));
            Visible(m) == Visible(Flatten(parts)) && NoTripleNewline(m) && IsStripped(m)
  {
    var joined := Join(parts, "\n\n");
    VisibleOfSpaces("\n\n");
    VisibleJoin(parts, "\n\n");
    VisibleCollapse(joined);
    VisibleStrip(CollapseNewlines(joined));
    CollapseNoTripleNewline(joined);
    var a, b := StripIsSlice(CollapseNewlines(joined));
    SliceShape(CollapseNewlines(joined), a, b);
  }

  /** Merging two or more results only adds and removes whitespace around the
      parts, leaves no run of three newlines and no whitespace at either end. */
  lemma MergedShape(results: seq<string>)
    requires |results| >= 2
    ensures Visible(Merged(results)) == Visible(Flatten(MergedParts(results)))
    ensures NoTripleNewline(Merged(results)) && IsStripped(Merged(results))
  {
    JoinedShape(MergedParts(results));
  }
}
