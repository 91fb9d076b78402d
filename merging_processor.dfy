/** `MergingProcessor`: joins the edited chunks into one document. The chunk
    texts are concatenated with the lines a chunk repeats from the end of the
    one before dropped; headings and golden quotes are gathered from all
    chunks and thinned out by similarity; the golden-quotes section is moved
    to the end and blank lines are put around headings. */
module MergingProcessor {
  import opened Common
  import opened Strings
  import opened Whitespace
  import opened Markdown
  import opened EditingProcessor
  import TextProcessor

  // ---------------------------------------------------------------------------
  // Similarity of titles and of quotes.

  /** The characters `[\w一-鿿]` keeps: ASCII letters, digits and `_`,
      and the CJK unified ideographs. */
  predicate IsWordChar(c: char) {
    ('0' <= c <= '9') || ('a' <= c <= 'z') || ('A' <= c <= 'Z') || c == '_'
    || ('\U{4E00}' <= c <= '\U{9FFF}')
  }

  /** re.sub(r'[^\w一-鿿]', '', s): the word characters, in order. */
  function WordChars(s: string): (r: string)
    ensures |r| <= |s|
    ensures forall i :: 0 <= i < |r| ==> IsWordChar(r[i])
    decreases |s|
  {
    if s == [] then [] else (if IsWordChar(s[0]) then [s[0]] else []) + WordChars(s[1..])
  }

  /** Removing the other characters twice removes nothing more. */
  lemma {:induction false} WordCharsIdempotent(s: string)
    ensures WordChars(WordChars(s)) == WordChars(s)
    decreases |s|
  {
    if s != [] {
      WordCharsIdempotent(s[1..]);
      var rest := WordChars(s[1..]);
      if IsWordChar(s[0]) {
        var t := [s[0]] + rest;
        assert t[0] == s[0] && t[1..] == rest;
        assert WordChars(t) == [s[0]] + WordChars(rest);
      } else {
        assert WordChars(s) == rest;
      }
    }
  }

  /** A substring is no longer than the text. */
  lemma InfixLength(p: string, s: string)
    requires IsInfix(p, s)
    ensures |p| <= |s|
  {
    var i := InfixWitness(p, s);
  }

  /** A substring as long as the text is the text. */
  lemma InfixSameLength(p: string, s: string)
    requires IsInfix(p, s) && |p| == |s|
    ensures p == s
  {
    var i := InfixWitness(p, s);
    assert s[0..|s|] == s;
  }

  /** _titles_similar on two normalised titles. */
  function TitlesSimilar(a: string, b: string): bool {
    if a == [] || b == [] then false
    else if a == b then true
    else
      var longer := if |a| > |b| then a else b;
      var shorter := if |a| > |b| then b else a;
      IsInfix(shorter, longer) && |longer| - |shorter| <= 3
  }

  /** Two titles are similar exactly when both are non-empty, one contains the
      other and their lengths differ by at most 3; in particular the relation
      is symmetric. */
  lemma TitlesSimilarIff(a: string, b: string)
    ensures TitlesSimilar(a, b) <==>
      a != [] && b != [] && (IsInfix(a, b) || IsInfix(b, a)) && -3 <= |a| - |b| <= 3
  {
    if a != [] && b != [] {
      if a == b {
        InfixSelf(a);
      }
      if IsInfix(a, b) {
        InfixLength(a, b);
        if |a| == |b| {
          InfixSameLength(a, b);
        }
      }
      if IsInfix(b, a) {
        InfixLength(b, a);
        if |a| == |b| {
          InfixSameLength(b, a);
        }
      }
    }
  }

  /** The normalised form of a title: stripped, lower-cased, word characters
      only. */
  function TitleKey(t: Title): string {
    WordChars(Lower(Strip(t.title)))
  }

  /** Two titles clash when their normalised forms are similar. */
  const TitleClash: (Title, Title) -> bool := (t: Title, u: Title) => TitlesSimilar(TitleKey(t), TitleKey(u))

  /** _quotes_similar: equal after removing punctuation (letter case is
      kept), or, when both are longer than 10 such characters, one contains the
      other with lengths at most 5 apart. */
  function QuotesSimilar(q1: string, q2: string): bool {
    if q1 == [] || q2 == [] then false
    else
      var c1 := WordChars(q1);
      var c2 := WordChars(q2);
      if c1 == c2 then true
      else if |c1| > 10 && |c2| > 10 then
        var longer := if |c1| > |c2| then c1 else c2;
        var shorter := if |c1| > |c2| then c2 else c1;
        IsInfix(shorter, longer) && |longer| - |shorter| <= 5
      else false
  }

  /** The same test stated symmetrically. */
  lemma QuotesSimilarIff(q1: string, q2: string)
    ensures var c1 := WordChars(q1);
      var c2 := WordChars(q2);
      QuotesSimilar(q1, q2) <==> (q1 != [] && q2 != []
        && (c1 == c2 || (|c1| > 10 && |c2| > 10 && (IsInfix(c1, c2) || IsInfix(c2, c1)) && -5 <= |c1| - |c2| <= 5)))
  {
    var c1 := WordChars(q1);
    var c2 := WordChars(q2);
    if IsInfix(c1, c2) {
      InfixLength(c1, c2);
      if |c1| == |c2| {
        InfixSameLength(c1, c2);
      }
    }
    if IsInfix(c2, c1) {
      InfixLength(c2, c1);
      if |c1| == |c2| {
        InfixSameLength(c2, c1);
      }
    }
  }

  /** s holds word characters only. */
  predicate AllWordChars(s: string) {
    forall i :: 0 <= i < |s| ==> IsWordChar(s[i])
  }

  /** A text of word characters only is its own cleaned form. */
  lemma {:induction false} WordCharsOfWords(s: string)
    requires AllWordChars(s)
    ensures WordChars(s) == s
    decreases |s|
  {
    if s != [] {
      assert AllWordChars(s[1..]) by {
        forall i | 0 <= i < |s| - 1
          ensures IsWordChar(s[1..][i])
        {
          assert s[1..][i] == s[i + 1];
        }
      }
      WordCharsOfWords(s[1..]);
      assert IsWordChar(s[0]);
      assert [s[0]] + s[1..] == s;
    }
  }

  /** A text without word characters cleans to nothing. */
  lemma {:induction false} WordCharsOfNone(s: string)
    requires forall i :: 0 <= i < |s| ==> !IsWordChar(s[i])
    ensures WordChars(s) == []
    decreases |s|
  {
    if s != [] {
      assert forall i :: 0 <= i < |s| - 1 ==> s[1..][i] == s[i + 1];
      WordCharsOfNone(s[1..]);
    }
  }

  /** Nothing is folded before the comparison: two different quotes of the
      same length made of word characters only are never similar, letter case
      included. */
  lemma QuotesCaseSensitive(q1: string, q2: string)
    requires |q1| == |q2| && q1 != q2 && AllWordChars(q1) && AllWordChars(q2)
    ensures !QuotesSimilar(q1, q2)
  {
    WordCharsOfWords(q1);
    WordCharsOfWords(q2);
    if IsInfix(q1, q2) {
      InfixSameLength(q1, q2);
    }
    if IsInfix(q2, q1) {
      InfixSameLength(q2, q1);
    }
  }

  /** In particular a quote of word characters with a capital letter is not
      similar to its lower-cased form. */
  lemma QuotesDifferInCase(q: string)
    requires AllWordChars(q) && Lower(q) != q
    ensures !QuotesSimilar(q, Lower(q))
  {
    assert AllWordChars(Lower(q)) by {
      forall i | 0 <= i < |q|
        ensures IsWordChar(Lower(q)[i])
      {
        assert Lower(q)[i] == LowerChar(q[i]);
      }
    }
    QuotesCaseSensitive(q, Lower(q));
  }

  /** Any two non-empty quotes made of punctuation only are similar: both
      clean to nothing. */
  lemma QuotesOfPunctuation(q1: string, q2: string)
    requires q1 != [] && q2 != []
    requires forall i :: 0 <= i < |q1| ==> !IsWordChar(q1[i])
    requires forall i :: 0 <= i < |q2| ==> !IsWordChar(q2[i])
    ensures QuotesSimilar(q1, q2)
  {
    WordCharsOfNone(q1);
    WordCharsOfNone(q2);
  }

  const QuoteClash: (string, string) -> bool := (q: string, e: string) => QuotesSimilar(q, e)

  // ---------------------------------------------------------------------------
  // Keeping the first of every group of similar items.

  /** Whether x clashes with one of the items kept so far. */
  predicate ClashesWith<T>(x: T, kept: seq<T>, clash: (T, T) -> bool) {
    exists j :: 0 <= j < |kept| && clash(x, kept[j])
  }

  /** The items in order, each kept unless it clashes with an item kept before
      it. */
  function Sift<T>(xs: seq<T>, clash: (T, T) -> bool): seq<T>
    decreases |xs|
  {
    if xs == [] then []
    else
      var kept := Sift(xs[..|xs| - 1], clash);
      if ClashesWith(xs[|xs| - 1], kept, clash) then kept else kept + [xs[|xs| - 1]]
  }

  lemma SiftStep<T>(xs: seq<T>, clash: (T, T) -> bool, i: nat)
    requires i < |xs|
    ensures Sift(xs[..i + 1], clash)
      == if ClashesWith(xs[i], Sift(xs[..i], clash), clash) then Sift(xs[..i], clash)
         else Sift(xs[..i], clash) + [xs[i]]
  {
    assert xs[..i + 1][..i] == xs[..i];
  }

  lemma SiftNext<T>(xs: seq<T>, clash: (T, T) -> bool, i: nat, kept: seq<T>, duplicate: bool)
    requires i < |xs| && kept == Sift(xs[..i], clash)
    requires duplicate == ClashesWith(xs[i], kept, clash)
    ensures Sift(xs[..i + 1], clash) == if duplicate then kept else kept + [xs[i]]
  {
    SiftStep(xs, clash, i);
  }

  /** The kept items are a subsequence of the input, in the input's order. */
  lemma {:induction false} SiftSubsequence<T>(xs: seq<T>, clash: (T, T) -> bool)
    ensures IsSubsequence(Sift(xs, clash), xs)
    decreases |xs|
  {
    if xs != [] {
      var n := |xs| - 1;
      SiftSubsequence(xs[..n], clash);
      SubsequenceSnoc(Sift(xs[..n], clash), xs[..n], xs[n]);
      LastSplit(xs);
    }
  }

  /** No kept item clashes with one kept before it. */
  lemma {:induction false} SiftApart<T>(xs: seq<T>, clash: (T, T) -> bool)
    ensures Apart(Sift(xs, clash), clash)
    decreases |xs|
  {
    if xs != [] {
      var x := xs[|xs| - 1];
      var kept := Sift(xs[..|xs| - 1], clash);
      SiftApart(xs[..|xs| - 1], clash);
      if !ClashesWith(x, kept, clash) {
        var r := kept + [x];
        forall i, j | 0 <= i < j < |r|
          ensures !clash(r[j], r[i])
        {
          if j == |kept| {
            assert r[j] == x && r[i] == kept[i];
          } else {
            assert r[j] == kept[j] && r[i] == kept[i];
          }
        }
      }
    }
  }

  /** Sifting a prefix gives a prefix of the sifted whole. */
  lemma {:induction false} SiftPrefix<T>(xs: seq<T>, clash: (T, T) -> bool, k: nat)
    requires k <= |xs|
    ensures IsPrefixOf(Sift(xs[..k], clash), Sift(xs, clash))
    decreases |xs| - k
  {
    if k < |xs| {
      SiftPrefix(xs, clash, k + 1);
      SiftStep(xs, clash, k);
    } else {
      assert xs[..k] == xs;
    }
  }

  /** Every input item is kept, or clashes with a kept item. */
  lemma SiftCovers<T>(xs: seq<T>, clash: (T, T) -> bool, i: nat)
    requires i < |xs|
    ensures Covered(xs[i], Sift(xs, clash), clash)
  {
    var r := Sift(xs, clash);
    var before := Sift(xs[..i], clash);
    var upto := Sift(xs[..i + 1], clash);
    SiftStep(xs, clash, i);
    SiftPrefix(xs, clash, i + 1);
    if ClashesWith(xs[i], before, clash) {
      var j :| 0 <= j < |before| && clash(xs[i], before[j]);
      assert upto == before;
      assert r[j] == before[j];
    } else {
      assert upto == before + [xs[i]];
      assert upto[|before|] == xs[i];
      assert r[|before|] == xs[i];
    }
  }

  /** An item that clashes with nothing is always kept. */
  lemma {:induction false} SiftKeeps<T(!new)>(xs: seq<T>, clash: (T, T) -> bool, i: nat)
    requires i < |xs| && Harmless(xs[i], clash)
    ensures xs[i] in Sift(xs, clash)
  {
    var x := xs[i];
    var before := Sift(xs[..i], clash);
    var upto := Sift(xs[..i + 1], clash);
    assert !ClashesWith(x, before, clash) by {
      forall j | 0 <= j < |before|
        ensures !clash(x, before[j])
      {
        HarmlessWith(x, clash, before[j]);
      }
    }
    SiftStep(xs, clash, i);
    SiftPrefix(xs, clash, i + 1);
    assert upto == before + [xs[i]];
    assert upto[|before|] == xs[i];
    assert Sift(xs, clash)[|before|] == xs[i];
  }

  /** x clashes with nothing. */
  ghost predicate Harmless<T(!new)>(x: T, clash: (T, T) -> bool) {
    forall y :: !clash(x, y)
  }

  lemma HarmlessWith<T(!new)>(x: T, clash: (T, T) -> bool, y: T)
    requires Harmless(x, clash)
    ensures !clash(x, y)
  {
  }

  /** No item of r clashes with one before it. */
  ghost predicate Apart<T>(r: seq<T>, clash: (T, T) -> bool) {
    forall i, j :: 0 <= i < j < |r| ==> !clash(r[j], r[i])
  }

  /** x is an item of r or clashes with one. */
  ghost predicate Covered<T>(x: T, r: seq<T>, clash: (T, T) -> bool) {
    exists j :: 0 <= j < |r| && (r[j] == x || clash(x, r[j]))
  }

  /** p is a prefix of s (for sequences of any element type). */
  ghost predicate IsPrefixOf<T>(p: seq<T>, s: seq<T>) {
    |p| <= |s| && forall i :: 0 <= i < |p| ==> p[i] == s[i]
  }

  // ---------------------------------------------------------------------------
  // Dropping the lines a chunk repeats from the end of the one before.

  /** re.sub(r'^#+\s*', '', s): a leading run of `#` and the whitespace after
      it removed. */
  function DropHashes(s: string): (r: string)
    ensures IsSuffix(r, s)
    ensures s == [] || s[0] != '#' ==> r == s
    ensures s != [] && s[0] == '#' ==> r == [] || !IsSpace(r[0])
  {
    var h := CharRun(s, '#');
    if h == 0 then s else s[h + SpaceRun(s[h..])..]
  }

  /** _is_duplicate_line: the lower-cased line without its heading marks is
      at least five characters long and occurs in the previous text. */
  predicate IsDuplicateLine(line: string, previous: string) {
    var clean := DropHashes(Strip(Lower(line)));
    |clean| >= 5 && IsInfix(clean, previous)
  }

  lemma LowerSpace(s: string, i: nat)
    requires i < |s|
    ensures |Lower(s)| == |s| && Lower(s)[i] == LowerChar(s[i])
    ensures IsSpace(Lower(s)[i]) <==> IsSpace(s[i])
    ensures Lower(s)[i] == '#' <==> s[i] == '#'
  {
  }

  /** Heading marks do not matter: a heading line is a duplicate exactly when
      its text is. */
  lemma DuplicateIgnoresMarks(n: nat, t: string, previous: string)
    requires n >= 1 && t != [] && IsStripped(t) && t[0] != '#'
    ensures IsDuplicateLine(Repeat("#", n) + " " + t, previous) == IsDuplicateLine(t, previous)
  {
    var marks := Repeat("#", n);
    var lt := Lower(t);
    LowerHeadingStripped(n, t);
    LowerTextClean(t);
    RepeatChar('#', n);
    DropMarks(marks, lt);
    SameClean(marks + " " + t, t, previous);
  }

  /** Lower-casing and stripping a heading line keeps its marks and space. */
  lemma LowerHeadingStripped(n: nat, t: string)
    requires n >= 1 && t != [] && IsStripped(t)
    ensures Strip(Lower(Repeat("#", n) + " " + t)) == Repeat("#", n) + " " + Lower(t)
  {
    var marks := Repeat("#", n);
    var lt := Lower(t);
    LowerMarks(n, t);
    LowerSpace(t, |t| - 1);
    RepeatChar('#', n);
    LowerStripped(marks + " ", lt);
    StripStripped(marks + " " + lt);
  }

  /** A stripped text that starts with no mark is its own cleaned form. */
  lemma LowerTextClean(t: string)
    requires t != [] && IsStripped(t) && t[0] != '#'
    ensures Lower(t) != [] && !IsSpace(Lower(t)[0]) && Lower(t)[0] != '#'
    ensures DropHashes(Strip(Lower(t))) == Lower(t)
  {
    LowerSpace(t, 0);
    LowerSpace(t, |t| - 1);
    StripStripped(Lower(t));
  }

  lemma SameClean(a: string, b: string, previous: string)
    requires DropHashes(Strip(Lower(a))) == DropHashes(Strip(Lower(b)))
    ensures IsDuplicateLine(a, previous) == IsDuplicateLine(b, previous)
  {
  }

  /** Lower-casing leaves the marks and the space alone. */
  lemma LowerMarks(n: nat, t: string)
    ensures Lower(Repeat("#", n) + " " + t) == Repeat("#", n) + " " + Lower(t)
  {
    var marks := Repeat("#", n);
    RepeatChar('#', n);
    assert Lower(marks) == marks;
    LowerConcat(marks, " ");
    LowerConcat(marks + " ", t);
  }

  lemma LowerStripped(a: string, b: string)
    requires a != [] && a[0] == '#' && b != [] && !IsSpace(b[|b| - 1])
    ensures IsStripped(a + b)
  {
  }

  /** The marks and the one space after them are what DropHashes removes
      before a text that starts with neither. */
  lemma DropMarks(marks: string, rest: string)
    requires |marks| >= 1 && forall i :: 0 <= i < |marks| ==> marks[i] == '#'
    requires rest != [] && !IsSpace(rest[0]) && rest[0] != '#'
    ensures DropHashes(marks + " " + rest) == rest
  {
    var n := |marks|;
    var s := marks + " " + rest;
    assert forall i :: 0 <= i < n ==> s[i] == '#';
    assert s[n] == ' ' && s[n + 1] == rest[0];
    var h := CharRun(s, '#');
    assert h == n;
    assert s[n..][0] == ' ' && s[n..][1] == rest[0];
    assert SpaceRun(s[n..]) == 1;
    assert s[n + 1..] == rest;
  }

  /** Neither a line of fewer than five characters nor a previous text of
      fewer than five characters gives a duplicate. */
  lemma ShortNeverDuplicate(line: string, previous: string)
    requires |line| < 5 || |previous| < 5
    ensures !IsDuplicateLine(line, previous)
  {
    var clean := DropHashes(Strip(Lower(line)));
    if |clean| >= 5 && IsInfix(clean, previous) {
      InfixLength(clean, previous);
    }
  }

  /** The lower-cased last three lines of the previous part. */
  function PrevText(previous: string): string {
    Lower(Join(LastN(Split(previous, '\n'), 3), "\n"))
  }

  /** The lines _process_subsequent_chunk keeps: blank lines before the first
      kept line are dropped, and so is each of the first three lines that
      duplicates the previous text. */
  function Kept(lines: seq<string>, prev: string): seq<string>
    decreases |lines|
  {
    if lines == [] then []
    else
      var n := |lines| - 1;
      var init := Kept(lines[..n], prev);
      var stripped := Strip(lines[n]);
      if stripped == [] && init == [] then init
      else if n < 3 && stripped != [] && IsDuplicateLine(stripped, prev) then init
      else init + [lines[n]]
  }

  lemma KeptStep(lines: seq<string>, prev: string, i: nat)
    requires i < |lines|
    ensures var init := Kept(lines[..i], prev);
      var stripped := Strip(lines[i]);
      Kept(lines[..i + 1], prev)
        == if stripped == [] && init == [] then init
           else if i < 3 && stripped != [] && IsDuplicateLine(stripped, prev) then init
           else init + [lines[i]]
  {
    assert lines[..i + 1][..i] == lines[..i];
  }

  /** The kept lines are some of the lines, in their order. */
  lemma {:induction false} KeptSubsequence(lines: seq<string>, prev: string)
    ensures IsSubsequence(Kept(lines, prev), lines)
    decreases |lines|
  {
    if lines != [] {
      var n := |lines| - 1;
      KeptSubsequence(lines[..n], prev);
      SubsequenceSnoc(Kept(lines[..n], prev), lines[..n], lines[n]);
      LastSplit(lines);
    }
  }

  /** The first kept line is not blank. */
  lemma {:induction false} KeptStartsVisible(lines: seq<string>, prev: string)
    ensures Kept(lines, prev) == [] || Strip(Kept(lines, prev)[0]) != []
    decreases |lines|
  {
    if lines != [] {
      KeptStartsVisible(lines[..|lines| - 1], prev);
    }
  }

  /** From the fourth line on, once a line has been kept every line is kept. */
  lemma {:induction false} KeptTail(lines: seq<string>, prev: string, k: nat)
    requires 3 <= k <= |lines| && Kept(lines[..k], prev) != []
    ensures Kept(lines, prev) == Kept(lines[..k], prev) + lines[k..]
    decreases |lines|
  {
    if k == |lines| {
      assert lines[..k] == lines;
      assert lines[k..] == [];
      assert Kept(lines, prev) + [] == Kept(lines, prev);
    } else {
      var n := |lines| - 1;
      TakeTake(lines, k, n);
      KeptTail(lines[..n], prev, k);
      KeptGrows(lines, prev);
      DropSnoc(lines, k);
    }
  }

  /** Past the third line, once something is kept the next line is kept too. */
  lemma KeptGrows(lines: seq<string>, prev: string)
    requires |lines| > 3 && Kept(lines[..|lines| - 1], prev) != []
    ensures Kept(lines, prev) == Kept(lines[..|lines| - 1], prev) + [lines[|lines| - 1]]
  {
  }

  /** With no duplicated line, only blank lines are dropped: every visible
      character is kept. */
  lemma {:induction false} KeptAllVisible(lines: seq<string>, prev: string)
    requires forall i :: 0 <= i < |lines| ==> !IsDuplicateLine(Strip(lines[i]), prev)
    ensures Visible(Flatten(Kept(lines, prev))) == Visible(Flatten(lines))
    decreases |lines|
  {
    if lines != [] {
      var n := |lines| - 1;
      var init := Kept(lines[..n], prev);
      KeptAllVisible(lines[..n], prev);
      LastSplit(lines);
      FlattenSnoc(lines[..n], lines[n]);
      VisibleConcat(Flatten(lines[..n]), lines[n]);
      if Strip(lines[n]) == [] && init == [] {
        VisibleStrip(lines[n]);
      } else {
        FlattenSnoc(init, lines[n]);
        VisibleConcat(Flatten(init), lines[n]);
      }
    }
  }

  /** What _process_subsequent_chunk returns for `content` after the part
      `previous`. */
  function ProcessedChunk(content: string, previous: string): string {
    Strip(Join(Kept(Split(content, '\n'), PrevText(previous)), "\n"))
  }

  /** _process_subsequent_chunk: the scan over the lines. The test against the
      skip count never drops a line, since the count is never past the current
      line. */
  method ProcessSubsequentChunk(content: string, previous: string) returns (r: string)
    ensures r == ProcessedChunk(content, previous)
  {
    var lines := Split(content, '\n');
    var prevText := Lower(Join(LastN(Split(previous, '\n'), 3), "\n"));
    var processed: seq<string> := [];
    var skip := 0;
    var i := 0;
    while i < |lines|
      invariant 0 <= i <= |lines|
      invariant skip <= i
      invariant processed == Kept(lines[..i], prevText)
    {
      var line := lines[i];
      var stripped := Strip(line);
      KeptStep(lines, prevText, i);
      if stripped == [] && processed == [] {
      } else if i < 3 && stripped != [] && IsDuplicateLine(stripped, prevText) {
        skip := i + 1;
      } else if i >= skip {
        processed := processed + [line];
      }
      i := i + 1;
    }
    assert lines[..|lines|] == lines;
    r := Strip(Join(processed, "\n"));
  }

  /** After an empty part nothing counts as repeated, so the chunk loses only
      whitespace. */
  lemma ProcessedAfterNothing(content: string)
    ensures Visible(ProcessedChunk(content, "")) == Visible(content)
  {
    var lines := Split(content, '\n');
    var prev := PrevText("");
    assert |prev| < 5 by {
      assert Split("", '\n') == [""];
      assert LastN([""], 3) == [""];
      assert Join([""], "\n") == "";
    }
    forall i | 0 <= i < |lines|
      ensures !IsDuplicateLine(Strip(lines[i]), prev)
    {
      ShortNeverDuplicate(Strip(lines[i]), prev);
    }
    KeptAllVisible(lines, prev);
    VisibleOfSpaces("\n");
    VisibleJoin(Kept(lines, prev), "\n");
    VisibleJoin(lines, "\n");
    JoinSplit(content, '\n');
    VisibleStrip(Join(Kept(lines, prev), "\n"));
  }

  // ---------------------------------------------------------------------------
  // Titles and golden quotes of all chunks, thinned out.

  /** Every kept item is an input item. */
  lemma {:induction false} SiftMember<T>(xs: seq<T>, clash: (T, T) -> bool, j: nat)
    requires j < |Sift(xs, clash)|
    ensures Sift(xs, clash)[j] in xs
    decreases |xs|
  {
    var n := |xs| - 1;
    var kept := Sift(xs[..n], clash);
    if j < |kept| {
      SiftMember(xs[..n], clash, j);
      assert Sift(xs, clash)[j] == kept[j];
    }
  }

  /** The normalised forms of the titles kept so far. */
  function KeySet(titles: seq<Title>): set<string> {
    set j | 0 <= j < |titles| :: TitleKey(titles[j])
  }

  /** Comparing with the set of normalised forms is comparing with the kept
      titles. */
  lemma SeenClash(t: Title, kept: seq<Title>)
    ensures (exists s :: s in KeySet(kept) && TitlesSimilar(TitleKey(t), s))
      <==> ClashesWith(t, kept, TitleClash)
  {
    if exists s :: s in KeySet(kept) && TitlesSimilar(TitleKey(t), s) {
      var s :| s in KeySet(kept) && TitlesSimilar(TitleKey(t), s);
      var j :| 0 <= j < |kept| && TitleKey(kept[j]) == s;
      assert TitleClash(t, kept[j]);
    }
    if ClashesWith(t, kept, TitleClash) {
      var j :| 0 <= j < |kept| && TitleClash(t, kept[j]);
      assert TitleKey(kept[j]) in KeySet(kept);
    }
  }

  /** The inner loop of _deduplicate_titles: is the key similar to one seen? */
  method SimilarToSeen(key: string, seen: set<string>) returns (found: bool)
    ensures found <==> exists s :: s in seen && TitlesSimilar(key, s)
  {
    found := false;
    var rest := seen;
    while rest != {}
      invariant rest <= seen
      invariant forall s :: s in seen - rest ==> !TitlesSimilar(key, s)
      decreases |rest|
    {
      var s :| s in rest;
      if TitlesSimilar(key, s) {
        found := true;
        break;
      }
      rest := rest - {s};
    }
  }

  /** _deduplicate_titles: a title is kept unless its normalised form is
      similar to that of a title kept before it. */
  method DeduplicateTitles(titles: seq<Title>) returns (unique: seq<Title>)
    ensures unique == Sift(titles, TitleClash)
  {
    unique := [];
    var seen: set<string> := {};
    var i := 0;
    while i < |titles|
      invariant 0 <= i <= |titles|
      invariant unique == Sift(titles[..i], TitleClash)
      invariant seen == KeySet(unique)
    {
      var key := WordChars(Lower(Strip(titles[i].title)));
      var duplicate := SimilarToSeen(key, seen);
      SeenClash(titles[i], unique);
      SiftNext(titles, TitleClash, i, unique, duplicate);
      KeySetSnoc(unique, titles[i]);
      if !duplicate {
        unique := unique + [titles[i]];
        seen := seen + {key};
      }
      i := i + 1;
    }
    assert titles[..|titles|] == titles;
  }

  lemma KeySetSnoc(titles: seq<Title>, t: Title)
    ensures KeySet(titles + [t]) == KeySet(titles) + {TitleKey(t)}
  {
    var ts := titles + [t];
    assert TitleKey(ts[|titles|]) in KeySet(ts);
    forall s | s in KeySet(ts)
      ensures s in KeySet(titles) + {TitleKey(t)}
    {
      var j :| 0 <= j < |ts| && TitleKey(ts[j]) == s;
      if j < |titles| {
        assert ts[j] == titles[j];
      }
    }
    forall s | s in KeySet(titles)
      ensures s in KeySet(ts)
    {
      var j :| 0 <= j < |titles| && TitleKey(titles[j]) == s;
      assert ts[j] == titles[j];
    }
  }

  /** The stripped quotes, leaving out those that strip to nothing. */
  function NonBlank(quotes: seq<string>): (r: seq<string>)
    ensures forall j :: 0 <= j < |r| ==> r[j] != [] && IsStripped(r[j])
    decreases |quotes|
  {
    if quotes == [] then []
    else
      var q := Strip(quotes[|quotes| - 1]);
      NonBlank(quotes[..|quotes| - 1]) + if q == [] then [] else [q]
  }

  lemma NonBlankStep(quotes: seq<string>, i: nat)
    requires i < |quotes|
    ensures NonBlank(quotes[..i + 1])
      == NonBlank(quotes[..i]) + if Strip(quotes[i]) == [] then [] else [Strip(quotes[i])]
  {
    assert quotes[..i + 1][..i] == quotes[..i];
  }

  /** One step of _deduplicate_quotes on a quote that is not blank. */
  lemma QuoteStep(quotes: seq<string>, i: nat, unique: seq<string>, duplicate: bool)
    requires i < |quotes| && Strip(quotes[i]) != []
    requires unique == Sift(NonBlank(quotes[..i]), QuoteClash)
    requires duplicate == ClashesWith(Strip(quotes[i]), unique, QuoteClash)
    ensures Sift(NonBlank(quotes[..i + 1]), QuoteClash)
      == if duplicate then unique else unique + [Strip(quotes[i])]
  {
    var a := NonBlank(quotes[..i]);
    var b := NonBlank(quotes[..i + 1]);
    NonBlankStep(quotes, i);
    assert b == a + [Strip(quotes[i])];
    AppendLast(a, Strip(quotes[i]));
  }

  /** The inner loop of _deduplicate_quotes. */
  method SimilarToKept(quote: string, unique: seq<string>) returns (found: bool)
    ensures found == ClashesWith(quote, unique, QuoteClash)
  {
    found := false;
    var j := 0;
    while j < |unique|
      invariant 0 <= j <= |unique|
      invariant forall k :: 0 <= k < j ==> !QuotesSimilar(quote, unique[k])
    {
      if QuotesSimilar(quote, unique[j]) {
        found := true;
        assert QuoteClash(quote, unique[j]);
        break;
      }
      j := j + 1;
    }
  }

  /** _deduplicate_quotes: each quote stripped, empty ones skipped, and a
      quote kept unless it is similar to one kept before it. */
  method DeduplicateQuotes(quotes: seq<string>) returns (unique: seq<string>)
    ensures unique == Sift(NonBlank(quotes), QuoteClash)
  {
    unique := [];
    var i := 0;
    while i < |quotes|
      invariant 0 <= i <= |quotes|
      invariant unique == Sift(NonBlank(quotes[..i]), QuoteClash)
    {
      var quote := Strip(quotes[i]);
      NonBlankStep(quotes, i);
      if quote != [] {
        var duplicate := SimilarToKept(quote, unique);
        QuoteStep(quotes, i, unique, duplicate);
        if !duplicate {
          unique := unique + [quote];
        }
      } else {
        assert NonBlank(quotes[..i]) + [] == NonBlank(quotes[..i]);
      }
      i := i + 1;
    }
    assert quotes[..|quotes|] == quotes;
  }

  /** The titles of all results, in order. */
  function AllTitles(results: seq<EditResult>): seq<Title>
    decreases |results|
  {
    if results == [] then [] else AllTitles(results[..|results| - 1]) + results[|results| - 1].titles
  }

  /** The golden quotes of all results, in order. */
  function AllQuotes(results: seq<EditResult>): seq<string>
    decreases |results|
  {
    if results == [] then [] else AllQuotes(results[..|results| - 1]) + results[|results| - 1].goldenQuotes
  }

  /** Every title of every result is among all titles. */
  lemma {:induction false} InAllTitles(results: seq<EditResult>, k: nat, j: nat)
    requires k < |results| && j < |results[k].titles|
    ensures results[k].titles[j] in AllTitles(results)
    decreases |results|
  {
    var n := |results| - 1;
    var init := AllTitles(results[..n]);
    if k < n {
      InAllTitles(results[..n], k, j);
    } else {
      assert AllTitles(results)[|init| + j] == results[k].titles[j];
    }
  }

  /** _merge_titles: all titles gathered, then deduplicated. */
  method MergeTitles(results: seq<EditResult>) returns (titles: seq<Title>)
    ensures titles == Sift(AllTitles(results), TitleClash)
  {
    var all: seq<Title> := [];
    var i := 0;
    while i < |results|
      invariant 0 <= i <= |results|
      invariant all == AllTitles(results[..i])
    {
      assert results[..i + 1][..i] == results[..i];
      all := all + results[i].titles;
      i := i + 1;
    }
    assert results[..|results|] == results;
    titles := DeduplicateTitles(all);
  }

  /** _merge_golden_quotes: all quotes gathered, then deduplicated. */
  method MergeGoldenQuotes(results: seq<EditResult>) returns (quotes: seq<string>)
    ensures quotes == Sift(NonBlank(AllQuotes(results)), QuoteClash)
  {
    var all: seq<string> := [];
    var i := 0;
    while i < |results|
      invariant 0 <= i <= |results|
      invariant all == AllQuotes(results[..i])
    {
      assert results[..i + 1][..i] == results[..i];
      all := all + results[i].goldenQuotes;
      i := i + 1;
    }
    assert results[..|results|] == results;
    quotes := DeduplicateQuotes(all);
  }

  /** The merged titles are titles of the results in their order, no two of
      them similar, every title of every result is kept or similar to a kept
      one, and a title with no word character is always kept. */
  lemma MergedTitlesProperties(results: seq<EditResult>)
    ensures var ts := Sift(AllTitles(results), TitleClash);
      IsSubsequence(ts, AllTitles(results))
      && (forall i, j :: 0 <= i < |ts| && 0 <= j < |ts| && i != j ==> !TitlesSimilar(TitleKey(ts[i]), TitleKey(ts[j])))
      && (forall k, j :: 0 <= k < |results| && 0 <= j < |results[k].titles| ==>
            Covered(results[k].titles[j], ts, TitleClash))
      && (forall t :: t in AllTitles(results) && TitleKey(t) == [] ==> t in ts)
  {
    var all := AllTitles(results);
    var ts := Sift(all, TitleClash);
    SiftSubsequence(all, TitleClash);
    SiftApart(all, TitleClash);
    forall i, j | 0 <= i < |ts| && 0 <= j < |ts| && i != j
      ensures !TitlesSimilar(TitleKey(ts[i]), TitleKey(ts[j]))
    {
      TitlesSimilarIff(TitleKey(ts[i]), TitleKey(ts[j]));
      TitlesSimilarIff(TitleKey(ts[j]), TitleKey(ts[i]));
      if i < j {
        assert !TitleClash(ts[j], ts[i]);
      } else {
        assert !TitleClash(ts[i], ts[j]);
      }
    }
    forall k, j | 0 <= k < |results| && 0 <= j < |results[k].titles|
      ensures Covered(results[k].titles[j], ts, TitleClash)
    {
      InAllTitles(results, k, j);
      var i :| 0 <= i < |all| && all[i] == results[k].titles[j];
      SiftCovers(all, TitleClash, i);
    }
    forall t | t in all && TitleKey(t) == []
      ensures t in ts
    {
      var i :| 0 <= i < |all| && all[i] == t;
      assert Harmless(t, TitleClash);
      SiftKeeps(all, TitleClash, i);
    }
  }

  /** Deduplicated quotes are stripped, non-empty, taken from the input in
      its order, and no two of them are similar. */
  lemma DeduplicatedQuotesProperties(quotes: seq<string>)
    ensures var qs := Sift(NonBlank(quotes), QuoteClash);
      IsSubsequence(qs, NonBlank(quotes))
      && (forall i :: 0 <= i < |qs| ==> qs[i] != [] && IsStripped(qs[i]))
      && (forall i, j :: 0 <= i < |qs| && 0 <= j < |qs| && i != j ==> !QuotesSimilar(qs[i], qs[j]))
  {
    var all := NonBlank(quotes);
    var qs := Sift(all, QuoteClash);
    SiftSubsequence(all, QuoteClash);
    SiftApart(all, QuoteClash);
    forall i | 0 <= i < |qs|
      ensures qs[i] != [] && IsStripped(qs[i])
    {
      SiftMember(all, QuoteClash, i);
    }
    forall i, j | 0 <= i < |qs| && 0 <= j < |qs| && i != j
      ensures !QuotesSimilar(qs[i], qs[j])
    {
      QuotesSimilarIff(qs[i], qs[j]);
      QuotesSimilarIff(qs[j], qs[i]);
      if i < j {
        assert !QuoteClash(qs[j], qs[i]);
      } else {
        assert !QuoteClash(qs[i], qs[j]);
      }
    }
  }

  // ---------------------------------------------------------------------------
  // Joining the chunk texts.

  /** The parts _merge_content joins: the first result stripped, every later
      one stripped and passed through _process_subsequent_chunk with the part
      before it. */
  function ContentParts(results: seq<EditResult>): (parts: seq<string>)
    ensures |parts| == |results|
    decreases |results|
  {
    if results == [] then []
    else
      var init := ContentParts(results[..|results| - 1]);
      var c := Strip(results[|results| - 1].content);
      init + [if init == [] then c else ProcessedChunk(c, init[|init| - 1])]
  }

  /** What _merge_content returns. */
  function MergedContent(results: seq<EditResult>): string {
    Strip(CollapseNewlines(Join(ContentParts(results), "\n\n")))
  }

  lemma ContentPartsNext(results: seq<EditResult>, i: nat, parts: seq<string>, next: string)
    requires i < |results| && parts == ContentParts(results[..i])
    requires next == if i == 0 then Strip(results[i].content) else ProcessedChunk(Strip(results[i].content), parts[i - 1])
    ensures ContentParts(results[..i + 1]) == parts + [next]
  {
    var r := results[..i + 1];
    assert r[..i] == results[..i] && r[i] == results[i];
    assert |parts| == i;
  }

  /** _merge_content. */
  method MergeContent(results: seq<EditResult>) returns (merged: string)
    ensures merged == MergedContent(results)
  {
    var parts: seq<string> := [];
    var i := 0;
    while i < |results|
      invariant 0 <= i <= |results|
      invariant parts == ContentParts(results[..i])
    {
      var content := Strip(results[i].content);
      var next := content;
      if i > 0 {
        next := ProcessSubsequentChunk(content, parts[|parts| - 1]);
      }
      ContentPartsNext(results, i, parts, next);
      parts := parts + [next];
      i := i + 1;
    }
    assert results[..|results|] == results;
    merged := Strip(CollapseNewlines(Join(parts, "\n\n")));
  }

  /** The merged text holds the visible characters of the parts in order,
      has no run of three newlines and no whitespace at either end; the first
      part is the first result's text, stripped. */
  lemma MergedContentShape(results: seq<EditResult>)
    ensures Visible(MergedContent(results)) == Visible(Flatten(ContentParts(results)))
    ensures NoTripleNewline(MergedContent(results)) && IsStripped(MergedContent(results))
    ensures results != [] ==> ContentParts(results)[0] == Strip(results[0].content)
  {
    TextProcessor.JoinedShape(ContentParts(results));
    if results != [] {
      FirstContentPart(results);
    }
  }

  lemma {:induction false} FirstContentPart(results: seq<EditResult>)
    requires results != []
    ensures ContentParts(results)[0] == Strip(results[0].content)
    decreases |results|
  {
    var n := |results| - 1;
    if n > 0 {
      FirstContentPart(results[..n]);
    }
  }

  // ---------------------------------------------------------------------------
  // Final layout: the quotes section at the end, blank lines around headings.

  /** The content with any golden-quotes section removed and a new one listing
      the quotes appended, when there are quotes. */
  function WithQuotesAtEnd(content: string, quotes: seq<string>): string {
    if quotes == [] then content
    else TrimEnd(RemoveSections(content)) + QuotesSection(quotes)
  }

  /** The section _optimize_merged_content appends: a blank line, the heading
      and one list line per quote. */
  function QuotesSection(quotes: seq<string>): string {
    "\n\n" + QuotesHeading + "\n" + QuoteLines(quotes)
  }

  /** The loop that builds the section, one quote at a time. */
  method BuildQuotesSection(quotes: seq<string>) returns (section: string)
    ensures section == QuotesSection(quotes)
  {
    section := "\n\n" + QuotesHeading + "\n";
    var i := 0;
    while i < |quotes|
      invariant 0 <= i <= |quotes|
      invariant section == QuotesSection(quotes[..i])
    {
      QuotesSectionSnoc(quotes, i);
      section := section + "- " + quotes[i] + "\n";
      i := i + 1;
    }
    assert quotes[..|quotes|] == quotes;
  }

  lemma QuotesSectionSnoc(quotes: seq<string>, i: nat)
    requires i < |quotes|
    ensures QuotesSection(quotes[..i + 1]) == QuotesSection(quotes[..i]) + "- " + quotes[i] + "\n"
  {
    QuoteLinesSnoc(quotes, i);
    Regroup("\n\n" + QuotesHeading + "\n", QuoteLines(quotes[..i]), "- " + quotes[i] + "\n");
  }

  lemma Regroup(h: string, x: string, y: string)
    ensures h + (x + y) == h + x + y
  {
  }

  /** The number of marks of a `#{1,3}\s` match at the start of t, or 0. */
  function ShortMarks(t: string): (k: nat)
    ensures k == 0 || (1 <= k <= 3 && k < |t| && IsSpace(t[k]))
  {
    var k := CharRun(t, '#');
    if 1 <= k <= 3 && k < |t| && IsSpace(t[k]) then k else 0
  }

  /** re.sub(r'\n(#{1,3}\s)', r'\n\n\1', s): a newline doubled before each
      short heading mark. */
  function SpaceHeadings(s: string): string
    decreases |s|
  {
    if s == [] then []
    else if s[0] == '\n' && ShortMarks(s[1..]) > 0 then
      var k := ShortMarks(s[1..]);
      "\n\n" + s[1..k + 2] + SpaceHeadings(s[k + 2..])
    else [s[0]] + SpaceHeadings(s[1..])
  }

  /** The length of the run of characters other than '\n' at the start of t. */
  function LineRun(t: string): (k: nat)
    ensures k <= |t|
    ensures forall i :: 0 <= i < k ==> t[i] != '\n'
    ensures k == |t| || t[k] == '\n'
    decreases |t|
  {
    if t != [] && t[0] != '\n' then 1 + LineRun(t[1..]) else 0
  }

  /** Where the newline of a `(#{1,3}\s[^\n]+)\n([^\n#])` match at the start
      of t is, or 0 when the pattern does not match there. */
  function HeadingBreak(t: string): (e: nat)
    ensures e == 0 || (e + 1 < |t| && t[e] == '\n' && t[e + 1] != '\n' && t[e + 1] != '#')
  {
    var k := ShortMarks(t);
    if k == 0 then 0
    else
      var e := k + 1 + LineRun(t[k + 1..]);
      if e > k + 1 && e + 1 < |t| && t[e + 1] != '\n' && t[e + 1] != '#' then e else 0
  }

  /** re.sub(r'(#{1,3}\s[^\n]+)\n([^\n#])', r'\1\n\n\2', s): a blank line
      put after a heading line that text follows directly. */
  function SpaceAfterHeadings(s: string): string
    decreases |s|
  {
    if s == [] then []
    else
      var e := HeadingBreak(s);
      if e > 0 then s[..e] + "\n\n" + [s[e + 1]] + SpaceAfterHeadings(s[e + 2..])
      else [s[0]] + SpaceAfterHeadings(s[1..])
  }

  /** What _optimize_merged_content returns. */
  function Optimized(content: string, quotes: seq<string>): string {
    Strip(SpaceAfterHeadings(SpaceHeadings(CollapseNewlines(WithQuotesAtEnd(content, quotes)))))
  }

  /** _optimize_merged_content, one substitution after the other. */
  method OptimizeMergedContent(content: string, quotes: seq<string>) returns (r: string)
    ensures r == Optimized(content, quotes)
  {
    r := content;
    if quotes != [] {
      r := RemoveSections(r);
      var section := BuildQuotesSection(quotes);
      r := TrimEnd(r) + section;
    }
    r := CollapseNewlines(r);
    r := SpaceHeadings(r);
    r := SpaceAfterHeadings(r);
    r := Strip(r);
  }

  /** The listing grows by one line per quote. */
  lemma {:induction false} QuoteLinesSnoc(quotes: seq<string>, i: nat)
    requires i < |quotes|
    ensures QuoteLines(quotes[..i + 1]) == QuoteLines(quotes[..i]) + "- " + quotes[i] + "\n"
    decreases i
  {
    if i == 0 {
      assert quotes[..1][1..] == [];
    } else {
      QuoteLinesSnoc(quotes[1..], i - 1);
      assert quotes[..i + 1][1..] == quotes[1..][..i];
      assert quotes[..i][1..] == quotes[1..][..i - 1];
    }
  }

  /** Swapping whitespace for whitespace, and a tail for one with the same
      visible characters, keeps the visible characters. */
  lemma VisibleSwap(p: string, x: string, y: string, m: string, t: string, u: string)
    requires Visible(x) == [] && Visible(y) == [] && Visible(u) == Visible(t)
    ensures Visible(p + x + m + u) == Visible(p + y + m + t)
  {
    VisibleConcat(p + x + m, u);
    VisibleConcat(p + x, m);
    VisibleConcat(p, x);
    VisibleConcat(p + y + m, t);
    VisibleConcat(p + y, m);
    VisibleConcat(p, y);
  }

  /** VisibleSwap with nothing before the whitespace. */
  lemma VisibleSwapFront(x: string, y: string, m: string, t: string, u: string)
    requires Visible(x) == [] && Visible(y) == [] && Visible(u) == Visible(t)
    ensures Visible(x + m + u) == Visible(y + m + t)
  {
    VisibleConcat(x + m, u);
    VisibleConcat(x, m);
    VisibleConcat(y + m, t);
    VisibleConcat(y, m);
  }

  /** A tail with the same visible characters keeps them after a common head. */
  lemma VisibleCons(c: char, t: string, u: string)
    requires Visible(u) == Visible(t)
    ensures Visible([c] + u) == Visible([c] + t)
  {
    VisibleConcat([c], u);
    VisibleConcat([c], t);
  }

  /** The first pass only adds newlines. */
  lemma {:induction false} VisibleSpaceHeadings(s: string)
    ensures Visible(SpaceHeadings(s)) == Visible(s)
    decreases |s|
  {
    if s != [] {
      if s[0] == '\n' && ShortMarks(s[1..]) > 0 {
        var k := ShortMarks(s[1..]);
        VisibleSpaceHeadings(s[k + 2..]);
        VisibleOfSpaces("\n\n");
        VisibleChar(s[0]);
        ConsSlices(s, k + 2);
        VisibleSwapFront("\n\n", [s[0]], s[1..k + 2], s[k + 2..], SpaceHeadings(s[k + 2..]));
      } else {
        VisibleSpaceHeadings(s[1..]);
        VisibleCons(s[0], s[1..], SpaceHeadings(s[1..]));
        assert s == [s[0]] + s[1..];
      }
    }
  }

  /** The second pass only adds newlines. */
  lemma {:induction false} VisibleSpaceAfterHeadings(s: string)
    ensures Visible(SpaceAfterHeadings(s)) == Visible(s)
    decreases |s|
  {
    if s != [] {
      var e := HeadingBreak(s);
      if e > 0 {
        VisibleSpaceAfterHeadings(s[e + 2..]);
        VisibleOfSpaces("\n\n");
        VisibleChar(s[e]);
        TwoAt(s, e);
        VisibleSwap(s[..e], "\n\n", [s[e]], [s[e + 1]], s[e + 2..], SpaceAfterHeadings(s[e + 2..]));
      } else {
        VisibleSpaceAfterHeadings(s[1..]);
        VisibleCons(s[0], s[1..], SpaceAfterHeadings(s[1..]));
        assert s == [s[0]] + s[1..];
      }
    }
  }

  /** The layout passes only move whitespace: the result has the visible
      characters of the content with the quotes section at the end, and of
      the content itself when there are no quotes. */
  lemma OptimizedVisible(content: string, quotes: seq<string>)
    ensures Visible(Optimized(content, quotes)) == Visible(WithQuotesAtEnd(content, quotes))
    ensures quotes == [] ==> Visible(Optimized(content, quotes)) == Visible(content)
  {
    var a := WithQuotesAtEnd(content, quotes);
    var b := CollapseNewlines(a);
    var c := SpaceHeadings(b);
    var d := SpaceAfterHeadings(c);
    VisibleCollapse(a);
    VisibleSpaceHeadings(b);
    VisibleSpaceAfterHeadings(c);
    VisibleStrip(d);
  }

  /** Before the layout passes, the appended section is the golden-quotes
      section a later search finds, and its items are the quotes. */
  lemma QuotesSectionAtEnd(content: string, quotes: seq<string>)
    requires quotes != [] && ListableQuotes(quotes)
    ensures GoldenQuotes(WithQuotesAtEnd(content, quotes)) == quotes
  {
    var r := RemoveSections(content);
    RemoveSectionsClean(content);
    TrimEndPrefix(r);
    NoMarkerPrefix(r, |TrimEnd(r)|);
    GoldenQuotesAppended(TrimEnd(r), quotes);
    Regroup(TrimEnd(r), "\n\n" + QuotesHeading + "\n", QuoteLines(quotes));
    Regroup(TrimEnd(r), "\n\n" + QuotesHeading, "\n");
    Regroup(TrimEnd(r), "\n\n", QuotesHeading);
  }

  /** A character that does not start a heading break is copied by the
      second heading pass. */
  lemma AfterHeadingsPlain(c: char, u: string)
    requires c != '#'
    ensures SpaceAfterHeadings([c] + u) == [c] + SpaceAfterHeadings(u)
  {
    assert ([c] + u)[1..] == u;
  }

  /** A character other than '\n' is copied by the first heading pass. */
  lemma SpaceHeadingsPlain(c: char, u: string)
    requires c != '\n'
    ensures SpaceHeadings([c] + u) == [c] + SpaceHeadings(u)
  {
    assert ([c] + u)[1..] == u;
  }

  /** A newline before "# " is doubled by the first heading pass. */
  lemma SpaceHeadingsMark(u: string)
    ensures SpaceHeadings("\n# " + u) == "\n\n# " + SpaceHeadings(u)
  {
    var s := "\n# " + u;
    assert s[1..] == "# " + u;
    assert CharRun(s[1..], '#') == 1 by {
      assert s[1..][1..] == " " + u;
    }
    assert s[1..3] == "# " && s[3..] == u;
  }

  /** A heading line that ends the text is left alone by the second
      heading pass. */
  lemma AfterHeadingsLast(x: char)
    requires x != '\n' && x != '#'
    ensures SpaceAfterHeadings("# " + [x]) == "# " + [x]
  {
    var t := "# " + [x];
    assert CharRun(t, '#') == 1 by {
      assert t[1..] == " " + [x];
    }
    assert LineRun(t[2..]) == 1 by {
      assert t[2..] == [x];
    }
    assert HeadingBreak(t) == 0;
    assert t[1..] == " " + [x];
    AfterHeadingsPlain(' ', [x]);
    AfterHeadingsPlain(x, []);
  }

  /** Two newlines followed by a non-newline are kept by the collapse. */
  lemma CollapseTwo(u: string)
    requires u != [] && u[0] != '\n'
    ensures CollapseNewlines("\n\n" + u) == "\n\n" + CollapseNewlines(u)
  {
    var s := "\n\n" + u;
    assert CharRun(s, '\n') == 2 by {
      assert s[1..] == "\n" + u;
      assert s[1..][1..] == u;
    }
    assert s[..2] == "\n\n" && s[2..] == u;
  }

  /** A character other than '\n' is copied by the collapse. */
  lemma CollapsePlain(c: char, u: string)
    requires c != '\n'
    ensures CollapseNewlines([c] + u) == [c] + CollapseNewlines(u)
  {
    assert ([c] + u)[1..] == u;
  }

  /** The collapse copies a heading line that ends the text. */
  lemma CollapseHeadingLine(b: char)
    requires !IsSpace(b)
    ensures CollapseNewlines("# " + [b]) == "# " + [b]
  {
    CollapsePlain(b, []);
    CollapsePlain(' ', [b]);
    CollapsePlain('#', " " + [b]);
    assert "#" + (" " + [b]) == "# " + [b];
  }

  /** The collapse keeps one character and a blank line before a heading
      mark that it leaves alone. */
  lemma CollapseChain(a: char, u: string)
    requires !IsSpace(a) && CollapseNewlines("# " + u) == "# " + u
    ensures CollapseNewlines([a] + "\n\n# " + u) == [a] + "\n\n# " + u
  {
    var h := "# " + u;
    CollapseTwo(h);
    CollapsePlain(a, "\n\n" + h);
    assert [a] + "\n\n# " + u == [a] + ("\n\n" + h);
  }

  /** The collapse keeps a blank line before a heading. */
  lemma CollapseBeforeHeading(a: char, b: char)
    requires !IsSpace(a) && !IsSpace(b)
    ensures CollapseNewlines([a] + "\n\n# " + [b]) == [a] + "\n\n# " + [b]
  {
    CollapseHeadingLine(b);
    CollapseChain(a, [b]);
  }

  /** A blank line before "# " gets a third newline from the first heading
      pass. */
  lemma SpaceHeadingsBlankMark(u: string)
    ensures SpaceHeadings("\n\n# " + u) == "\n\n\n# " + SpaceHeadings(u)
  {
    var s := "\n\n# " + u;
    assert s[1..] == "\n# " + u;
    assert ShortMarks(s[1..]) == 0 by {
      assert s[1..][0] == '\n';
    }
    SpaceHeadingsMark(u);
    assert [s[0]] + ("\n\n# " + SpaceHeadings(u)) == "\n\n\n# " + SpaceHeadings(u);
  }

  /** The first heading pass over one character and a blank line before a
      heading mark. */
  lemma SpaceChain(a: char, u: string)
    requires !IsSpace(a)
    ensures SpaceHeadings([a] + "\n\n# " + u) == [a] + "\n\n\n# " + SpaceHeadings(u)
  {
    var r := "\n\n# " + u;
    SpaceHeadingsBlankMark(u);
    SpaceHeadingsPlain(a, r);
    assert [a] + "\n\n# " + u == [a] + r;
  }

  /** The first heading pass adds a third newline before a heading that has
      a blank line before it. */
  lemma SpaceBeforeHeading(a: char, b: char)
    requires !IsSpace(a) && !IsSpace(b)
    ensures SpaceHeadings([a] + "\n\n# " + [b]) == [a] + "\n\n\n# " + [b]
  {
    SpaceHeadingsPlain(b, []);
    SpaceChain(a, [b]);
  }

  /** The second heading pass copies one character and three newlines in
      front of a text it leaves alone. */
  lemma AfterChain(a: char, h: string)
    requires a != '#' && SpaceAfterHeadings(h) == h
    ensures SpaceAfterHeadings([a] + "\n\n\n" + h) == [a] + "\n\n\n" + h
  {
    var r1 := "\n" + h;
    var r2 := "\n" + r1;
    var r3 := "\n" + r2;
    AfterHeadingsPlain('\n', h);
    AfterHeadingsPlain('\n', r1);
    AfterHeadingsPlain('\n', r2);
    AfterHeadingsPlain(a, r3);
    assert [a] + "\n\n\n" + h == [a] + r3;
  }

  /** Three newlines and a heading line, regrouped. */
  lemma HeadingAfterNewlines(a: char, b: char)
    ensures [a] + "\n\n\n# " + [b] == [a] + "\n\n\n" + ("# " + [b])
  {
  }

  /** The second heading pass leaves a heading that ends the text alone. */
  lemma AfterLastHeading(a: char, b: char)
    requires !IsSpace(a) && a != '#' && !IsSpace(b) && b != '#'
    ensures SpaceAfterHeadings([a] + "\n\n\n# " + [b]) == [a] + "\n\n\n# " + [b]
  {
    AfterHeadingsLast(b);
    AfterChain(a, "# " + [b]);
    HeadingAfterNewlines(a, b);
  }

  /** One character and a blank line before a one-character heading hold no
      three newlines in a row. */
  lemma BlankBeforeHeadingNoTriple(a: char, b: char)
    requires a != '\n' && b != '\n'
    ensures NoTripleNewline([a] + "\n\n# " + [b])
  {
    var s := [a] + "\n\n# " + [b];
    assert s[0] == a && s[3] == '#' && s[4] == ' ' && s[5] == b;
  }

  /** With three newlines after its first character a text is not free of
      triple newlines. */
  lemma TripleAfterFirst(t: string)
    requires 4 <= |t| && t[1] == '\n' && t[2] == '\n' && t[3] == '\n'
    ensures !NoTripleNewline(t)
  {
  }

  /** The heading-spacing passes run after the blank-line collapse, so the
      optimised content can hold three newlines in a row: a heading that
      already has a blank line before it, in the middle of the text, gets
      another newline, and the final strip does not reach it. */
  lemma SpacingAddsNewline(a: char, b: char)
    requires !IsSpace(a) && a != '#' && !IsSpace(b) && b != '#'
    ensures NoTripleNewline([a] + "\n\n# " + [b])
    ensures Optimized([a] + "\n\n# " + [b], []) == [a] + "\n\n\n# " + [b]
    ensures !NoTripleNewline(Optimized([a] + "\n\n# " + [b], []))
  {
    var s := [a] + "\n\n# " + [b];
    var t := [a] + "\n\n\n# " + [b];
    BlankBeforeHeadingNoTriple(a, b);
    CollapseBeforeHeading(a, b);
    SpaceBeforeHeading(a, b);
    AfterLastHeading(a, b);
    assert WithQuotesAtEnd(s, []) == s;
    assert IsStripped(t) by {
      assert t[0] == a && t[|t| - 1] == b;
    }
    StripStripped(t);
    TripleAfterFirst(t);
  }

  // ---------------------------------------------------------------------------
  // merge_edited_chunks and create_content_summary.

  /** The merged text with its headings and golden quotes. */
  datatype MergeResult = MergeResult(content: string, titles: seq<Title>, goldenQuotes: seq<string>)

  /** What merge_edited_chunks returns. */
  function MergedChunks(results: seq<EditResult>): MergeResult {
    if results == [] then MergeResult("", [], [])
    else if |results| == 1 then MergeResult(results[0].content, results[0].titles, results[0].goldenQuotes)
    else
      var quotes := Sift(NonBlank(AllQuotes(results)), QuoteClash);
      MergeResult(Optimized(MergedContent(results), quotes), Sift(AllTitles(results), TitleClash), quotes)
  }

  /** merge_edited_chunks. */
  method MergeEditedChunks(results: seq<EditResult>) returns (merged: MergeResult)
    ensures merged == MergedChunks(results)
    ensures results == [] ==> merged.content == [] && merged.titles == [] && merged.goldenQuotes == []
    ensures |results| == 1 ==>
      merged.content == results[0].content && merged.titles == results[0].titles && merged.goldenQuotes == results[0].goldenQuotes
  {
    if results == [] {
      return MergeResult("", [], []);
    }
    if |results| == 1 {
      return MergeResult(results[0].content, results[0].titles, results[0].goldenQuotes);
    }
    var content := MergeContent(results);
    var titles := MergeTitles(results);
    var quotes := MergeGoldenQuotes(results);
    var optimized := OptimizeMergedContent(content, quotes);
    merged := MergeResult(optimized, titles, quotes);
  }

  /** Merging two or more results keeps the visible characters of the joined
      parts, with the golden-quotes section moved behind them; titles and
      quotes are thinned out as MergedTitlesProperties and
      DeduplicatedQuotesProperties state. */
  lemma MergedChunksContent(results: seq<EditResult>)
    requires |results| >= 2
    ensures var m := MergedChunks(results);
      Visible(m.content) == Visible(WithQuotesAtEnd(MergedContent(results), m.goldenQuotes))
      && (m.goldenQuotes == [] ==> Visible(m.content) == Visible(Flatten(ContentParts(results))))
  {
    var quotes := Sift(NonBlank(AllQuotes(results)), QuoteClash);
    OptimizedVisible(MergedContent(results), quotes);
    MergedContentShape(results);
  }

  /** Before the layout passes, the merged text lists exactly the merged
      quotes in its golden-quotes section, when they are one line each. */
  lemma MergedChunksQuotesSection(results: seq<EditResult>)
    requires |results| >= 2
    requires forall q :: q in AllQuotes(results) ==> '\n' !in q
    ensures var quotes := MergedChunks(results).goldenQuotes;
      quotes != [] ==> GoldenQuotes(WithQuotesAtEnd(MergedContent(results), quotes)) == quotes
  {
    var all := AllQuotes(results);
    var quotes := Sift(NonBlank(all), QuoteClash);
    DeduplicatedQuotesProperties(all);
    KeptQuotesOneLine(all);
    if quotes != [] {
      QuotesSectionAtEnd(MergedContent(results), quotes);
    }
  }

  /** Quotes of one line each stay so through stripping and thinning out. */
  lemma KeptQuotesOneLine(all: seq<string>)
    requires forall q :: q in all ==> '\n' !in q
    ensures forall k :: 0 <= k < |Sift(NonBlank(all), QuoteClash)| ==> '\n' !in Sift(NonBlank(all), QuoteClash)[k]
  {
    var nb := NonBlank(all);
    var quotes := Sift(nb, QuoteClash);
    forall k | 0 <= k < |quotes|
      ensures '\n' !in quotes[k]
    {
      SiftMember(nb, QuoteClash, k);
      var j :| 0 <= j < |nb| && nb[j] == quotes[k];
      NonBlankFrom(all, j);
      var i :| 0 <= i < |all| && nb[j] == Strip(all[i]);
      StripFree(all[i], '\n');
    }
  }

  /** Every kept quote is the stripped form of an input quote. */
  lemma {:induction false} NonBlankFrom(quotes: seq<string>, j: nat)
    requires j < |NonBlank(quotes)|
    ensures exists i :: 0 <= i < |quotes| && NonBlank(quotes)[j] == Strip(quotes[i])
    decreases |quotes|
  {
    var n := |quotes| - 1;
    var init := NonBlank(quotes[..n]);
    if j < |init| {
      NonBlankFrom(quotes[..n], j);
      var i :| 0 <= i < n && init[j] == Strip(quotes[..n][i]);
      assert NonBlank(quotes)[j] == init[j];
      assert quotes[..n][i] == quotes[i];
    } else {
      assert NonBlank(quotes)[j] == Strip(quotes[n]);
    }
  }

  /** One line of the structure listing: two spaces per level below the
      first, a dash and the title. */
  function TitleLine(t: Title): string {
    Repeat("  ", t.level - 1) + "- " + t.title
  }

  function TitleLines(ts: seq<Title>): (r: seq<string>)
    ensures |r| == |ts| && forall i :: 0 <= i < |ts| ==> r[i] == TitleLine(ts[i])
  {
    seq(|ts|, i requires 0 <= i < |ts| => TitleLine(ts[i]))
  }

  /** The counts line of the summary. */
  function StatsLine(m: MergeResult): string {
    "📊 内容统计：" + IntToString(|m.content|) + " 字符，" + IntToString(|m.titles|)
    + " 个标题，" + IntToString(|m.goldenQuotes|) + " 个金句"
  }

  /** The structure block: at most ten titles and a line counting the rest. */
  function TitlesBlock(ts: seq<Title>): seq<string> {
    if ts == [] then []
    else
      ["\n📋 内容结构："] + TitleLines(ts[..if |ts| < 10 then |ts| else 10])
      + if |ts| > 10 then ["  ... 还有 " + IntToString(|ts| - 10) + " 个标题"] else []
  }

  /** The quotes block: at most three quotes and a line counting the rest. */
  function QuotesBlock(qs: seq<string>): seq<string> {
    if qs == [] then []
    else
      ["\n💎 精彩金句预览："] + DashLines(qs[..if |qs| < 3 then |qs| else 3])
      + if |qs| > 3 then ["- ... 还有 " + IntToString(|qs| - 3) + " 个金句"] else []
  }

  /** The lines create_content_summary joins. */
  function SummaryParts(m: MergeResult): seq<string> {
    [StatsLine(m)] + TitlesBlock(m.titles) + QuotesBlock(m.goldenQuotes)
  }

  /** What create_content_summary returns. */
  function ContentSummary(m: MergeResult): string {
    Join(SummaryParts(m), "\n")
  }

  /** create_content_summary: the lines appended one after the other. */
  method CreateContentSummary(m: MergeResult) returns (summary: string)
    ensures summary == ContentSummary(m)
  {
    var parts := [StatsLine(m)];
    var titleLines := AppendTitles(m.titles);
    parts := parts + titleLines;
    var quoteLines := AppendQuotes(m.goldenQuotes);
    parts := parts + quoteLines;
    summary := Join(parts, "\n");
  }

  /** The structure block of create_content_summary. */
  method AppendTitles(ts: seq<Title>) returns (lines: seq<string>)
    ensures lines == TitlesBlock(ts)
  {
    lines := [];
    if ts != [] {
      lines := ["\n📋 内容结构："];
      var shown := if |ts| < 10 then |ts| else 10;
      var i := 0;
      while i < shown
        invariant 0 <= i <= shown
        invariant lines == ["\n📋 内容结构："] + TitleLines(ts[..i])
      {
        lines := lines + [TitleLine(ts[i])];
        i := i + 1;
      }
      if |ts| > 10 {
        lines := lines + ["  ... 还有 " + IntToString(|ts| - 10) + " 个标题"];
      }
    }
  }

  /** The quotes block of create_content_summary. */
  method AppendQuotes(qs: seq<string>) returns (lines: seq<string>)
    ensures lines == QuotesBlock(qs)
  {
    lines := [];
    if qs != [] {
      lines := ["\n💎 精彩金句预览："];
      var shown := if |qs| < 3 then |qs| else 3;
      var i := 0;
      while i < shown
        invariant 0 <= i <= shown
        invariant lines == ["\n💎 精彩金句预览："] + DashLines(qs[..i])
      {
        lines := lines + ["- " + qs[i]];
        i := i + 1;
      }
      if |qs| > 3 {
        lines := lines + ["- ... 还有 " + IntToString(|qs| - 3) + " 个金句"];
      }
    }
  }

  /** The structure block lists the first ten titles, each as its line. */
  lemma TitlesBlockLayout(ts: seq<Title>)
    ensures |TitlesBlock(ts)| == if ts == [] then 0 else 1 + (if |ts| < 10 then |ts| else 10) + (if |ts| > 10 then 1 else 0)
    ensures forall i :: 0 <= i < |ts| && i < 10 ==> TitlesBlock(ts)[1 + i] == TitleLine(ts[i])
  {
  }

  /** The quotes block lists the first three quotes, each as its line. */
  lemma QuotesBlockLayout(qs: seq<string>)
    ensures |QuotesBlock(qs)| == if qs == [] then 0 else 1 + (if |qs| < 3 then |qs| else 3) + (if |qs| > 3 then 1 else 0)
    ensures forall i :: 0 <= i < |qs| && i < 3 ==> QuotesBlock(qs)[1 + i] == "- " + qs[i]
  {
  }

  /** The summary starts with the counts line, lists at most ten titles and
      three quotes, each as its line, and counts the ones it leaves out. */
  lemma SummaryLayout(m: MergeResult)
    ensures var ts := m.titles;
      var qs := m.goldenQuotes;
      var nt := if ts == [] then 0 else 1 + (if |ts| < 10 then |ts| else 10) + (if |ts| > 10 then 1 else 0);
      var nq := if qs == [] then 0 else 1 + (if |qs| < 3 then |qs| else 3) + (if |qs| > 3 then 1 else 0);
      var p := SummaryParts(m);
      |p| == 1 + nt + nq
      && p[0] == StatsLine(m)
      && (forall i :: 0 <= i < |ts| && i < 10 ==> p[2 + i] == TitleLine(ts[i]))
      && (forall i :: 0 <= i < |qs| && i < 3 ==> p[1 + nt + 1 + i] == "- " + qs[i])
  {
    var tb := TitlesBlock(m.titles);
    var qb := QuotesBlock(m.goldenQuotes);
    TitlesBlockLayout(m.titles);
    QuotesBlockLayout(m.goldenQuotes);
    ThreeBlocks(StatsLine(m), tb, qb);
  }

  lemma ThreeBlocks(head: string, tb: seq<string>, qb: seq<string>)
    ensures var p := [head] + tb + qb;
      |p| == 1 + |tb| + |qb| && p[0] == head
      && (forall i :: 0 <= i < |tb| ==> p[1 + i] == tb[i])
      && (forall i :: 0 <= i < |qb| ==> p[1 + |tb| + i] == qb[i])
  {
  }
}
