/** The Markdown shapes the editing and merging steps recognise with Python
    regular expressions, each written out as the `re` engine matches it:
    a heading line `^(#{1,3})\s+(.+)$`, a list item `^\s*[-*]\s+(.+)$`, and
    the golden-quotes heading `##\s*💎\s*精彩金句` with the section it opens.
    Greedy runs are followed by a character the run cannot hold, so the
    engine never has another way to match and each pattern is one scan. */
module Markdown {
  import opened Common
  import opened Strings
  import Segmenter

  /** A heading found in an edited text: how many `#` and its text. */
  datatype Title = Title(level: int, title: string)

  /** re.match(r'^(#{1,3})\s+(.+)$', s) on one line (split on '\n', so no
      newline inside): the heading level and the stripped heading text. */
  function HeadingMatch(s: string): Option<Title>
    requires '\n' !in s
  {
    var h := CharRun(s, '#');
    if 1 <= h <= 3 && h < |s| && IsSpace(s[h]) then
      var w := SpaceRun(s[h..]);
      if h + w < |s| then Some(Title(h, Strip(s[h + w..])))
      // `\s+` hands its last character back to `.+`
      else if w >= 2 then Some(Title(h, []))
      else None
    else None
  }

  /** A heading written as level `#`s, a space and a stripped text reads back
      as that level and that text. */
  lemma HeadingRoundTrip(level: int, t: string)
    requires 1 <= level <= 3 && t != [] && IsStripped(t) && '\n' !in t
    ensures '\n' !in Repeat("#", level) + " " + t
    ensures HeadingMatch(Repeat("#", level) + " " + t) == Some(Title(level, t))
  {
    var marks := Repeat("#", level);
    var s := marks + (" " + t);
    assert marks + " " + t == s;
    RepeatChar('#', level);
    assert '\n' !in marks;
    RunOfRepeat('#', level, " " + t);
    ConcatHalves(marks, " " + t);
    HeadingOfParts(s, level, t);
  }

  /** A line of h `#`s, one space and a stripped text is a heading. */
  lemma HeadingOfParts(s: string, h: nat, t: string)
    requires 1 <= h <= 3 && h < |s| && CharRun(s, '#') == h && s[h..] == " " + t
    requires t != [] && IsStripped(t) && '\n' !in t && '\n' !in s[..h]
    ensures '\n' !in s
    ensures HeadingMatch(s) == Some(Title(h, t))
  {
    assert s == s[..h] + s[h..];
    SpaceThenText(t);
    assert s[h] == ' ' && s[h + 1..] == t;
    StripStripped(t);
  }

  /** One space before a stripped text is a whitespace run of one. */
  lemma SpaceThenText(t: string)
    requires t != [] && !IsSpace(t[0])
    ensures SpaceRun(" " + t) == 1 && (" " + t)[1..] == t
  {
    assert (" " + t)[1..] == t;
  }

  /** The run of c at the start of c repeated n times and then a text that
      does not start with c is n long. */
  lemma RunOfRepeat(c: char, n: nat, rest: string)
    requires rest == [] || rest[0] != c
    ensures CharRun(Repeat([c], n) + rest, c) == n
  {
    var s := Repeat([c], n) + rest;
    RepeatChar(c, n);
    assert forall i :: 0 <= i < n ==> s[i] == c;
    assert n == |s| || s[n] != c;
  }

  /** s is a heading line for x: its level of `#`s, a non-empty run of
      whitespace and its title, which is non-empty and stripped. */
  predicate HeadingLayout(s: string, x: Title) {
    1 <= x.level <= 3 && x.title != [] && IsStripped(x.title)
    && x.level < |s| - |x.title|
    && s == Repeat("#", x.level) + s[x.level..|s| - |x.title|] + x.title
    && forall i :: x.level <= i < |s| - |x.title| ==> IsSpace(s[i])
  }

  /** Conversely, a stripped line that matches is laid out as a heading line
      for the title found. */
  lemma HeadingShape(s: string)
    requires '\n' !in s && IsStripped(s) && HeadingMatch(s).Some?
    ensures HeadingLayout(s, HeadingMatch(s).value)
  {
    var h := CharRun(s, '#');
    var w := SpaceRun(s[h..]);
    assert 1 <= w by {
      assert s[h..][0] == s[h];
    }
    assert h + w < |s|;
    var t := s[h + w..];
    assert IsStripped(t) by {
      SuffixLast(t, s);
    }
    StripStripped(t);
    assert HeadingMatch(s).value == Title(h, t);
    SpaceRunAt(s, h);
    LayoutOfRuns(s, h, w);
  }

  /** The whitespace run found at h lies at h in s. */
  lemma SpaceRunAt(s: string, h: nat)
    requires h <= |s|
    ensures forall i :: h <= i < h + SpaceRun(s[h..]) ==> IsSpace(s[i])
  {
    forall i | h <= i < h + SpaceRun(s[h..])
      ensures IsSpace(s[i])
    {
      assert s[i] == s[h..][i - h];
    }
  }

  /** A run of 1 to 3 `#`s, whitespace and a non-empty stripped rest lay out
      a heading line. */
  lemma LayoutOfRuns(s: string, h: nat, w: nat)
    requires 1 <= h <= 3 && 1 <= w && h + w < |s|
    requires forall i :: 0 <= i < h ==> s[i] == '#'
    requires forall i :: h <= i < h + w ==> IsSpace(s[i])
    requires IsStripped(s[h + w..])
    ensures HeadingLayout(s, Title(h, s[h + w..]))
  {
    RepeatChar('#', h);
    assert s[..h] == Repeat("#", h);
    ThreeSlices(s, h, h + w);
  }

  /** re.match(r'^\s*[-*]\s+(.+)$', s) on one line: the stripped item text. */
  function ListItemMatch(s: string): Option<string>
    requires '\n' !in s
  {
    var a := SpaceRun(s);
    if a + 1 < |s| && (s[a] == '-' || s[a] == '*') && IsSpace(s[a + 1]) then
      var w := SpaceRun(s[a + 1..]);
      if a + 1 + w < |s| then Some(Strip(s[a + 1 + w..]))
      else if w >= 2 then Some([])
      else None
    else None
  }

  /** A "- " line of a stripped text reads back as that text. */
  lemma ListItemRoundTrip(q: string)
    requires q != [] && IsStripped(q) && '\n' !in q
    ensures '\n' !in "- " + q
    ensures ListItemMatch("- " + q) == Some(q)
  {
    var s := "- " + q;
    assert SpaceRun(s) == 0;
    assert s[1..] == " " + q;
    assert SpaceRun(s[1..]) == 1 by {
      assert (" " + q)[1] == q[0];
    }
    assert s[2..] == q;
    StripStripped(q);
  }

  /** Conversely, a stripped line that is an item is a bullet, a non-empty
      run of whitespace and the item text, which is non-empty and stripped. */
  lemma ListItemShape(s: string)
    requires '\n' !in s && IsStripped(s) && ListItemMatch(s).Some?
    ensures var q := ListItemMatch(s).value;
      q != [] && IsStripped(q) && 1 < |s| - |q|
      && (s[0] == '-' || s[0] == '*') && s == [s[0]] + s[1..|s| - |q|] + q
      && forall i :: 1 <= i < |s| - |q| ==> IsSpace(s[i])
  {
    assert SpaceRun(s) == 0;
    var w := SpaceRun(s[1..]);
    assert 1 + w < |s|;
    var t := s[1 + w..];
    assert IsStripped(t);
    StripStripped(t);
    forall i | 1 <= i < 1 + w
      ensures IsSpace(s[i])
    {
      assert s[i] == s[1..][i - 1];
    }
    assert s == [s[0]] + s[1..1 + w] + t;
  }

  /** The words of the golden-quotes heading. */
  const QuotesWords: string := "精彩金句"

  /** The golden-quotes heading as the merging step writes it. */
  const QuotesHeading: string := "## 💎 精彩金句"

  /** The length of the match of `##\s*💎\s*精彩金句` at the start of s, or 0
      when the pattern does not match there. */
  function MarkerAt(s: string): (e: nat)
    ensures e == 0 || 7 <= e <= |s|
  {
    if |s| >= 2 && s[0] == '#' && s[1] == '#' then
      var g := GemLength(s[2..]);
      if g > 0 then 2 + g else 0
    else 0
  }

  /** The length of the match of `\s*💎\s*精彩金句` at the start of t, or 0.
      '💎' is not whitespace, so `\s*` must take every leading space. */
  function GemLength(t: string): (g: nat)
    ensures g == 0 || 5 <= g <= |t|
    decreases |t|
  {
    if t == [] then 0
    else if IsSpace(t[0]) then
      var g := GemLength(t[1..]);
      if g > 0 then g + 1 else 0
    else if t[0] == '💎' then
      var k := WordsLength(t[1..]);
      if k > 0 then k + 1 else 0
    else 0
  }

  /** The length of the match of `\s*精彩金句` at the start of t, or 0. */
  function WordsLength(t: string): (k: nat)
    ensures k == 0 || 4 <= k <= |t|
    decreases |t|
  {
    if t == [] then 0
    else if IsSpace(t[0]) then
      var k := WordsLength(t[1..]);
      if k > 0 then k + 1 else 0
    else if IsPrefix(QuotesWords, t) then |QuotesWords|
    else 0
  }

  /** The end of the lazy `.*?(?=\n##|\Z)` that starts at q: the first
      position from q on where "\n##" begins, or the end of the text. */
  function SectionEnd(s: string, q: nat): (j: nat)
    requires q <= |s|
    ensures q <= j <= |s|
    ensures j == |s| || IsPrefix("\n##", s[j..])
    ensures forall i :: q <= i < j ==> !IsPrefix("\n##", s[i..])
    decreases |s| - q
  {
    if q == |s| || IsPrefix("\n##", s[q..]) then q else SectionEnd(s, q + 1)
  }

  /** re.search(r'##\s*💎\s*精彩金句\s*\n(.*?)(?=\n##|\Z)', s, re.DOTALL):
      the text of group 1 at the leftmost position where the pattern
      matches. `\s*\n` ends at the last newline of the whitespace run that
      follows the heading, and the group runs to the next "\n##". */
  function GoldenSection(s: string): Option<string>
    decreases |s|
  {
    if s == [] then None
    else
      var e := MarkerAt(s);
      var n := if e > 0 then Segmenter.LastNewline(s, e + SpaceRun(s[e..])) else -1;
      if e > 0 && n >= e then Some(s[n + 1..SectionEnd(s, n + 1)])
      else GoldenSection(s[1..])
  }

  /** The item on one line of a golden-quotes section, if it is one. */
  function LineItem(line: string): seq<string>
    requires '\n' !in line
  {
    StripFree(line, '\n');
    var item := ListItemMatch(Strip(line));
    if item.Some? then [item.value] else []
  }

  /** The list items among the lines of a golden-quotes section. */
  function QuoteItems(lines: seq<string>): (r: seq<string>)
    requires forall i :: 0 <= i < |lines| ==> '\n' !in lines[i]
    ensures |r| <= |lines|
    decreases |lines|
  {
    if lines == [] then [] else LineItem(lines[0]) + QuoteItems(lines[1..])
  }

  /** The golden quotes of an edited text: the items of its section. */
  function GoldenQuotes(s: string): seq<string> {
    match GoldenSection(s)
    case None => []
    case Some(body) => QuoteItems(Split(body, '\n'))
  }

  /** re.sub(r'##\s*💎\s*精彩金句.*?(?=\n##|\Z)', '', s, flags=re.DOTALL):
      every golden-quotes section found scanning left to right is cut out,
      from its heading up to the next "\n##" or the end of the text. */
  function RemoveSections(s: string): string
    decreases |s|
  {
    if s == [] then []
    else
      var e := MarkerAt(s);
      if e > 0 then RemoveSections(s[SectionEnd(s, e)..])
      else [s[0]] + RemoveSections(s[1..])
  }
  /** No golden-quotes heading starts anywhere in r. */
  predicate NoMarker(r: string) {
    forall i :: 0 <= i < |r| ==> MarkerAt(r[i..]) == 0
  }

  /** After a removed section the text resumes with whitespace that runs
      up to a '#' or to the end of the text. */
  predicate Resumes(w: string) {
    w == [] || (IsSpace(w[0]) && AfterRun(w[1..]))
  }

  predicate AfterRun(w: string)
    decreases |w|
  {
    w == [] || w[0] == '#' || (IsSpace(w[0]) && AfterRun(w[1..]))
  }

  /** Whitespace up to a '#' holds no rest of a heading. */
  lemma {:induction false} NoGemAfterRun(w: string)
    requires AfterRun(w)
    ensures GemLength(w) == 0 && WordsLength(w) == 0
    decreases |w|
  {
    if w != [] && w[0] != '#' {
      NoGemAfterRun(w[1..]);
    }
  }

  /** A heading match that ends inside a is unchanged by text after a. */
  lemma MarkerExtend(a: string, z: string)
    requires MarkerAt(a) > 0
    ensures MarkerAt(a + z) == MarkerAt(a)
  {
    assert (a + z)[2..] == a[2..] + z;
    GemExtend(a[2..], z);
  }

  lemma {:induction false} GemExtend(t: string, z: string)
    requires GemLength(t) > 0
    ensures GemLength(t + z) == GemLength(t)
    decreases |t|
  {
    assert (t + z)[1..] == t[1..] + z;
    if IsSpace(t[0]) {
      GemExtend(t[1..], z);
    } else {
      WordsExtend(t[1..], z);
    }
  }

  lemma {:induction false} WordsExtend(t: string, z: string)
    requires WordsLength(t) > 0
    ensures WordsLength(t + z) == WordsLength(t)
    decreases |t|
  {
    assert (t + z)[1..] == t[1..] + z;
    if IsSpace(t[0]) {
      WordsExtend(t[1..], z);
    } else {
      assert (t + z)[..|QuotesWords|] == t[..|QuotesWords|];
    }
  }

  /** Whitespace running up to '#' cannot complete a heading begun before
      it: the heading needs '💎' or `精` where the run ends. */
  lemma MarkerResume(a: string, w: string)
    requires a != [] && MarkerAt(a) == 0 && Resumes(w)
    ensures MarkerAt(a + w) == 0
  {
    if w == [] {
      assert a + w == a;
    } else if |a| >= 2 && a[0] == '#' && a[1] == '#' {
      assert (a + w)[2..] == a[2..] + w;
      GemResume(a[2..], w);
    }
  }

  lemma {:induction false} GemResume(t: string, w: string)
    requires GemLength(t) == 0 && Resumes(w) && w != []
    ensures GemLength(t + w) == 0
    decreases |t|
  {
    if t == [] {
      assert t + w == w;
      NoGemAfterRun(w);
    } else {
      assert (t + w)[1..] == t[1..] + w;
      if IsSpace(t[0]) {
        GemResume(t[1..], w);
      } else if t[0] == '💎' {
        WordsResume(t[1..], w);
      }
    }
  }

  lemma {:induction false} WordsResume(t: string, w: string)
    requires WordsLength(t) == 0 && Resumes(w) && w != []
    ensures WordsLength(t + w) == 0
    decreases |t|
  {
    if t == [] {
      assert t + w == w;
      NoGemAfterRun(w);
    } else {
      assert (t + w)[1..] == t[1..] + w;
      if IsSpace(t[0]) {
        WordsResume(t[1..], w);
      } else if |t| >= |QuotesWords| {
        assert (t + w)[..|QuotesWords|] == t[..|QuotesWords|];
      } else {
        assert (t + w)[|t|] == w[0];
        assert !IsSpace(QuotesWords[|t|]);
      }
    }
  }

  /** What the removal leaves of a text that starts at "\n##" resumes. */
  lemma {:induction false} RemoveSectionsResumes(t: string)
    requires t == [] || IsPrefix("\n##", t)
    ensures Resumes(RemoveSections(t))
    decreases |t|
  {
    if t != [] {
      assert MarkerAt(t) == 0;
      var u := t[1..];
      var rest := RemoveSections(u);
      if MarkerAt(u) > 0 {
        var j := SectionEnd(u, MarkerAt(u));
        RemoveSectionsResumes(u[j..]);
      } else {
        assert rest == ['#'] + RemoveSections(u[1..]);
      }
      assert RemoveSections(t) == ['\n'] + rest;
      assert (['\n'] + rest)[1..] == rest;
    }
  }

  /** The removal keeps the text up to the first section it cuts out and
      then resumes. */
  lemma {:induction false} RemoveSectionsSplit(t: string) returns (m: nat, w: string)
    ensures m <= |t| && RemoveSections(t) == t[..m] + w && Resumes(w)
    decreases |t|
  {
    if t == [] {
      m, w := 0, [];
    } else if MarkerAt(t) > 0 {
      var j := SectionEnd(t, MarkerAt(t));
      RemoveSectionsResumes(t[j..]);
      m, w := 0, RemoveSections(t[j..]);
    } else {
      var m', w' := RemoveSectionsSplit(t[1..]);
      m, w := m' + 1, w';
      TakeCons(t, m');
    }
  }

  /** No golden-quotes heading is left after the removal. */
  lemma {:induction false} RemoveSectionsClean(s: string)
    ensures NoMarker(RemoveSections(s))
    decreases |s|
  {
    if s != [] {
      var e := MarkerAt(s);
      if e > 0 {
        RemoveSectionsClean(s[SectionEnd(s, e)..]);
      } else {
        RemoveSectionsClean(s[1..]);
        KeptHeadClean(s);
        var rest := RemoveSections(s[1..]);
        var r := [s[0]] + rest;
        forall i | 1 <= i < |r|
          ensures MarkerAt(r[i..]) == 0
        {
          assert r[i..] == rest[i - 1..];
        }
      }
    }
  }

  /** When no heading starts at the first character, none starts there after
      the rest of the text has had its sections removed. */
  lemma KeptHeadClean(s: string)
    requires s != [] && MarkerAt(s) == 0
    ensures MarkerAt([s[0]] + RemoveSections(s[1..])) == 0
  {
    var m, w := RemoveSectionsSplit(s[1..]);
    TakeCons(s, m);
    HeadClean(s[0], s[1..][..m], s[m + 1..], w, RemoveSections(s[1..]));
  }

  /** A heading neither fits inside x + p nor reaches from it into a resumed
      w. */
  lemma HeadClean(x: char, p: string, z: string, w: string, r: string)
    requires MarkerAt([x] + p + z) == 0 && Resumes(w) && r == p + w
    ensures MarkerAt([x] + r) == 0
  {
    var a := [x] + p;
    assert [x] + r == a + w;
    MarkerPrefix(a, z);
    MarkerResume(a, w);
  }

  /** No heading at the start of a + z means none at the start of a. */
  lemma MarkerPrefix(a: string, z: string)
    requires MarkerAt(a + z) == 0
    ensures MarkerAt(a) == 0
  {
    if MarkerAt(a) > 0 {
      MarkerExtend(a, z);
    }
  }

  /** A text without a golden-quotes heading is left as it is. */
  lemma {:induction false} RemoveSectionsKeeps(s: string)
    requires NoMarker(s)
    ensures RemoveSections(s) == s
    decreases |s|
  {
    if s != [] {
      assert MarkerAt(s[0..]) == 0 && s[0..] == s;
      forall i | 0 <= i < |s| - 1
        ensures MarkerAt(s[1..][i..]) == 0
      {
        assert s[1..][i..] == s[i + 1..];
      }
      RemoveSectionsKeeps(s[1..]);
    }
  }

  /** Removing the sections twice removes nothing more. */
  lemma RemoveSectionsIdempotent(s: string)
    ensures RemoveSections(RemoveSections(s)) == RemoveSections(s)
  {
    RemoveSectionsClean(s);
    RemoveSectionsKeeps(RemoveSections(s));
  }
  /** The quotes as the merging step lists them under its heading. */
  function QuoteLines(qs: seq<string>): string
    decreases |qs|
  {
    if qs == [] then [] else "- " + qs[0] + "\n" + QuoteLines(qs[1..])
  }

  /** Quotes the list can hold: non-empty, stripped, one line each. */
  predicate ListableQuotes(qs: seq<string>) {
    forall k :: 0 <= k < |qs| ==> qs[k] != [] && IsStripped(qs[k]) && '\n' !in qs[k]
  }

  /** Leading text with no heading in it does not change what the search
      finds. */
  lemma {:induction false} GoldenSectionSkip(x: string, y: string)
    requires forall i :: 0 <= i < |x| ==> MarkerAt((x + y)[i..]) == 0
    ensures GoldenSection(x + y) == GoldenSection(y)
    decreases |x|
  {
    if x == [] {
      assert x + y == y;
    } else {
      assert MarkerAt((x + y)[0..]) == 0 && (x + y)[0..] == x + y;
      assert (x + y)[1..] == x[1..] + y;
      forall i | 0 <= i < |x| - 1
        ensures MarkerAt((x[1..] + y)[i..]) == 0
      {
        assert (x[1..] + y)[i..] == (x + y)[i + 1..];
      }
      GoldenSectionSkip(x[1..], y);
    }
  }

  /** The written heading matches in full. */
  lemma MarkerOfHeading(z: string)
    ensures MarkerAt(QuotesHeading + z) == |QuotesHeading|
  {
    var s := QuotesHeading + z;
    assert s[2..] == " 💎 精彩金句" + z;
    assert s[2..][1..] == "💎 精彩金句" + z;
    assert s[2..][2..] == " 精彩金句" + z;
    assert s[2..][3..] == "精彩金句" + z;
    assert IsPrefix(QuotesWords, s[2..][3..]);
    assert WordsLength(s[2..][2..]) == 5;
    assert GemLength(s[2..][1..]) == 6;
  }

  /** The list never holds "\n" followed by '#': every line starts "- ". */
  lemma {:induction false} QuoteLinesNoHeading(qs: seq<string>, i: nat)
    requires ListableQuotes(qs) && i < |QuoteLines(qs)|
    ensures !IsPrefix("\n##", QuoteLines(qs)[i..])
    decreases |qs|
  {
    var line := "- " + qs[0] + "\n";
    assert QuoteLines(qs) == line + QuoteLines(qs[1..]);
    if i >= |line| {
      assert QuoteLines(qs)[i..] == QuoteLines(qs[1..])[i - |line|..];
      QuoteLinesNoHeading(qs[1..], i - |line|);
    } else if i < |line| - 1 {
      assert QuoteLines(qs)[i] == line[i] != '\n';
    } else if qs[1..] != [] {
      assert QuoteLines(qs)[i + 1] == '-';
    }
  }

  /** A list written after the heading and a newline is found by the search. */
  lemma GoldenSectionOfHeading(qs: seq<string>)
    requires qs != [] && ListableQuotes(qs)
    ensures GoldenSection(QuotesHeading + "\n" + QuoteLines(qs)) == Some(QuoteLines(qs))
  {
    var body := QuoteLines(qs);
    var y := QuotesHeading + "\n" + body;
    var e := |QuotesHeading|;
    MarkerOfHeading("\n" + body);
    assert y == QuotesHeading + ("\n" + body);
    assert body[0] == '-';
    NewlineBeforeText(QuotesHeading, body);
    SectionEndOfList(qs, QuotesHeading + "\n");
    GoldenAfterMarker(y, e);
  }

  /** A single newline between h and a text that starts visibly. */
  lemma NewlineBeforeText(h: string, body: string)
    requires body != [] && !IsSpace(body[0])
    ensures (h + "\n" + body)[|h|] == '\n'
    ensures SpaceRun((h + "\n" + body)[|h|..]) == 1
    ensures (h + "\n" + body)[|h| + 1..] == body
  {
    var y := h + "\n" + body;
    assert y[|h|..] == "\n" + body;
    assert y[|h|..][1..] == body;
  }

  /** A marker ending right before one newline opens a section that runs to
      SectionEnd. */
  lemma GoldenAfterMarker(y: string, e: nat)
    requires e > 0 && MarkerAt(y) == e && e < |y| && y[e] == '\n' && SpaceRun(y[e..]) == 1
    requires SectionEnd(y, e + 1) == |y|
    ensures GoldenSection(y) == Some(y[e + 1..])
  {
    assert y != [];
    assert e + SpaceRun(y[e..]) == e + 1;
    assert Segmenter.LastNewline(y, e + 1) == e;
    assert y[e + 1..SectionEnd(y, e + 1)] == y[e + 1..];
  }

  /** Nothing after the heading ends the section before the end. */
  lemma SectionEndOfList(qs: seq<string>, h: string)
    requires ListableQuotes(qs)
    ensures SectionEnd(h + QuoteLines(qs), |h|) == |h + QuoteLines(qs)|
  {
    var y := h + QuoteLines(qs);
    forall i | |h| <= i < |y|
      ensures !IsPrefix("\n##", y[i..])
    {
      assert y[i..] == QuoteLines(qs)[i - |h|..];
      QuoteLinesNoHeading(qs, i - |h|);
    }
    SectionEndAtEnd(y, |h|);
  }

  lemma {:induction false} SectionEndAtEnd(s: string, q: nat)
    requires q <= |s| && forall i :: q <= i < |s| ==> !IsPrefix("\n##", s[i..])
    ensures SectionEnd(s, q) == |s|
    decreases |s| - q
  {
    if q < |s| {
      SectionEndAtEnd(s, q + 1);
    }
  }

  /** Reading the items back gives the quotes that were written. */
  lemma {:induction false} QuoteItemsOfLines(qs: seq<string>)
    requires ListableQuotes(qs)
    ensures QuoteItems(Split(QuoteLines(qs), '\n')) == qs
    decreases |qs|
  {
    if qs == [] {
      NoQuoteLines();
    } else {
      ListableHead(qs);
      QuoteItemsOfLines(qs[1..]);
      QuoteLinesSplit(qs);
      QuoteItemOfLine(qs[0], Split(QuoteLines(qs[1..]), '\n'));
      assert [qs[0]] + qs[1..] == qs;
    }
  }

  /** An empty listing holds no items. */
  lemma NoQuoteLines()
    ensures QuoteItems(Split(QuoteLines([]), '\n')) == []
  {
    assert Split([], '\n') == [[]];
    assert ListItemMatch(Strip([])) == None;
  }

  lemma ListableHead(qs: seq<string>)
    requires qs != [] && ListableQuotes(qs)
    ensures qs[0] != [] && IsStripped(qs[0]) && '\n' !in qs[0]
    ensures ListableQuotes(qs[1..])
  {
    forall k | 0 <= k < |qs| - 1
      ensures qs[1..][k] != [] && IsStripped(qs[1..][k]) && '\n' !in qs[1..][k]
    {
      assert qs[1..][k] == qs[k + 1];
    }
  }

  /** The listing splits into its first line and the lines of the rest. */
  lemma QuoteLinesSplit(qs: seq<string>)
    requires qs != [] && '\n' !in qs[0]
    ensures Split(QuoteLines(qs), '\n') == ["- " + qs[0]] + Split(QuoteLines(qs[1..]), '\n')
  {
    var item := "- " + qs[0];
    assert QuoteLines(qs) == item + ['\n'] + QuoteLines(qs[1..]);
    SplitPrefix(item, QuoteLines(qs[1..]), '\n');
  }

  lemma QuoteItemOfLine(q: string, rest: seq<string>)
    requires q != [] && IsStripped(q) && '\n' !in q
    requires forall i :: 0 <= i < |rest| ==> '\n' !in rest[i]
    ensures QuoteItems(["- " + q] + rest) == [q] + QuoteItems(rest)
  {
    LineItemOfQuote(q);
    QuoteItemsCons("- " + q, rest);
  }

  /** The "- " line of a quote holds that quote as its item. */
  lemma LineItemOfQuote(q: string)
    requires q != [] && IsStripped(q) && '\n' !in q
    ensures '\n' !in "- " + q && LineItem("- " + q) == [q]
  {
    var item := "- " + q;
    ListItemRoundTrip(q);
    assert IsStripped(item);
    StripStripped(item);
  }

  /** The items of a line before more lines come first. */
  lemma QuoteItemsCons(x: string, rest: seq<string>)
    requires '\n' !in x && forall i :: 0 <= i < |rest| ==> '\n' !in rest[i]
    ensures QuoteItems([x] + rest) == LineItem(x) + QuoteItems(rest)
  {
    assert ([x] + rest)[1..] == rest;
  }

  /** A heading that starts inside a prefix of r would start in r. */
  lemma NoMarkerPrefix(r: string, k: nat)
    requires NoMarker(r) && k <= |r|
    ensures NoMarker(r[..k])
  {
    forall i | 0 <= i < k
      ensures MarkerAt(r[..k][i..]) == 0
    {
      assert r[i..] == r[..k][i..] + r[k..];
      MarkerPrefix(r[..k][i..], r[k..]);
    }
  }

  /** A golden-quotes section appended after a text without one, behind a
      blank line, is the one the search finds, and its items are the
      quotes. */
  lemma GoldenQuotesAppended(t: string, qs: seq<string>)
    requires NoMarker(t) && qs != [] && ListableQuotes(qs)
    ensures GoldenQuotes(t + "\n\n" + QuotesHeading + "\n" + QuoteLines(qs)) == qs
  {
    var y := QuotesHeading + "\n" + QuoteLines(qs);
    var x := t + "\n\n";
    assert t + "\n\n" + QuotesHeading + "\n" + QuoteLines(qs) == x + y;
    NoMarkerBeforeHeading(t, y);
    GoldenSectionSkip(x, y);
    GoldenSectionOfHeading(qs);
    QuoteItemsOfLines(qs);
  }

  /** A clean text and the blank line after it start no section of their own
      when a heading line follows. */
  lemma NoMarkerBeforeHeading(t: string, y: string)
    requires NoMarker(t) && y != [] && y[0] == '#'
    ensures forall i | 0 <= i < |t + "\n\n"| :: MarkerAt((t + "\n\n" + y)[i..]) == 0
  {
    var x := t + "\n\n";
    assert Resumes("\n\n" + y) by {
      assert ("\n\n" + y)[1..] == "\n" + y;
      assert ("\n" + y)[1..] == y;
    }
    forall i | 0 <= i < |x|
      ensures MarkerAt((x + y)[i..]) == 0
    {
      if i < |t| {
        assert (x + y)[i..] == t[i..] + ("\n\n" + y);
        MarkerResume(t[i..], "\n\n" + y);
      } else {
        assert (x + y)[i] == '\n';
      }
    }
  }
}
