/** The whitespace normalisation both splitters apply before cutting a text
    into paragraphs (`_clean_text`), and the blank-line collapse the mergers
    reuse. Each `re.sub` of the chain is one recursive function that walks the
    text left to right the way Python's `re` finds non-overlapping matches. */
module Whitespace {
  import opened Strings

  /** No two consecutive spaces. */
  predicate NoDoubleSpace(s: string) {
    forall i :: 0 <= i < |s| - 1 ==> !(s[i] == ' ' && s[i + 1] == ' ')
  }

  /** No run of three newlines. */
  predicate NoTripleNewline(s: string) {
    forall i :: 0 <= i < |s| - 2 ==> !(s[i] == '\n' && s[i + 1] == '\n' && s[i + 2] == '\n')
  }

  /** re.sub(r'\r\n', '\n', s) */
  function ReplaceCrLf(s: string): string
    decreases |s|
  {
    if s == [] then []
    else if |s| >= 2 && s[0] == '\r' && s[1] == '\n' then "\n" + ReplaceCrLf(s[2..])
    else [s[0]] + ReplaceCrLf(s[1..])
  }

  /** re.sub(r'\r', '\n', s) */
  function ReplaceCr(s: string): string
    decreases |s|
  {
    if s == [] then [] else [if s[0] == '\r' then '\n' else s[0]] + ReplaceCr(s[1..])
  }

  /** re.sub(r'[ \t]+', ' ', s): every maximal run of blanks becomes one space. */
  function SqueezeBlanks(s: string): (r: string)
    ensures s == [] ==> r == []
    ensures s != [] ==> r != [] && (r[0] == ' ' <==> IsBlank(s[0]))
    decreases |s|
  {
    if s == [] then []
    else if IsBlank(s[0]) then " " + SqueezeBlanks(s[BlankRun(s)..])
    else [s[0]] + SqueezeBlanks(s[1..])
  }

  /** re.sub(r'\n[ \t]+', '\n', s): the blanks that open a line are dropped. */
  function DropLineIndent(s: string): (r: string)
    ensures s == [] ==> r == []
    ensures s != [] ==> r != [] && r[0] == s[0]
    decreases |s|
  {
    if s == [] then []
    else if s[0] == '\n' then "\n" + DropLineIndent(s[1 + BlankRun(s[1..])..])
    else [s[0]] + DropLineIndent(s[1..])
  }

  /** re.sub(r'[ \t]+\n', '\n', s): a run of blanks that ends a line is dropped;
      a run not followed by a newline is no match and stays. */
  function DropLineTrail(s: string): (r: string)
    ensures s == [] ==> r == []
    ensures s != [] ==> r != [] && (r[0] == s[0] || (IsBlank(s[0]) && r[0] == '\n'))
    decreases |s|
  {
    if s == [] then []
    else if IsBlank(s[0]) && BlankRun(s) < |s| && s[BlankRun(s)] == '\n' then
      "\n" + DropLineTrail(s[BlankRun(s) + 1..])
    else [s[0]] + DropLineTrail(s[1..])
  }

  /** re.sub(r'\n{3,}', '\n\n', s): a run of three or more newlines becomes two. */
  function CollapseNewlines(s: string): (r: string)
    ensures s == [] ==> r == []
    ensures s != [] ==> r != [] && r[0] == s[0]
    decreases |s|
  {
    if s == [] then []
    else if s[0] == '\n' then
      var k := CharRun(s, '\n');
      (if k >= 3 then "\n\n" else s[..k]) + CollapseNewlines(s[k..])
    else [s[0]] + CollapseNewlines(s[1..])
  }

  /** `_clean_text` (text_processor.py and chunking_processor.py alike). */
  function CleanText(s: string): string {
    Strip(CollapseNewlines(DropLineTrail(DropLineIndent(SqueezeBlanks(ReplaceCr(ReplaceCrLf(s)))))))
  }

  // ---------------------------------------------------------------------------
  // Which characters each step can produce.

  lemma {:induction false} CrLfChars(s: string)
    ensures forall c :: c in ReplaceCrLf(s) ==> c in s
    decreases |s|
  {
    if |s| >= 2 && s[0] == '\r' && s[1] == '\n' {
      CrLfChars(s[2..]);
    } else if s != [] {
      CrLfChars(s[1..]);
    }
  }

  lemma {:induction false} CrChars(s: string)
    ensures forall c :: c in ReplaceCr(s) ==> c != '\r' && (c in s || c == '\n')
    decreases |s|
  {
    if s != [] {
      CrChars(s[1..]);
    }
  }

  lemma {:induction false} SqueezeChars(s: string)
    ensures forall c :: c in SqueezeBlanks(s) ==> c != '\t' && (c in s || c == ' ')
    decreases |s|
  {
    if s != [] {
      if IsBlank(s[0]) {
        SqueezeChars(s[BlankRun(s)..]);
      } else {
        SqueezeChars(s[1..]);
      }
    }
  }

  lemma {:induction false} IndentChars(s: string)
    ensures forall c :: c in DropLineIndent(s) ==> c in s
    decreases |s|
  {
    if s != [] {
      if s[0] == '\n' {
        IndentChars(s[1 + BlankRun(s[1..])..]);
      } else {
        IndentChars(s[1..]);
      }
    }
  }

  lemma {:induction false} TrailChars(s: string)
    ensures forall c :: c in DropLineTrail(s) ==> c in s
    decreases |s|
  {
    if s != [] {
      if IsBlank(s[0]) && BlankRun(s) < |s| && s[BlankRun(s)] == '\n' {
        TrailChars(s[BlankRun(s) + 1..]);
      } else {
        TrailChars(s[1..]);
      }
    }
  }

  lemma {:induction false} CollapseChars(s: string)
    ensures forall c :: c in CollapseNewlines(s) ==> c in s
    decreases |s|
  {
    if s != [] {
      if s[0] == '\n' {
        CollapseChars(s[CharRun(s, '\n')..]);
      } else {
        CollapseChars(s[1..]);
      }
    }
  }

  lemma StripChars(s: string)
    ensures forall c :: c in Strip(s) ==> c in s
  {
    var a, b := StripIsSlice(s);
  }

  // ---------------------------------------------------------------------------
  // Each step only ever rewrites whitespace.

  lemma {:induction false} VisibleCrLf(s: string)
    ensures Visible(ReplaceCrLf(s)) == Visible(s)
    decreases |s|
  {
    if s != [] {
      if |s| >= 2 && s[0] == '\r' && s[1] == '\n' {
        VisibleCrLf(s[2..]);
        VisibleConcat("\n", ReplaceCrLf(s[2..]));
        VisibleChar('\n');
        assert s == "\r\n" + s[2..];
        VisibleConcat("\r\n", s[2..]);
        VisibleOfSpaces("\r\n");
      } else {
        VisibleCrLf(s[1..]);
        VisibleConcat([s[0]], ReplaceCrLf(s[1..]));
      }
    }
  }

  lemma {:induction false} VisibleCr(s: string)
    ensures Visible(ReplaceCr(s)) == Visible(s)
    decreases |s|
  {
    if s != [] {
      VisibleCr(s[1..]);
      var x := if s[0] == '\r' then '\n' else s[0];
      VisibleConcat([x], ReplaceCr(s[1..]));
      VisibleChar(x);
    }
  }

  /** Dropping a leading run of whitespace leaves the visible text unchanged. */
  lemma VisibleDropSpaces(s: string, k: nat)
    requires k <= |s|
    requires forall i :: 0 <= i < k ==> IsSpace(s[i])
    ensures Visible(s[k..]) == Visible(s)
  {
    assert s == s[..k] + s[k..];
    VisibleConcat(s[..k], s[k..]);
    VisibleOfSpaces(s[..k]);
  }

  lemma {:induction false} VisibleSqueeze(s: string)
    ensures Visible(SqueezeBlanks(s)) == Visible(s)
    decreases |s|
  {
    if s != [] {
      if IsBlank(s[0]) {
        var k := BlankRun(s);
        VisibleSqueeze(s[k..]);
        VisibleConcat(" ", SqueezeBlanks(s[k..]));
        VisibleChar(' ');
        VisibleDropSpaces(s, k);
      } else {
        VisibleSqueeze(s[1..]);
        VisibleConcat([s[0]], SqueezeBlanks(s[1..]));
      }
    }
  }

  lemma {:induction false} VisibleIndent(s: string)
    ensures Visible(DropLineIndent(s)) == Visible(s)
    decreases |s|
  {
    if s != [] {
      if s[0] == '\n' {
        var k := 1 + BlankRun(s[1..]);
        VisibleIndent(s[k..]);
        VisibleConcat("\n", DropLineIndent(s[k..]));
        VisibleChar('\n');
        VisibleDropSpaces(s, k);
      } else {
        VisibleIndent(s[1..]);
        VisibleConcat([s[0]], DropLineIndent(s[1..]));
      }
    }
  }

  lemma {:induction false} VisibleTrail(s: string)
    ensures Visible(DropLineTrail(s)) == Visible(s)
    decreases |s|
  {
    if s != [] {
      if IsBlank(s[0]) && BlankRun(s) < |s| && s[BlankRun(s)] == '\n' {
        var k := BlankRun(s) + 1;
        VisibleTrail(s[k..]);
        VisibleConcat("\n", DropLineTrail(s[k..]));
        VisibleChar('\n');
        VisibleDropSpaces(s, k);
      } else {
        VisibleTrail(s[1..]);
        VisibleConcat([s[0]], DropLineTrail(s[1..]));
      }
    }
  }

  lemma {:induction false} VisibleCollapse(s: string)
    ensures Visible(CollapseNewlines(s)) == Visible(s)
    decreases |s|
  {
    if s != [] {
      if s[0] == '\n' {
        var k := CharRun(s, '\n');
        var piece := if k >= 3 then "\n\n" else s[..k];
        VisibleCollapse(s[k..]);
        VisibleConcat(piece, CollapseNewlines(s[k..]));
        VisibleOfSpaces(piece);
        VisibleDropSpaces(s, k);
      } else {
        VisibleCollapse(s[1..]);
        VisibleConcat([s[0]], CollapseNewlines(s[1..]));
      }
    }
  }

  // ---------------------------------------------------------------------------
  // The shape each step leaves behind.

  lemma {:induction false} SqueezeNoDoubleSpace(s: string)
    ensures NoDoubleSpace(SqueezeBlanks(s))
    decreases |s|
  {
    if s != [] {
      if IsBlank(s[0]) {
        SqueezeNoDoubleSpace(s[BlankRun(s)..]);
      } else {
        SqueezeNoDoubleSpace(s[1..]);
      }
    }
  }

  /** A tail of a text without two spaces in a row has none either. */
  lemma NoDoubleSpaceSuffix(s: string, k: nat)
    requires NoDoubleSpace(s) && k <= |s|
    ensures NoDoubleSpace(s[k..])
  {
    forall i | 0 <= i < |s[k..]| - 1
      ensures !(s[k..][i] == ' ' && s[k..][i + 1] == ' ')
    {
      assert s[k..][i] == s[k + i] && s[k..][i + 1] == s[k + i + 1];
    }
  }

  /** Two texts without two spaces in a row, not both a space at the seam. */
  lemma NoDoubleSpaceAppend(a: string, b: string)
    requires NoDoubleSpace(a) && NoDoubleSpace(b)
    requires a == [] || b == [] || a[|a| - 1] != ' ' || b[0] != ' '
    ensures NoDoubleSpace(a + b)
  {
    var r := a + b;
    forall i | 0 <= i < |r| - 1
      ensures !(r[i] == ' ' && r[i + 1] == ' ')
    {
      if i + 1 < |a| {
        assert r[i] == a[i] && r[i + 1] == a[i + 1];
      } else if i >= |a| {
        assert r[i] == b[i - |a|] && r[i + 1] == b[i + 1 - |a|];
      }
    }
  }

  lemma {:induction false} IndentKeepsNoDoubleSpace(s: string)
    requires NoDoubleSpace(s)
    ensures NoDoubleSpace(DropLineIndent(s))
    decreases |s|
  {
    if s != [] {
      if s[0] == '\n' {
        var k := 1 + BlankRun(s[1..]);
        NoDoubleSpaceSuffix(s, k);
        IndentKeepsNoDoubleSpace(s[k..]);
        NoDoubleSpaceAppend("\n", DropLineIndent(s[k..]));
      } else {
        NoDoubleSpaceSuffix(s, 1);
        IndentKeepsNoDoubleSpace(s[1..]);
        NoDoubleSpaceAppend([s[0]], DropLineIndent(s[1..]));
      }
    }
  }

  lemma {:induction false} TrailKeepsNoDoubleSpace(s: string)
    requires NoDoubleSpace(s)
    ensures NoDoubleSpace(DropLineTrail(s))
    decreases |s|
  {
    if s != [] {
      if IsBlank(s[0]) && BlankRun(s) < |s| && s[BlankRun(s)] == '\n' {
        var k := BlankRun(s) + 1;
        NoDoubleSpaceSuffix(s, k);
        TrailKeepsNoDoubleSpace(s[k..]);
        NoDoubleSpaceAppend("\n", DropLineTrail(s[k..]));
      } else {
        NoDoubleSpaceSuffix(s, 1);
        TrailKeepsNoDoubleSpace(s[1..]);
        NoDoubleSpaceAppend([s[0]], DropLineTrail(s[1..]));
      }
    }
  }

  lemma {:induction false} CollapseKeepsNoDoubleSpace(s: string)
    requires NoDoubleSpace(s)
    ensures NoDoubleSpace(CollapseNewlines(s))
    decreases |s|
  {
    if s != [] {
      if s[0] == '\n' {
        var k := CharRun(s, '\n');
        var piece := if k >= 3 then "\n\n" else s[..k];
        assert forall i :: 0 <= i < |piece| ==> piece[i] == '\n';
        NoDoubleSpaceSuffix(s, k);
        CollapseKeepsNoDoubleSpace(s[k..]);
        NoDoubleSpaceAppend(piece, CollapseNewlines(s[k..]));
      } else {
        NoDoubleSpaceSuffix(s, 1);
        CollapseKeepsNoDoubleSpace(s[1..]);
        NoDoubleSpaceAppend([s[0]], CollapseNewlines(s[1..]));
      }
    }
  }

  /** After the collapse no three newlines are left in a row. */
  lemma {:induction false} CollapseNoTripleNewline(s: string)
    ensures NoTripleNewline(CollapseNewlines(s))
    decreases |s|
  {
    if s != [] {
      if s[0] == '\n' {
        var k := CharRun(s, '\n');
        var piece := if k >= 3 then "\n\n" else s[..k];
        var rest := CollapseNewlines(s[k..]);
        CollapseNoTripleNewline(s[k..]);
        var r := piece + rest;
        assert |piece| <= 2;
        assert rest != [] ==> rest[0] != '\n';
        forall i | 0 <= i < |r| - 2
          ensures !(r[i] == '\n' && r[i + 1] == '\n' && r[i + 2] == '\n')
        {
          if i >= |piece| {
            assert r[i] == rest[i - |piece|] && r[i + 1] == rest[i - |piece| + 1];
            assert r[i + 2] == rest[i - |piece| + 2];
          } else {
            assert r[|piece|] == rest[0];
          }
        }
      } else {
        CollapseNoTripleNewline(s[1..]);
      }
    }
  }

  /** A text with no run of three newlines is left as it is by the collapse. */
  lemma {:induction false} CollapseIdentity(s: string)
    requires NoTripleNewline(s)
    ensures CollapseNewlines(s) == s
    decreases |s|
  {
    if s != [] {
      if s[0] == '\n' {
        var k := CharRun(s, '\n');
        assert |s| > 2 ==> !(s[0] == '\n' && s[1] == '\n' && s[2] == '\n');
        assert NoTripleNewline(s[k..]);
        CollapseIdentity(s[k..]);
        assert s[..k] + s[k..] == s;
      } else {
        assert NoTripleNewline(s[1..]);
        CollapseIdentity(s[1..]);
        assert [s[0]] + s[1..] == s;
      }
    }
  }

  lemma CollapseIdempotent(s: string)
    ensures CollapseNewlines(CollapseNewlines(s)) == CollapseNewlines(s)
  {
    CollapseNoTripleNewline(s);
    CollapseIdentity(CollapseNewlines(s));
  }

  /** A slice of a text keeps its no-double-space and no-triple-newline shape. */
  lemma SliceShape(s: string, a: nat, b: nat)
    requires a <= b <= |s|
    ensures NoDoubleSpace(s) ==> NoDoubleSpace(s[a..b])
    ensures NoTripleNewline(s) ==> NoTripleNewline(s[a..b])
  {
    var t := s[a..b];
    if NoDoubleSpace(s) {
      forall i | 0 <= i < |t| - 1 ensures !(t[i] == ' ' && t[i + 1] == ' ') {
        assert t[i] == s[a + i] && t[i + 1] == s[a + i + 1];
      }
    }
    if NoTripleNewline(s) {
      forall i | 0 <= i < |t| - 2 ensures !(t[i] == '\n' && t[i + 1] == '\n' && t[i + 2] == '\n') {
        assert t[i] == s[a + i] && t[i + 1] == s[a + i + 1] && t[i + 2] == s[a + i + 2];
      }
    }
  }

  /** `_clean_text` leaves no carriage return and no tab. */
  lemma CleanTextChars(s: string)
    ensures '\r' !in CleanText(s) && '\t' !in CleanText(s)
  {
    var s1 := ReplaceCrLf(s);
    var s2 := ReplaceCr(s1);
    var s3 := SqueezeBlanks(s2);
    var s4 := DropLineIndent(s3);
    var s5 := DropLineTrail(s4);
    var s6 := CollapseNewlines(s5);
    CrChars(s1);
    SqueezeChars(s2);
    IndentChars(s3);
    TrailChars(s4);
    CollapseChars(s5);
    StripChars(s6);
  }

  /** Stripping keeps the no-double-space and no-triple-newline shape. */
  lemma StripShape(s: string)
    requires NoDoubleSpace(s) && NoTripleNewline(s)
    ensures NoDoubleSpace(Strip(s)) && NoTripleNewline(Strip(s))
  {
    var a, b := StripIsSlice(s);
    SliceShape(s, a, b);
  }

  /** `_clean_text` leaves no two spaces in a row, no three newlines in a row and
      no whitespace at either end. */
  lemma CleanTextShape(s: string)
    ensures NoDoubleSpace(CleanText(s)) && NoTripleNewline(CleanText(s)) && IsStripped(CleanText(s))
  {
    var s2 := ReplaceCr(ReplaceCrLf(s));
    var s3 := SqueezeBlanks(s2);
    var s4 := DropLineIndent(s3);
    var s5 := DropLineTrail(s4);
    var s6 := CollapseNewlines(s5);
    SqueezeNoDoubleSpace(s2);
    IndentKeepsNoDoubleSpace(s3);
    TrailKeepsNoDoubleSpace(s4);
    CollapseKeepsNoDoubleSpace(s5);
    CollapseNoTripleNewline(s5);
    StripShape(s6);
  }

  /** `_clean_text` changes nothing but whitespace. */
  lemma CleanTextVisible(s: string)
    ensures Visible(CleanText(s)) == Visible(s)
  {
    var s1 := ReplaceCrLf(s);
    var s2 := ReplaceCr(s1);
    var s3 := SqueezeBlanks(s2);
    var s4 := DropLineIndent(s3);
    var s5 := DropLineTrail(s4);
    var s6 := CollapseNewlines(s5);
    VisibleCrLf(s);
    VisibleCr(s1);
    VisibleSqueeze(s2);
    VisibleIndent(s3);
    VisibleTrail(s4);
    VisibleCollapse(s5);
    VisibleStrip(s6);
  }
}
