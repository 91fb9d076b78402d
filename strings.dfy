/** Python `str` operations the pipeline relies on, written out on `seq<char>`:
    whitespace and strip(), ASCII lower-casing, substring tests, split/join
    and decimal rendering of counts. `Visible` (the non-whitespace characters
    of a text, in order) is the yardstick for "only whitespace changed". */
module Strings {

  /** Python's str.isspace(); `\s` in the `re` patterns and str.strip() use
      the same set of characters. */
  predicate IsSpace(c: char) {
    ('\t' <= c <= '\r') || ('\U{1C}' <= c <= ' ') || c == '\U{85}' || c == '\U{A0}'
    || c == '\U{1680}' || ('\U{2000}' <= c <= '\U{200A}') || c == '\U{2028}'
    || c == '\U{2029}' || c == '\U{202F}' || c == '\U{205F}' || c == '\U{3000}'
  }

  /** The character class `[ \t]`. */
  predicate IsBlank(c: char) {
    c == ' ' || c == '\t'
  }

  /** str.lstrip(): drops the leading whitespace and nothing else. */
  function TrimStart(s: string): (r: string)
    ensures |r| <= |s|
    ensures r == [] || !IsSpace(r[0])
    decreases |s|
  {
    if s != [] && IsSpace(s[0]) then TrimStart(s[1..]) else s
  }

  /** str.rstrip(): drops the trailing whitespace and nothing else. */
  function TrimEnd(s: string): (r: string)
    ensures |r| <= |s|
    ensures r == [] || (r[0] == s[0] && !IsSpace(r[|r| - 1]))
    decreases |s|
  {
    if s != [] && IsSpace(s[|s| - 1]) then TrimEnd(s[..|s| - 1]) else s
  }

  /** str.strip(). */
  function Strip(s: string): (r: string)
    ensures |r| <= |s|
    ensures r == [] || (!IsSpace(r[0]) && !IsSpace(r[|r| - 1]))
  {
    TrimEnd(TrimStart(s))
  }

  predicate IsStripped(s: string) {
    s == [] || (!IsSpace(s[0]) && !IsSpace(s[|s| - 1]))
  }

  /** lstrip() removes a prefix made of whitespace only. */
  lemma {:induction false} TrimStartSuffix(s: string)
    ensures TrimStart(s) == s[|s| - |TrimStart(s)|..]
    ensures forall i :: 0 <= i < |s| - |TrimStart(s)| ==> IsSpace(s[i])
    decreases |s|
  {
    if s != [] && IsSpace(s[0]) {
      TrimStartSuffix(s[1..]);
    }
  }

  /** rstrip() removes a suffix made of whitespace only. */
  lemma {:induction false} TrimEndPrefix(s: string)
    ensures TrimEnd(s) == s[..|TrimEnd(s)|]
    ensures forall i :: |TrimEnd(s)| <= i < |s| ==> IsSpace(s[i])
    decreases |s|
  {
    if s != [] && IsSpace(s[|s| - 1]) {
      TrimEndPrefix(s[..|s| - 1]);
    }
  }

  /** The result of Strip is a contiguous slice of its argument. */
  lemma StripIsSlice(s: string) returns (a: nat, b: nat)
    ensures a <= b <= |s| && Strip(s) == s[a..b]
  {
    var t := TrimStart(s);
    var r := TrimEnd(t);
    TrimStartSuffix(s);
    TrimEndPrefix(t);
    a := |s| - |t|;
    b := a + |r|;
    assert s[a..][..|r|] == s[a..b];
  }

  /** Stripping a text that has no whitespace at either end changes nothing. */
  lemma StripStripped(s: string)
    requires IsStripped(s)
    ensures Strip(s) == s
  {
    assert TrimStart(s) == s;
  }

  /** The non-whitespace characters of a text, in order. */
  function Visible(s: string): string
    decreases |s|
  {
    if s == [] then [] else (if IsSpace(s[0]) then [] else [s[0]]) + Visible(s[1..])
  }

  lemma {:induction false} VisibleConcat(a: string, b: string)
    ensures Visible(a + b) == Visible(a) + Visible(b)
    decreases |a|
  {
    if a == [] {
      assert a + b == b;
    } else {
      assert (a + b)[1..] == a[1..] + b;
      VisibleConcat(a[1..], b);
    }
  }

  lemma {:induction false} VisibleOfSpaces(s: string)
    requires forall i :: 0 <= i < |s| ==> IsSpace(s[i])
    ensures Visible(s) == []
    decreases |s|
  {
    if s != [] {
      VisibleOfSpaces(s[1..]);
    }
  }

  lemma VisibleChar(c: char)
    ensures Visible([c]) == if IsSpace(c) then [] else [c]
  {
    assert [c][1..] == [];
  }

  /** lstrip() only ever removes whitespace. */
  lemma VisibleTrimStart(s: string)
    ensures Visible(TrimStart(s)) == Visible(s)
  {
    var t := TrimStart(s);
    var k := |s| - |t|;
    TrimStartSuffix(s);
    assert s == s[..k] + t;
    VisibleConcat(s[..k], t);
    VisibleOfSpaces(s[..k]);
  }

  /** rstrip() only ever removes whitespace. */
  lemma VisibleTrimEnd(s: string)
    ensures Visible(TrimEnd(s)) == Visible(s)
  {
    var u := TrimEnd(s);
    TrimEndPrefix(s);
    assert s == u + s[|u|..];
    VisibleConcat(u, s[|u|..]);
    VisibleOfSpaces(s[|u|..]);
  }

  /** strip() only ever removes whitespace. */
  lemma VisibleStrip(s: string)
    ensures Visible(Strip(s)) == Visible(s)
  {
    VisibleTrimStart(s);
    VisibleTrimEnd(TrimStart(s));
  }

  /** A text with a visible character does not strip to nothing. */
  lemma StripNonEmpty(s: string)
    requires Visible(s) != []
    ensures Strip(s) != []
  {
    VisibleStrip(s);
  }

  /** A text that strips to something has a visible character. */
  lemma VisibleOfStripped(s: string)
    requires Strip(s) != []
    ensures Visible(s) != []
  {
    var t := Strip(s);
    VisibleStrip(s);
    assert t == [t[0]] + t[1..];
    VisibleConcat([t[0]], t[1..]);
  }

  /** Dropping a prefix keeps a suffix of the visible characters. */
  lemma VisibleSuffix(p: string, s: string)
    requires IsSuffix(p, s)
    ensures IsSuffix(Visible(p), Visible(s))
  {
    assert s == s[..|s| - |p|] + p;
    VisibleConcat(s[..|s| - |p|], p);
  }

  /** Joining with a whitespace separator adds no visible character. */
  lemma {:induction false} VisibleJoin(parts: seq<string>, sep: string)
    requires Visible(sep) == []
    ensures Visible(Join(parts, sep)) == Visible(Flatten(parts))
    decreases |parts|
  {
    if |parts| == 1 {
      assert Flatten(parts) == parts[0] + Flatten(parts[1..]);
      assert parts[0] + [] == parts[0];
    } else if |parts| > 1 {
      VisibleJoin(parts[1..], sep);
      VisibleConcat(parts[0] + sep, Join(parts[1..], sep));
      VisibleConcat(parts[0], sep);
      VisibleConcat(parts[0], Flatten(parts[1..]));
    }
  }

  function LowerChar(c: char): char {
    if 'A' <= c <= 'Z' then (c as int + 32) as char else c
  }

  /** str.lower() on ASCII letters; every other character is kept. */
  function Lower(s: string): string {
    seq(|s|, i requires 0 <= i < |s| => LowerChar(s[i]))
  }

  lemma LowerConcat(a: string, b: string)
    ensures Lower(a + b) == Lower(a) + Lower(b)
  {
  }

  predicate IsPrefix(p: string, s: string) {
    |p| <= |s| && s[..|p|] == p
  }

  predicate IsSuffix(p: string, s: string) {
    |p| <= |s| && s[|s| - |p|..] == p
  }

  lemma PrefixConcat(a: string, b: string)
    ensures IsPrefix(a, a + b)
  {
    assert (a + b)[..|a|] == a;
  }

  lemma PrefixExtend(a: string, b: string, c: string)
    requires IsPrefix(a, b)
    ensures IsPrefix(a, b + c)
  {
    assert (b + c)[..|a|] == b[..|a|];
  }

  lemma SuffixConcat(a: string, b: string)
    ensures IsSuffix(b, a + b)
  {
    assert (a + b)[|a|..] == b;
  }

  /** The characters of a prefix are the first characters of the text. */
  lemma PrefixChar(p: string, s: string, k: nat)
    requires IsPrefix(p, s) && k < |p|
    ensures s[k] == p[k]
  {
    assert s[..|p|][k] == s[k];
  }

  /** A suffix ends with the last character of the text. */
  lemma SuffixLast(p: string, s: string)
    requires IsSuffix(p, s) && p != []
    ensures s[|s| - 1] == p[|p| - 1]
  {
    assert s[|s| - |p|..][|p| - 1] == s[|s| - 1];
  }

  lemma PrefixPrepend(b: string, x: string, y: string)
    requires IsPrefix(x, y)
    ensures IsPrefix(b + x, b + y)
  {
    assert (b + y)[..|b + x|] == b + y[..|x|];
  }

  /** Two texts that both follow b at the start of s agree where both reach. */
  lemma PrefixesAgree(b: string, x: string, z: string, s: string, k: nat)
    requires IsPrefix(b + x, s) && IsPrefix(b + z, s) && k < |x| && k < |z|
    ensures x[k] == z[k]
  {
    PrefixChar(b + x, s, |b| + k);
    PrefixChar(b + z, s, |b| + k);
  }

  lemma SuffixPrepend(a: string, x: string, y: string)
    requires IsSuffix(x, y)
    ensures IsSuffix(x, a + y)
  {
    assert (a + y)[|a + y| - |x|..] == y[|y| - |x|..];
  }

  /** Dropping the length of the last part leaves the parts before it. */
  lemma DropSuffix(r: string, t: string)
    ensures (r + t)[..|r + t| - |t|] == r
  {
  }

  /** Python's `p in s` for strings. */
  predicate IsInfix(p: string, s: string)
    decreases |s|
  {
    IsPrefix(p, s) || (s != [] && IsInfix(p, s[1..]))
  }

  lemma {:induction false} InfixAt(p: string, s: string, i: nat)
    requires i + |p| <= |s| && s[i..i + |p|] == p
    ensures IsInfix(p, s)
    decreases i
  {
    if i > 0 {
      assert s[1..][i - 1..i - 1 + |p|] == s[i..i + |p|];
      InfixAt(p, s[1..], i - 1);
    }
  }

  lemma {:induction false} InfixWitness(p: string, s: string) returns (i: nat)
    requires IsInfix(p, s)
    ensures i + |p| <= |s| && s[i..i + |p|] == p
    decreases |s|
  {
    if IsPrefix(p, s) {
      i := 0;
    } else {
      var j := InfixWitness(p, s[1..]);
      i := j + 1;
      assert s[1..][j..j + |p|] == s[i..i + |p|];
    }
  }

  lemma InfixLeft(x: string, a: string, s: string)
    requires IsInfix(x, s)
    ensures IsInfix(x, a + s)
  {
    var i := InfixWitness(x, s);
    assert (a + s)[|a| + i..|a| + i + |x|] == s[i..i + |x|];
    InfixAt(x, a + s, |a| + i);
  }

  lemma InfixRight(x: string, s: string, b: string)
    requires IsInfix(x, s)
    ensures IsInfix(x, s + b)
  {
    var i := InfixWitness(x, s);
    assert (s + b)[i..i + |x|] == s[i..i + |x|];
    InfixAt(x, s + b, i);
  }

  lemma InfixSelf(x: string)
    ensures IsInfix(x, x)
  {
    assert x[..|x|] == x;
  }

  /** Every character of a substring occurs in the text. */
  lemma {:induction false} InfixChars(p: string, s: string, c: char)
    requires c in p && IsInfix(p, s)
    ensures c in s
    decreases |s|
  {
    if IsPrefix(p, s) {
      var k :| 0 <= k < |p| && p[k] == c;
      assert s[k] == c;
    } else {
      InfixChars(p, s[1..], c);
    }
  }

  /** str.split(sep) for a one-character separator. */
  function Split(s: string, sep: char): (r: seq<string>)
    ensures |r| >= 1
    ensures forall k :: 0 <= k < |r| ==> sep !in r[k]
    decreases |s|
  {
    if s == [] then [[]]
    else
      var rest := Split(s[1..], sep);
      if s[0] == sep then [[]] + rest else [[s[0]] + rest[0]] + rest[1..]
  }

  /** sep.join(parts). */
  function Join(parts: seq<string>, sep: string): string
    decreases |parts|
  {
    if parts == [] then []
    else if |parts| == 1 then parts[0]
    else parts[0] + sep + Join(parts[1..], sep)
  }

  /** Joining the pieces of a split with the separator gives the text back. */
  lemma {:induction false} JoinSplit(s: string, sep: char)
    ensures Join(Split(s, sep), [sep]) == s
    decreases |s|
  {
    if s != [] {
      var rest := Split(s[1..], sep);
      JoinSplit(s[1..], sep);
      if s[0] == sep {
        assert ([[]] + rest)[1..] == rest;
      } else if |rest| > 1 {
        var r := [[s[0]] + rest[0]] + rest[1..];
        assert r[1..] == rest[1..];
      }
    }
  }

  /** Splitting a join of separator-free parts gives the parts back. */
  lemma {:induction false} SplitJoin(parts: seq<string>, sep: char)
    requires |parts| >= 1
    requires forall k :: 0 <= k < |parts| ==> sep !in parts[k]
    ensures Split(Join(parts, [sep]), sep) == parts
    decreases |parts|
  {
    if |parts| == 1 {
      SplitFree(parts[0], sep);
    } else {
      SplitJoin(parts[1..], sep);
      SplitPrefix(parts[0], Join(parts[1..], [sep]), sep);
      assert [parts[0]] + parts[1..] == parts;
    }
  }

  lemma {:induction false} SplitFree(s: string, sep: char)
    requires sep !in s
    ensures Split(s, sep) == [s]
    decreases |s|
  {
    if s != [] {
      SplitFree(s[1..], sep);
      assert [s[0]] + s[1..] == s;
    }
  }

  lemma {:induction false} SplitPrefix(a: string, b: string, sep: char)
    requires sep !in a
    ensures Split(a + [sep] + b, sep) == [a] + Split(b, sep)
    decreases |a|
  {
    if a == [] {
      assert (a + [sep] + b)[1..] == b;
    } else {
      assert (a + [sep] + b)[1..] == a[1..] + [sep] + b;
      SplitPrefix(a[1..], b, sep);
      assert [a[0]] + a[1..] == a;
    }
  }

  lemma JoinPair(a: string, b: string, sep: string)
    ensures Join([a, b], sep) == a + sep + b
  {
    assert [a, b][1..] == [b];
  }

  lemma {:induction false} JoinSnoc(parts: seq<string>, x: string, sep: string)
    requires parts != []
    ensures Join(parts + [x], sep) == Join(parts, sep) + sep + x
    decreases |parts|
  {
    if |parts| > 1 {
      assert (parts + [x])[1..] == parts[1..] + [x];
      JoinSnoc(parts[1..], x, sep);
    } else {
      assert (parts + [x])[1..] == [x];
    }
  }

  lemma SuffixTrans(a: string, b: string, c: string)
    requires IsSuffix(a, b) && IsSuffix(b, c)
    ensures IsSuffix(a, c)
  {
    assert c[|c| - |a|..] == c[|c| - |b|..][|b| - |a|..];
  }

  /** Joining a tail of the parts gives a suffix of joining them all. */
  lemma {:induction false} JoinSuffix(parts: seq<string>, k: nat, sep: string)
    requires k <= |parts|
    ensures IsSuffix(Join(parts[k..], sep), Join(parts, sep))
    decreases k
  {
    if k == 0 {
      assert parts[k..] == parts;
    } else if |parts| == 1 {
      assert parts[k..] == [];
    } else {
      JoinSuffix(parts[1..], k - 1, sep);
      assert parts[1..][k - 1..] == parts[k..];
      var j := Join(parts, sep);
      var t := Join(parts[1..], sep);
      assert j == (parts[0] + sep) + t;
      assert IsSuffix(t, j);
      SuffixTrans(Join(parts[k..], sep), t, j);
    }
  }

  /** The elements of a sequence of sequences, end to end. */
  function Flatten<T>(xss: seq<seq<T>>): seq<T>
    decreases |xss|
  {
    if xss == [] then [] else xss[0] + Flatten(xss[1..])
  }

  lemma {:induction false} FlattenConcat<T>(a: seq<seq<T>>, b: seq<seq<T>>)
    ensures Flatten(a + b) == Flatten(a) + Flatten(b)
    decreases |a|
  {
    if a == [] {
      assert a + b == b;
    } else {
      assert (a + b)[0] == a[0];
      assert (a + b)[1..] == a[1..] + b;
      FlattenConcat(a[1..], b);
    }
  }

  lemma FlattenSnoc<T>(a: seq<seq<T>>, x: seq<T>)
    ensures Flatten(a + [x]) == Flatten(a) + x
  {
    FlattenConcat(a, [x]);
    assert Flatten([x]) == x + Flatten([x][1..]);
  }

  lemma FlattenCons<T>(x: seq<T>, b: seq<seq<T>>)
    ensures Flatten([x] + b) == x + Flatten(b)
  {
    assert ([x] + b)[1..] == b;
  }

  lemma FlattenOne<T>(x: seq<T>)
    ensures Flatten([x]) == x
  {
    assert [x][1..] == [];
  }

  /** Each element of each inner sequence occurs in the flattening. */
  lemma {:induction false} InFlatten<T>(xss: seq<seq<T>>, k: nat, j: nat)
    requires k < |xss| && j < |xss[k]|
    ensures xss[k][j] in Flatten(xss)
    decreases k
  {
    if k > 0 {
      InFlatten(xss[1..], k - 1, j);
    }
  }

  /** [s.strip() for s in xs] */
  function StripAll(xs: seq<string>): (r: seq<string>)
    ensures |r| == |xs| && forall i :: 0 <= i < |xs| ==> r[i] == Strip(xs[i])
  {
    seq(|xs|, i requires 0 <= i < |xs| => Strip(xs[i]))
  }

  /** xs[-n:] */
  function LastN<T>(xs: seq<T>, n: nat): seq<T> {
    if |xs| <= n then xs else xs[|xs| - n..]
  }

  /** s * n for a string s (empty when n <= 0). */
  function Repeat(s: string, n: int): string
    decreases n
  {
    if n <= 0 then [] else s + Repeat(s, n - 1)
  }

  function DigitChar(d: nat): char
    requires d < 10
  {
    ('0' as int + d) as char
  }

  /** str(n) for a non-negative integer. */
  function NatToString(n: nat): (r: string)
    ensures r != []
    decreases n
  {
    if n < 10 then [DigitChar(n)] else NatToString(n / 10) + [DigitChar(n % 10)]
  }

  /** Length of the leading run of whitespace. */
  function SpaceRun(s: string): (k: nat)
    ensures k <= |s|
    ensures forall i :: 0 <= i < k ==> IsSpace(s[i])
    ensures k == |s| || !IsSpace(s[k])
    decreases |s|
  {
    if s != [] && IsSpace(s[0]) then 1 + SpaceRun(s[1..]) else 0
  }

  /** A whitespace prefix adds its whole length to the run. */
  lemma {:induction false} SpaceRunAppend(u: string, w: string)
    requires forall i :: 0 <= i < |u| ==> IsSpace(u[i])
    ensures SpaceRun(u + w) == |u| + SpaceRun(w)
    decreases |u|
  {
    if u == [] {
      assert u + w == w;
    } else {
      assert (u + w)[1..] == u[1..] + w;
      SpaceRunAppend(u[1..], w);
    }
  }

  /** A run that stops inside u stops at the same place in u + w. */
  lemma {:induction false} SpaceRunPrefix(u: string, w: string)
    requires SpaceRun(u) < |u|
    ensures SpaceRun(u + w) == SpaceRun(u)
    decreases |u|
  {
    if IsSpace(u[0]) {
      assert (u + w)[1..] == u[1..] + w;
      SpaceRunPrefix(u[1..], w);
    }
  }

  /** Length of the leading run of the character `c`. */
  function CharRun(s: string, c: char): (k: nat)
    ensures k <= |s|
    ensures forall i :: 0 <= i < k ==> s[i] == c
    ensures k == |s| || s[k] != c
    decreases |s|
  {
    if s != [] && s[0] == c then 1 + CharRun(s[1..], c) else 0
  }

  /** Length of the leading run of `[ \t]`. */
  function BlankRun(s: string): (k: nat)
    ensures k <= |s|
    ensures forall i :: 0 <= i < k ==> IsBlank(s[i])
    ensures k == |s| || !IsBlank(s[k])
    decreases |s|
  {
    if s != [] && IsBlank(s[0]) then 1 + BlankRun(s[1..]) else 0
  }
  /** str(n) for any integer. */
  function IntToString(n: int): (r: string)
    ensures r != []
  {
    if n < 0 then "-" + NatToString(-n) else NatToString(n)
  }

  /** c * n for one character. */
  lemma {:induction false} RepeatChar(c: char, n: nat)
    ensures |Repeat([c], n)| == n
    ensures forall i :: 0 <= i < n ==> Repeat([c], n)[i] == c
    decreases n
  {
    if n > 0 {
      RepeatChar(c, n - 1);
    }
  }

  /** strip() cannot bring in a character the text does not hold. */
  lemma StripFree(s: string, c: char)
    requires c !in s
    ensures c !in Strip(s)
  {
    var a, b := StripIsSlice(s);
  }

  /** xs keeps some of the elements of ys, in their order in ys. */
  predicate IsSubsequence<T(==)>(xs: seq<T>, ys: seq<T>)
    decreases |ys|
  {
    if xs == [] then true
    else if ys == [] then false
    else if xs[|xs| - 1] == ys[|ys| - 1] then IsSubsequence(xs[..|xs| - 1], ys[..|ys| - 1])
    else IsSubsequence(xs, ys[..|ys| - 1])
  }

  /** Appending to the longer sequence keeps a subsequence a subsequence;
      appending the same element to both extends it. */
  lemma SubsequenceSnoc<T>(xs: seq<T>, ys: seq<T>, y: T)
    requires IsSubsequence(xs, ys)
    ensures IsSubsequence(xs, ys + [y]) && IsSubsequence(xs + [y], ys + [y])
  {
    SubsequenceExtend(xs, ys, y);
    assert (ys + [y])[..|ys|] == ys;
    assert (xs + [y])[..|xs|] == xs;
  }

  lemma {:induction false} SubsequenceExtend<T>(xs: seq<T>, ys: seq<T>, y: T)
    requires IsSubsequence(xs, ys)
    ensures IsSubsequence(xs, ys + [y])
    decreases |ys|, 1
  {
    assert (ys + [y])[..|ys|] == ys;
    if xs != [] && xs[|xs| - 1] == y {
      SubsequenceInit(xs, ys);
    }
  }

  lemma {:induction false} SubsequenceInit<T>(xs: seq<T>, ys: seq<T>)
    requires xs != [] && IsSubsequence(xs, ys)
    ensures IsSubsequence(xs[..|xs| - 1], ys)
    decreases |ys|, 0
  {
    var init, pre := xs[..|xs| - 1], ys[..|ys| - 1];
    assert pre + [ys[|ys| - 1]] == ys;
    if xs[|xs| - 1] == ys[|ys| - 1] {
      SubsequenceExtend(init, pre, ys[|ys| - 1]);
    } else {
      SubsequenceInit(xs, pre);
      SubsequenceExtend(init, pre, ys[|ys| - 1]);
    }
  }
}
