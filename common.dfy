/** Option and Result values used across the model; a Failure carries the
    message text of the exception the source raises. */
module Common {

  datatype Option<+T> = None | Some(value: T)

  datatype Result<+T, +E> = Success(value: T) | Failure(error: E)

  /** The remote language-model completion: given a prompt, either the text of
      the first choice of the response or the message of the exception the
      client raised. It is a parameter of every operation that calls it. */
  type Completion = string -> Result<string, string>

  /** A prefix one element longer is the prefix with that element appended. */
  lemma TakeSnoc<T>(s: seq<T>, j: nat)
    requires j < |s|
    ensures s[..j + 1] == s[..j] + [s[j]]
  {
  }

  /** A non-empty sequence is its front with its last element appended. */
  lemma LastSplit<T>(s: seq<T>)
    requires s != []
    ensures s == s[..|s| - 1] + [s[|s| - 1]]
  {
  }

  /** Appending one element keeps the front and puts the element last. */
  lemma AppendLast<T>(s: seq<T>, x: T)
    ensures (s + [x])[..|s|] == s && (s + [x])[|s|] == x
  {
  }

  /** A sequence is its three slices at two cut points, in order. */
  lemma ThreeSlices<T>(s: seq<T>, a: nat, b: nat)
    requires a <= b <= |s|
    ensures s == s[..a] + s[a..b] + s[b..]
  {
  }

  /** A prefix of a prefix is a prefix. */
  lemma TakeTake<T>(s: seq<T>, k: nat, n: nat)
    requires k <= n <= |s|
    ensures s[..n][..k] == s[..k]
  {
  }

  /** The tail from k of the front, with the last element appended, is the
      tail from k. */
  lemma DropSnoc<T>(s: seq<T>, k: nat)
    requires k < |s|
    ensures s[..|s| - 1][k..] + [s[|s| - 1]] == s[k..]
  {
  }

  /** A prefix of a non-empty sequence is its head before a prefix of its
      tail, and the prefix and the rest make up the sequence. */
  lemma TakeCons<T>(s: seq<T>, m: nat)
    requires m < |s|
    ensures s[..m + 1] == [s[0]] + s[1..][..m]
    ensures s[..m + 1] + s[m + 1..] == s
  {
  }

  /** A sequence is its head, the slice up to j and the rest. */
  lemma ConsSlices<T>(s: seq<T>, j: nat)
    requires 1 <= j <= |s|
    ensures s == [s[0]] + s[1..j] + s[j..]
  {
  }

  /** A sequence is its prefix up to e, the two elements at e and the rest. */
  lemma TwoAt<T>(s: seq<T>, e: nat)
    requires e + 2 <= |s|
    ensures s == s[..e] + [s[e]] + [s[e + 1]] + s[e + 2..]
  {
  }

  /** The two halves of a concatenation are its slices at the seam. */
  lemma ConcatHalves<T>(a: seq<T>, b: seq<T>)
    ensures (a + b)[..|a|] == a && (a + b)[|a|..] == b
  {
  }
}
