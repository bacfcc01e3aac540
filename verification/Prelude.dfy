/** Types and slicing shared by every part of the model. */
module Prelude {
  datatype Option<+T> = None | Some(value: T)

  datatype Result<+T, +E> = Ok(value: T) | Err(error: E)

  type Byte = b: int | 0 <= b < 256

  function Min(a: int, b: int): int {
    if a <= b then a else b
  }

  function Abs(a: int): (r: int)
    ensures r >= 0 && (r == a || r == -a)
  {
    if a < 0 then -a else a
  }

  /** Python's `s[lo:hi]` for non-negative bounds: both ends are clamped to the length. */
  function Slice<T>(s: seq<T>, lo: nat, hi: nat): (r: seq<T>)
    ensures lo <= hi ==> |r| <= hi - lo
    ensures lo <= hi <= |s| ==> r == s[lo..hi]
  {
    var end := Min(hi, |s|);
    if lo <= end then s[lo..end] else []
  }

  /** Python's `s[n:]`. */
  function Rest<T>(s: seq<T>, n: nat): seq<T> {
    if n <= |s| then s[n..] else []
  }

  /** A slice holds, in order, exactly the elements whose place lies in the range and in the sequence. */
  lemma SliceHolds<T>(s: seq<T>, lo: nat, hi: nat, i: nat)
    ensures i < |Slice(s, lo, hi)| <==> lo + i < hi && lo + i < |s|
    ensures i < |Slice(s, lo, hi)| ==> Slice(s, lo, hi)[i] == s[lo + i]
  {
  }

  lemma ConcatAssociative<T>(a: seq<T>, b: seq<T>, c: seq<T>)
    ensures (a + b) + c == a + (b + c)
  {
  }

  lemma HeadTail<T>(s: seq<T>)
    requires s != []
    ensures s == [s[0]] + s[1..]
  {
  }

  lemma LastOfConcat<T>(a: seq<T>, b: seq<T>)
    requires b != []
    ensures (a + b)[|a + b| - 1] == b[|b| - 1] && (a + b)[..|a + b| - 1] == a + b[..|b| - 1]
  {
  }

  lemma SliceOfRest<T>(s: seq<T>, offset: nat, lo: nat, hi: nat)
    ensures Slice(Rest(s, offset), lo, hi) == Slice(s, offset + lo, offset + hi)
  {
    if offset + lo <= Min(offset + hi, |s|) {
      assert Min(offset + hi, |s|) == offset + Min(hi, |s| - offset);
      var end := Min(hi, |s| - offset);
      var inner, outer := s[offset..][lo..end], s[offset + lo..offset + end];
      assert forall k | 0 <= k < end - lo :: inner[k] == outer[k];
    }
  }

  lemma SliceOfSlice<T>(s: seq<T>, a: nat, b: nat, i: nat, j: nat)
    requires a <= b <= |s| && i <= j <= b - a
    ensures s[a..b][i..j] == s[a + i..a + j]
  {
    var part, direct := s[a..b][i..j], s[a + i..a + j];
    assert forall k | 0 <= k < j - i :: part[k] == direct[k];
  }

  lemma SliceOfPrefix<T>(s: seq<T>, n: nat, i: nat, j: nat)
    requires i <= j <= n <= |s|
    ensures s[..n][i..j] == s[i..j]
  {
  }

  lemma SplitAt<T>(s: seq<T>, n: nat)
    requires n <= |s|
    ensures s == s[..n] + s[n..]
  {
  }
}
