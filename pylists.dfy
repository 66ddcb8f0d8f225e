/**
 * Python list indexing and slicing: a negative position counts from the
 * end, slice bounds are clamped to the list, `s[i]` outside the list
 * raises IndexError.
 */
module PyLists {

  /** A slice bound `x` on a list of length `len`: a negative bound counts from the end, then it is clamped to `0 .. len`. */
  function Bound(x: int, len: nat): (r: nat)
    ensures r <= len
  {
    if x < 0 then (if x + len < 0 then 0 else x + len) else if x > len then len else x
  }

  /** `s[lo:hi]` */
  function Slice<T>(s: seq<T>, lo: int, hi: int): seq<T> {
    var a, b := Bound(lo, |s|), Bound(hi, |s|);
    if a <= b then s[a..b] else []
  }

  /** `s[lo:]` */
  function From<T>(s: seq<T>, lo: int): seq<T> {
    s[Bound(lo, |s|)..]
  }

  /** `s[:hi]` */
  function Upto<T>(s: seq<T>, hi: int): seq<T> {
    s[..Bound(hi, |s|)]
  }

  /** `s[i]` does not raise IndexError. */
  predicate InRange(len: nat, i: int) {
    0 <= i + len && i < len
  }

  /** `s[i]` */
  function At<T>(s: seq<T>, i: int): T
    requires InRange(|s|, i)
  {
    s[if i < 0 then i + |s| else i]
  }

  /** `s[:x]` and `s[x:]` cut `s` at the same place, whatever `x` is. */
  lemma UptoFrom<T>(s: seq<T>, x: int)
    ensures Upto(s, x) + From(s, x) == s
  {
  }

  /** `s[-x]` is the first element of `s[-x:]` for every `x` with `0 < x <= len(s)`. */
  lemma AtFrom<T>(s: seq<T>, x: int)
    requires 0 < x <= |s|
    ensures From(s, -x) != [] && At(s, -x) == From(s, -x)[0]
    ensures |From(s, -x)| == x && |Upto(s, -x)| == |s| - x
  {
  }

  /** Adjacent slices with non-negative bounds join up. */
  lemma SliceTile<T>(s: seq<T>, a: int, b: int, c: int)
    requires 0 <= a <= b <= c
    ensures Slice(s, a, b) + Slice(s, b, c) == Slice(s, a, c)
  {
  }

  /** A slice from the start past the end is the whole list. */
  lemma SliceAll<T>(s: seq<T>, c: int)
    requires c >= |s|
    ensures Slice(s, 0, c) == s
  {
  }

  /** A slice with non-negative bounds takes elements of `s` only, each at most as often as `s` has it. */
  lemma SliceSub<T>(s: seq<T>, lo: int, hi: int)
    requires 0 <= lo <= hi
    ensures multiset(Slice(s, lo, hi)) <= multiset(s)
  {
    var a, b := Bound(lo, |s|), Bound(hi, |s|);
    assert s == s[..a] + s[a..b] + s[b..];
  }
}
