/**
 Python's slicing of a list with step 1, `s[start:stop]`: negative bounds count
 from the end, and bounds outside the list are clamped to it instead of failing.
 */
module PySlices {

  /** The position a slice bound `i` denotes in a list of length `n`. */
  function Bound(i: int, n: nat): (b: nat)
    ensures b <= n
    ensures 0 <= i ==> b == if i <= n then i else n
    ensures i < 0 ==> b == if -i <= n then n + i else 0
  {
    if i < 0 then
      if i + n < 0 then 0 else i + n
    else if i > n then n
    else i
  }

  /** `s[start:stop]`: the elements from the start bound up to the stop bound, or none if the stop lies before the start. */
  function Slice<T>(s: seq<T>, start: int, stop: int): (r: seq<T>)
    ensures var a, b := Bound(start, |s|), Bound(stop, |s|);
      |r| == (if a <= b then b - a else 0) &&
      forall j :: 0 <= j < |r| ==> r[j] == s[a + j]
  {
    var a, b := Bound(start, |s|), Bound(stop, |s|);
    if a <= b then s[a..b] else []
  }

  /** `s[:stop]`. */
  function SliceTo<T>(s: seq<T>, stop: int): seq<T>
  {
    Slice(s, 0, stop)
  }

  /** With non-negative bounds a Python slice is Dafny's subsequence with both ends clamped to the list. */
  lemma SliceOfNonNegative<T>(s: seq<T>, start: int, stop: int)
    requires 0 <= start && 0 <= stop
    ensures var a := if start <= |s| then start else |s|;
            var b := if stop <= |s| then stop else |s|;
            Slice(s, start, stop) == if a <= b then s[a..b] else []
  {
  }
}
