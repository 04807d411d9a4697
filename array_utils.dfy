/** Summing a range of an integer array (the ArrayUtils helper class). */
module ArrayUtils {
  import opened Wrappers

  /**
   * The sum of the elements of s in the half-open index range [lo, hi).
   * This is the reference meaning of every "sum" in the model.
   */
  function Sum(s: seq<int>, lo: int, hi: int): int
    requires 0 <= lo <= hi <= |s|
    decreases hi - lo
  {
    if lo == hi then 0 else Sum(s, lo, hi - 1) + s[hi - 1]
  }

  /** A range sum splits at any point inside the range. */
  lemma {:induction false} SumSplit(s: seq<int>, lo: int, mid: int, hi: int)
    requires 0 <= lo <= mid <= hi <= |s|
    ensures Sum(s, lo, hi) == Sum(s, lo, mid) + Sum(s, mid, hi)
    decreases hi - mid
  {
    if mid < hi {
      SumSplit(s, lo, mid, hi - 1);
    }
  }

  /**
   * Adds up a[start], ..., a[end - 1] in a loop. An empty or inverted range
   * gives 0 without reading the array; otherwise the loop reads a[start]
   * first, so a negative start or an end past the array fails.
   */
  method SumRange(a: array<int>, start: int, end: int) returns (r: Result<int>)
    ensures start >= end ==> r == Ok(0)
    ensures start < end ==> (r.Ok? <==> 0 <= start && end <= a.Length)
    ensures r.Err? ==> r.error == IndexOutOfBounds
    ensures r.Ok? && start < end ==> r.value == Sum(a[..], start, end)
  {
    var sum := 0;
    var i := start;
    while i < end
      invariant start <= i
      invariant i == start || i <= end
      invariant start < i ==> 0 <= start && i <= a.Length
      invariant start < i ==> sum == Sum(a[..], start, i)
      invariant i == start ==> sum == 0
      decreases end - i
    {
      if i < 0 || i >= a.Length {
        return Err(IndexOutOfBounds);
      }
      sum := sum + a[i];
      i := i + 1;
    }
    return Ok(sum);
  }

  /** Adds up the whole array. */
  method SumAll(a: array<int>) returns (r: int)
    ensures r == Sum(a[..], 0, a.Length)
  {
    var s := SumRange(a, 0, a.Length);
    r := s.value;
  }
}
