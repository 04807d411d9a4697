/**
 * The Subarray value: an inclusive index range [start, end] of a backing
 * array, the sum of the elements in that range, and a "debt", the sum of
 * elements after end that have been charged to it but not yet folded in.
 */
module Subarrays {
  import opened Wrappers
  import opened ArrayUtils

  /** The four fields of a Subarray, whether or not they form a valid one. */
  datatype Fields = Fields(start: int, end: int, sum: int, debt: int)

  /**
   * A Subarray as the constructor admits it: 0 <= start <= end. Every value
   * of this type is one the Java constructor would have accepted.
   */
  type Subarray = f: Fields | 0 <= f.start <= f.end witness Fields(0, 0, 0, 0)

  /** The sum of a[s], ..., a[e] (both inclusive). */
  function Total(a: seq<int>, s: int, e: int): int
    requires 0 <= s <= e < |a|
  {
    Sum(a, s, e + 1)
  }

  /** r lies inside a and its sum is the true sum of its range. */
  predicate Accurate(a: seq<int>, r: Subarray)
  {
    r.end < |a| && r.sum == Total(a, r.start, r.end)
  }

  /** The private constructor, which rejects end < start and start < 0. */
  function New(start: int, end: int, sum: int, debt: int): (r: Result<Subarray>)
    ensures r.Ok? <==> 0 <= start <= end
    ensures r.Err? ==> r.error == InvalidRange
    ensures r.Ok? ==> r.value.start == start && r.value.end == end
    ensures r.Ok? ==> r.value.sum == sum && r.value.debt == debt
  {
    if end < start || start < 0 then Err(InvalidRange)
    else Ok(Fields(start, end, sum, debt))
  }

  /** The number of elements in the range. */
  function Size(s: Subarray): (r: nat)
    ensures r >= 1
    ensures s.start + r == s.end + 1
  {
    (s.end - s.start) + 1
  }

  /**
   * The Subarray holding just a[index], with no debt. Reading a[index]
   * fails when index is outside the array.
   */
  function OfElement(a: seq<int>, index: int): (r: Result<Subarray>)
    ensures r.Ok? <==> 0 <= index < |a|
    ensures r.Err? ==> r.error == IndexOutOfBounds
    ensures r.Ok? ==> r.value.start == index && r.value.end == index
    ensures r.Ok? ==> r.value.debt == 0 && Size(r.value) == 1
    ensures r.Ok? ==> Accurate(a, r.value) && r.value.sum == a[index]
  {
    if 0 <= index < |a| then
      assert Sum(a, index, index) == 0;
      assert Total(a, index, index) == a[index];
      New(index, index, a[index], 0)
    else Err(IndexOutOfBounds)
  }

  /**
   * The Subarray covering a[start..end] (inclusive) with its sum, computed
   * by the summing loop, and no debt. The sum runs before the constructor
   * check, so a non-empty range outside the array fails on the array read,
   * and an inverted range fails in the constructor.
   */
  method FromRange(a: array<int>, start: int, end: int) returns (r: Result<Subarray>)
    ensures r.Ok? <==> 0 <= start <= end < a.Length
    ensures r.Err? ==> r.error == (if start <= end then IndexOutOfBounds else InvalidRange)
    ensures r.Ok? ==> r.value.start == start && r.value.end == end
    ensures r.Ok? ==> r.value.debt == 0 && Accurate(a[..], r.value)
  {
    var sum := SumRange(a, start, end + 1);
    if sum.Err? {
      return Err(sum.error);
    }
    r := New(start, end, sum.value, 0);
  }

  /** The same range and sum, with debtAdjustment added to the debt. */
  function Adjust(s: Subarray, debtAdjustment: int): (r: Subarray)
    ensures r.start == s.start && r.end == s.end && r.sum == s.sum
    ensures r.debt == s.debt + debtAdjustment
  {
    New(s.start, s.end, s.sum, s.debt + debtAdjustment).value
  }

  /**
   * The range from s.start to j, whose sum folds in the old sum, the debt
   * and value (the element at j); the debt is cleared. Fails unless j lies
   * beyond s.end.
   */
  function Extend(s: Subarray, value: int, j: int): (r: Result<Subarray>)
    ensures r.Ok? <==> j > s.end
    ensures r.Err? ==> r.error == InvalidExtension
    ensures r.Ok? ==> r.value.start == s.start && r.value.end == j
    ensures r.Ok? ==> r.value.sum == s.sum + s.debt + value && r.value.debt == 0
  {
    if !(j > s.end) then Err(InvalidExtension)
    else New(s.start, j, s.sum + s.debt + value, 0)
  }

  /** The two-way maximum by sum; on equal sums the second argument wins. */
  function Max2(a: Subarray, b: Subarray): (r: Subarray)
    ensures r == a || r == b
    ensures r.sum >= a.sum && r.sum >= b.sum
    ensures a.sum <= b.sum ==> r == b
  {
    if a.sum > b.sum then a else b
  }

  /**
   * The three-way maximum by sum; among the arguments with the greatest
   * sum, the last one wins.
   */
  function Max3(a: Subarray, b: Subarray, c: Subarray): (r: Subarray)
    ensures r == a || r == b || r == c
    ensures r.sum >= a.sum && r.sum >= b.sum && r.sum >= c.sum
    ensures c.sum >= a.sum && c.sum >= b.sum ==> r == c
    ensures b.sum >= a.sum && b.sum > c.sum ==> r == b
  {
    if a.sum > b.sum then
      (if a.sum > c.sum then a else c)
    else
      (if b.sum > c.sum then b else c)
  }

  /** The three-way maximum is the two-way one applied twice. */
  lemma Max3IsMax2Twice(a: Subarray, b: Subarray, c: Subarray)
    ensures Max3(a, b, c) == Max2(Max2(a, b), c)
  {
  }

  /** Adjusting by zero changes nothing, so it cannot change a comparison. */
  lemma AdjustZero(s: Subarray, t: Subarray)
    ensures Adjust(s, 0) == s
    ensures Max2(Adjust(s, 0), t) == Max2(s, t) && Max2(t, Adjust(s, 0)) == Max2(t, s)
  {
  }

  /**
   * The debt bookkeeping: when the debt of an accurate s is the sum of the
   * elements between s.end and j, adjusting by a[j] makes it the sum up to
   * and including j, and the range and sum stay accurate.
   */
  lemma AdjustTracksDebt(a: seq<int>, s: Subarray, j: int)
    requires Accurate(a, s) && s.end < j < |a|
    requires s.debt == Sum(a, s.end + 1, j)
    ensures Accurate(a, Adjust(s, a[j]))
    ensures Adjust(s, a[j]).debt == Sum(a, s.end + 1, j + 1)
  {
  }

  /**
   * Folding a debt that covers the elements between s.end and j, plus the
   * element a[j], gives the true sum of the extended range.
   */
  lemma {:induction false} ExtendIsAccurate(a: seq<int>, s: Subarray, j: int)
    requires Accurate(a, s) && s.end < j < |a|
    requires s.debt == Sum(a, s.end + 1, j)
    ensures Extend(s, a[j], j).Ok?
    ensures Accurate(a, Extend(s, a[j], j).value)
  {
    SumSplit(a, s.start, s.end + 1, j);
  }
}
