/** What the two solvers' results have in common, where they differ, and examples. */
module SolverProperties {
  import opened ArrayUtils
  import opened Subarrays
  import opened Solvers

  /** Any two maximum subarrays of the same array have the same sum. */
  lemma MaximaAgreeOnSum(a: seq<int>, m1: Subarray, m2: Subarray)
    requires IsMaximum(a, m1) && IsMaximum(a, m2)
    ensures m1.sum == m2.sum
  {
  }

  /**
   * The result of the exhaustive scan (the first maximum) and that of the
   * single pass have the same sum.
   */
  lemma {:induction false} SolversAgreeOnSum(a: seq<int>, bf: Subarray)
    requires |a| > 0 && IsFirstMaximum(a, bf)
    ensures bf.sum == Run(a, |a| - 1).max.sum
  {
    RunIsMaximum(a, Run(a, |a| - 1).max);
    MaximaAgreeOnSum(a, bf, Run(a, |a| - 1).max);
  }

  /** The first maximum is unique, so the exhaustive scan's result is determined. */
  lemma FirstMaximumIsUnique(a: seq<int>, m1: Subarray, m2: Subarray)
    requires IsFirstMaximum(a, m1) && IsFirstMaximum(a, m2)
    ensures m1 == m2
  {
  }

  /** On [0, 0] every range sums to 0, so the first maximum is [0..0]. */
  lemma ZerosFirstMaximum(a: seq<int>, bf: Subarray)
    requires a == [0, 0] && IsFirstMaximum(a, bf)
    ensures bf.start == 0 && bf.end == 0
  {
    assert a[0] == 0 && a[1] == 0;
    assert Sum(a, 0, 0) == 0 && Sum(a, 1, 1) == 0;
    assert Total(a, 0, 0) == 0 && Total(a, 0, 1) == 0 && Total(a, 1, 1) == 0;
  }

  /**
   * The solvers can report different ranges: on [0, 0] the exhaustive scan
   * keeps the first range [0..0], while the single pass, whose ties go to
   * the later candidate, reports [0..1].
   */
  lemma SolversDisagreeOnRange(a: seq<int>, bf: Subarray)
    requires a == [0, 0] && IsFirstMaximum(a, bf)
    ensures bf.start == 0 && bf.end == 0
    ensures Run(a, 1).max.start == 0 && Run(a, 1).max.end == 1
  {
    ZerosFirstMaximum(a, bf);
    NonNegativeRunSpansPrefix(a, 1);
  }

  /** A sum of non-negative elements is non-negative. */
  lemma {:induction false} SumNonNegative(a: seq<int>, lo: int, hi: int)
    requires 0 <= lo <= hi <= |a|
    requires forall i :: 0 <= i < |a| ==> a[i] >= 0
    ensures Sum(a, lo, hi) >= 0
    decreases hi - lo
  {
    if lo < hi {
      SumNonNegative(a, lo, hi - 1);
    }
  }

  /**
   * On an array with no negative element, both registers of the single
   * pass cover the whole prefix a[0..n].
   */
  lemma {:induction false} NonNegativeRunSpansPrefix(a: seq<int>, n: nat)
    requires n < |a|
    requires forall i :: 0 <= i < |a| ==> a[i] >= 0
    ensures Run(a, n).maxEndingAtN == Fields(0, n, Total(a, 0, n), 0)
    ensures Run(a, n).max == Fields(0, n, Total(a, 0, n), 0)
    decreases n
  {
    if n == 0 {
      assert Sum(a, 0, 0) == 0;
    } else {
      NonNegativeRunSpansPrefix(a, n - 1);
      SumNonNegative(a, 0, n);
      assert Total(a, 0, n) == Total(a, 0, n - 1) + a[n];
    }
  }

  /** Hence the single pass reports the whole of an array with no negative element. */
  lemma NonNegativeMaximumIsWhole(a: seq<int>)
    requires |a| > 0
    requires forall i :: 0 <= i < |a| ==> a[i] >= 0
    ensures Run(a, |a| - 1).max.start == 0 && Run(a, |a| - 1).max.end == |a| - 1
  {
    NonNegativeRunSpansPrefix(a, |a| - 1);
  }

  /**
   * The exhaustive scan need not: on [1, 0] the first maximum is [0..0],
   * because the whole array ties with it and comes later.
   */
  lemma NonNegativeFirstMaximumNotWhole(bf: Subarray)
    requires IsFirstMaximum([1, 0], bf)
    ensures bf.start == 0 && bf.end == 0
  {
    var a := [1, 0];
    assert Total(a, 0, 0) == 1;
    assert Total(a, 0, 1) == 1;
    assert Total(a, 1, 1) == 0;
  }

  /** Over negative elements, dropping the last element of a range raises its sum. */
  lemma ShorterIsLarger(a: seq<int>, s: int, e: int)
    requires forall i :: 0 <= i < |a| ==> a[i] < 0
    requires 0 <= s < e < |a|
    ensures Total(a, s, e - 1) > Total(a, s, e)
  {
  }

  /**
   * When every element is negative, a maximum subarray is a single element,
   * the largest one.
   */
  lemma {:induction false} AllNegativeMaximumIsSingle(a: seq<int>, m: Subarray)
    requires forall i :: 0 <= i < |a| ==> a[i] < 0
    requires IsMaximum(a, m)
    ensures m.start == m.end && m.sum == a[m.start]
    ensures forall i :: 0 <= i < |a| ==> a[i] <= m.sum
  {
    if m.start < m.end {
      ShorterIsLarger(a, m.start, m.end);
    }
    assert Sum(a, m.start, m.start) == 0;
    forall i | 0 <= i < |a|
      ensures a[i] <= m.sum
    {
      assert Sum(a, i, i) == 0;
      assert Total(a, i, i) == a[i];
    }
  }

  /** An array of mixed signs, [-2, 1, -3, 4, -1, 2, 1, -5, 4]. */
  function MixedSigns(): seq<int>
  {
    [-2, 1, -3, 4, -1, 2, 1, -5, 4]
  }

  /** The registers of the single pass on the mixed-signs array after each index. */
  function MixedSignsTrace(k: nat): Registers
  {
    match k
    case 0 => Registers(Fields(0, 0, -2, 0), Fields(0, 0, -2, 0))
    case 1 => Registers(Fields(1, 1, 1, 0), Fields(1, 1, 1, 0))
    case 2 => Registers(Fields(1, 1, 1, -3), Fields(1, 2, -2, 0))
    case 3 => Registers(Fields(3, 3, 4, 0), Fields(3, 3, 4, 0))
    case 4 => Registers(Fields(3, 3, 4, -1), Fields(3, 4, 3, 0))
    case 5 => Registers(Fields(3, 5, 5, 0), Fields(3, 5, 5, 0))
    case 6 => Registers(Fields(3, 6, 6, 0), Fields(3, 6, 6, 0))
    case 7 => Registers(Fields(3, 6, 6, -5), Fields(3, 7, 1, 0))
    case _ => Registers(Fields(3, 6, 6, -1), Fields(3, 8, 5, 0))
  }

  /** Each iteration on the mixed-signs array moves the trace one index on. */
  lemma MixedSignsStep(n: nat)
    requires 0 < n < 9
    ensures MixedSignsTrace(n - 1).maxEndingAtN.end < n && MixedSignsTrace(n - 1).max.end < n
    ensures Step(MixedSigns(), MixedSignsTrace(n - 1), n) == MixedSignsTrace(n)
  {
    var a := MixedSigns();
    assert a[n] == [-2, 1, -3, 4, -1, 2, 1, -5, 4][n];
  }

  /** The single pass on the mixed-signs array follows the trace. */
  lemma {:induction false} MixedSignsRun(k: nat)
    requires k < 9
    ensures Run(MixedSigns(), k) == MixedSignsTrace(k)
  {
    if k > 0 {
      MixedSignsRun(k - 1);
      MixedSignsStep(k);
    }
  }

  /**
   * Worked example, mixed signs: the best range is indices 3..6, with sum 6;
   * its debt, -1, is the sum of the two elements after it.
   */
  lemma MixedSignsExample()
    ensures Run(MixedSigns(), 8).max == Fields(3, 6, 6, -1)
  {
    MixedSignsRun(8);
  }

  /** On [-1, -2, -3] the only maximum subarray is the first element. */
  lemma AllNegativeMaximum(a: seq<int>, m: Subarray)
    requires a == [-1, -2, -3] && IsMaximum(a, m)
    ensures m.start == 0 && m.end == 0 && m.sum == -1
  {
    assert a[0] == -1 && a[1] == -2 && a[2] == -3;
    AllNegativeMaximumIsSingle(a, m);
  }

  /** Worked example, all negative: the largest element alone, here the first. */
  lemma AllNegativeExample(a: seq<int>)
    requires a == [-1, -2, -3]
    ensures Run(a, 2).max.start == 0 && Run(a, 2).max.end == 0 && Run(a, 2).max.sum == -1
  {
    RunInvariant(a, 2);
    AllNegativeMaximum(a, Run(a, 2).max);
  }

  /** Worked example, all positive: the whole array, with sum 10. */
  lemma AllPositiveExample(a: seq<int>)
    requires a == [1, 2, 3, 4]
    ensures Run(a, 3).max == Fields(0, 3, 10, 0)
  {
    NonNegativeRunSpansPrefix(a, 3);
    assert Total(a, 0, 3) == 10 by {
      assert Sum(a, 0, 0) == 0 && Sum(a, 0, 1) == 1 && Sum(a, 0, 2) == 3 && Sum(a, 0, 3) == 6;
    }
  }

  /** Worked example, a single element: it is its own maximum. */
  lemma SingletonExample(a: seq<int>)
    requires a == [5]
    ensures Run(a, 0).max == Fields(0, 0, 5, 0)
  {
  }
}
