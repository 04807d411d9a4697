/**
 * The two maximum-subarray solvers (the maximum-subarray problem of CLRS):
 * an exhaustive scan over every range and a single left-to-right pass that
 * keeps two running Subarrays, and the selector that dispatches to them.
 */
module Solvers {
  import opened Wrappers
  import opened ArrayUtils
  import opened Subarrays

  /** m is an accurate range of a whose sum no range of a exceeds. */
  predicate IsMaximum(a: seq<int>, m: Subarray)
  {
    Accurate(a, m) && forall s, e :: 0 <= s <= e < |a| ==> Total(a, s, e) <= m.sum
  }

  /** (s, e) comes strictly before (s', e') in the order start, then end. */
  predicate Before(s: int, e: int, s': int, e': int)
  {
    s < s' || (s == s' && e < e')
  }

  /**
   * m is a maximum subarray of a with no debt, and every range before it in
   * (start, end) order has a strictly smaller sum: the first maximum found.
   */
  predicate IsFirstMaximum(a: seq<int>, m: Subarray)
  {
    IsMaximum(a, m) && m.debt == 0 &&
    forall s, e :: 0 <= s <= e < |a| && Before(s, e, m.start, m.end) ==> Total(a, s, e) < m.sum
  }

  /**
   * The state of the exhaustive scan when it is about to look at (start, end):
   * m is the first maximum among the ranges already visited.
   */
  ghost predicate BestBefore(a: seq<int>, m: Subarray, start: int, end: int)
  {
    Accurate(a, m) && m.debt == 0 && Before(m.start, m.end, start, end) &&
    (forall s, e :: 0 <= s <= e < |a| && Before(s, e, start, end) ==> Total(a, s, e) <= m.sum) &&
    (forall s, e :: 0 <= s <= e < |a| && Before(s, e, m.start, m.end) ==> Total(a, s, e) < m.sum)
  }

  /**
   * Tries every range [start, end] in increasing start, then increasing end,
   * computing each sum afresh, and replaces the best one only by a strictly
   * larger sum. Fails on an empty array.
   */
  method MaximumBruteForce(a: array<int>) returns (r: Result<Subarray>)
    ensures a.Length == 0 ==> r == Err(EmptyInput)
    ensures a.Length > 0 ==> r.Ok? && IsFirstMaximum(a[..], r.value)
  {
    if a.Length == 0 {
      return Err(EmptyInput);
    }
    var max: Option<Subarray> := None;
    for start := 0 to a.Length
      invariant max.None? <==> start == 0
      invariant max.Some? ==> BestBefore(a[..], max.value, start, start)
    {
      for end := start to a.Length
        invariant max.None? <==> start == 0 && end == start
        invariant max.Some? ==> BestBefore(a[..], max.value, start, end)
      {
        if max.None? {
          var first := FromRange(a, start, end);
          max := Some(first.value);
        } else {
          var test := FromRange(a, start, end);
          if test.value.sum > max.value.sum {
            max := Some(test.value);
          }
        }
      }
      assert BestBefore(a[..], max.value, start + 1, start + 1);
    }
    return Ok(max.value);
  }

  /** The two running Subarrays of the single-pass solver. */
  datatype Registers = Registers(max: Subarray, maxEndingAtN: Subarray)

  /** One iteration of the single-pass solver, at index n. */
  function Step(a: seq<int>, r: Registers, n: int): (r': Registers)
    requires 0 < n < |a| && r.maxEndingAtN.end < n && r.max.end < n
    ensures r'.maxEndingAtN.end == n && r'.max.end <= n
  {
    var maxEndingAtN := Max2(OfElement(a, n).value, Extend(r.maxEndingAtN, a[n], n).value);
    var max := Max3(Adjust(r.max, a[n]), Extend(r.max, a[n], n).value, maxEndingAtN);
    Registers(max, maxEndingAtN)
  }

  /** The registers after the single-pass solver has processed a[0..n]. */
  function Run(a: seq<int>, n: nat): (r: Registers)
    requires n < |a|
    ensures r.maxEndingAtN.end == n && r.max.end <= n
    decreases n
  {
    if n == 0 then Registers(OfElement(a, 0).value, OfElement(a, 0).value)
    else Step(a, Run(a, n - 1), n)
  }

  /** m is the best subarray of a ending at n, and carries no debt. */
  ghost predicate BestEndingAt(a: seq<int>, n: int, m: Subarray)
    requires 0 <= n < |a|
  {
    Accurate(a, m) && m.end == n && m.debt == 0 &&
    forall s :: 0 <= s <= n ==> Total(a, s, n) <= m.sum
  }

  /**
   * m is the best subarray of a[0..n], and its debt is the sum of the
   * elements after its end up to and including n.
   */
  ghost predicate BestUpTo(a: seq<int>, n: int, m: Subarray)
    requires 0 <= n < |a|
  {
    Accurate(a, m) && m.end <= n && m.debt == Sum(a, m.end + 1, n + 1) &&
    forall s, e :: 0 <= s <= e <= n ==> Total(a, s, e) <= m.sum
  }

  /** The best range ending at n - 1, extended or restarted, is the best ending at n. */
  lemma StepKeepsBestEndingAt(a: seq<int>, n: int, meh: Subarray)
    requires 0 < n < |a| && BestEndingAt(a, n - 1, meh)
    ensures BestEndingAt(a, n, Max2(OfElement(a, n).value, Extend(meh, a[n], n).value))
  {
    assert Sum(a, n, n) == 0;
    ExtendIsAccurate(a, meh, n);
    var meh' := Max2(OfElement(a, n).value, Extend(meh, a[n], n).value);
    forall s | 0 <= s < n
      ensures Total(a, s, n) <= meh'.sum
    {
      assert Total(a, s, n) == Total(a, s, n - 1) + a[n];
    }
  }

  /**
   * The best of the previous overall best charged a[n], the previous overall
   * best extended to n, and the best range ending at n, is the best of a[0..n],
   * and its debt covers the elements after its end up to n.
   */
  lemma StepKeepsBestUpTo(a: seq<int>, n: int, mx: Subarray, meh': Subarray)
    requires 0 < n < |a| && BestUpTo(a, n - 1, mx) && BestEndingAt(a, n, meh')
    ensures BestUpTo(a, n, Max3(Adjust(mx, a[n]), Extend(mx, a[n], n).value, meh'))
  {
    assert Sum(a, n + 1, n + 1) == 0;
    AdjustTracksDebt(a, mx, n);
    ExtendIsAccurate(a, mx, n);
  }

  /** The invariant of the single-pass solver, kept at every index. */
  lemma {:induction false} RunInvariant(a: seq<int>, n: nat)
    requires n < |a|
    ensures BestEndingAt(a, n, Run(a, n).maxEndingAtN)
    ensures BestUpTo(a, n, Run(a, n).max)
    decreases n
  {
    if n == 0 {
      assert Sum(a, 1, 1) == 0;
    } else {
      var prev := Run(a, n - 1);
      RunInvariant(a, n - 1);
      StepKeepsBestEndingAt(a, n, prev.maxEndingAtN);
      StepKeepsBestUpTo(a, n, prev.max, Run(a, n).maxEndingAtN);
    }
  }

  /** The debt of m is the sum of the elements after it to the end of a. */
  predicate DebtCoversRest(a: seq<int>, m: Subarray)
  {
    m.end < |a| && m.debt == Sum(a, m.end + 1, |a|)
  }

  /**
   * After the last index the overall register is a maximum subarray, and its
   * debt is the sum of the elements after it to the end of the array.
   */
  lemma RunIsMaximum(a: seq<int>, m: Subarray)
    requires |a| > 0 && m == Run(a, |a| - 1).max
    ensures IsMaximum(a, m) && DebtCoversRest(a, m)
  {
    RunInvariant(a, |a| - 1);
    assert BestUpTo(a, |a| - 1, m);
  }

  /**
   * The single-pass solver. Both registers start as a[0]; at each later
   * index n the best range ending at n is the better of a[n] alone and the
   * previous one extended to n, and the best overall is the best of the
   * previous one charged a[n] as debt, the previous one extended to n
   * (folding its debt in), and the new best range ending at n. Fails on an
   * empty array.
   */
  method Maximum(a: array<int>) returns (r: Result<Subarray>)
    ensures a.Length == 0 ==> r == Err(EmptyInput)
    ensures a.Length > 0 ==> r == Ok(Run(a[..], a.Length - 1).max)
    ensures r.Ok? ==> IsMaximum(a[..], r.value) && DebtCoversRest(a[..], r.value)
  {
    if a.Length == 0 {
      return Err(EmptyInput);
    }
    ghost var s := a[..];
    var max := OfElement(a[..], 0).value;
    var maxEndingAtN := OfElement(a[..], 0).value;
    for n := 1 to a.Length
      invariant Registers(max, maxEndingAtN) == Run(s, n - 1)
    {
      maxEndingAtN := Max2(OfElement(a[..], n).value, Extend(maxEndingAtN, a[n], n).value);
      max := Max3(Adjust(max, a[n]), Extend(max, a[n], n).value, maxEndingAtN);
    }
    RunIsMaximum(s, max);
    return Ok(max);
  }

  /** The solver selector. */
  datatype Algorithm = BruteForce | DynamicProgramming
  {
    /** Gets a maximum subarray of a using this algorithm. */
    method Solve(a: array<int>) returns (r: Result<Subarray>)
      ensures a.Length == 0 ==> r == Err(EmptyInput)
      ensures a.Length > 0 ==> r.Ok? && IsMaximum(a[..], r.value)
      ensures this == BruteForce && r.Ok? ==> IsFirstMaximum(a[..], r.value)
      ensures this == DynamicProgramming && r.Ok? ==> r.value == Run(a[..], a.Length - 1).max
    {
      match this
      case BruteForce => r := MaximumBruteForce(a);
      case DynamicProgramming => r := Maximum(a);
    }
  }
}
