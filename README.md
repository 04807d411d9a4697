# Maximum subarray: a verified model of `dp/MaximumSubarray.java`

The Java program solves the maximum-subarray problem from CLRS. Given an
array of integers, it finds a contiguous range whose elements have the
greatest sum. It has two solvers built on one immutable value class,
`Subarray`:

- an exhaustive solver, `maximumBruteForce`, which sums every range afresh;
- a single-pass solver, `maximum`, in the style of Kadane's algorithm.

A `Subarray` has four fields:

- `start` and `end`, the range (both inclusive);
- `sum`, the sum of the elements inside the range;
- `debt`, the sum of the elements after `end` that have been charged to it
  but not yet folded into the range.

The single-pass solver keeps two running `Subarray`s:

- `maxEndingAtN`, the best range ending at the current index;
- `max`, the best range so far.

At each index it charges the new element to `max` as debt with `adjust`, and
it also tries `extend`, which folds the debt and the element into the range.

The model has five files, one module each:

- `wrappers.dfy` (`Wrappers`): `Option`, `Result`, and the `Error` kinds
  that stand for the Java exceptions.
- `array_utils.dfy` (`ArrayUtils`): `Sum`, the reference half-open range sum;
  the summing loop `ArrayUtils.sum` as a method over an `array<int>`; and the
  lemma that a range sum splits at any point.
- `subarray.dfy` (`Subarrays`): the `Subarray` value and its operations.
  - The `Fields` datatype holds the four fields.
  - The subset type `Subarray` holds the fields that the constructor admits
    (`0 <= start <= end`).
  - The factories and transformations are functions that return a `Result`
    where Java can throw.
  - `fromRange` is a method, because it calls the summing loop.
- `solvers.dfy` (`Solvers`): the two solvers and the `Algorithm` selector.
  - Both solvers are methods with loops over an `array<int>`.
  - The exhaustive solver has the same nested loops as the source. It is
    proved to return the first maximum in (start, end) order.
  - The single-pass solver's loop is proved equal to `Run`, a recursive
    function that gives the two registers after each index.
  - The lemma `RunInvariant` proves the solver's invariant about `Run`:
    both registers hold true sums, `maxEndingAtN` is the best range ending
    at `n`, `max` is the best range in `a[0..n]`, and `max.debt` is the sum
    of the elements after `max.end` up to `n`.
- `properties.dfy` (`SolverProperties`):
  - the two solvers agree on the sum and can disagree on the range;
  - the results on all-negative and all-non-negative inputs;
  - worked examples, including one on an array of mixed signs.

Java `int` arithmetic is modelled with unbounded `int`.

Behaviour of the code that is easy to misread:

- **Tie-breaks go to the later argument, not the earlier one.**
  `max(a, b)` returns `b` when the sums are equal. `max(a, b, c)` returns
  the last argument with the greatest sum. `Max2` and `Max3` state this.
- **The solvers may report different ranges.** On `[0, 0]` the exhaustive
  solver returns `[0..0]` (replacement needs a strictly larger sum). The
  single pass returns `[0..1]` (`SolversDisagreeOnRange`). They always
  agree on the sum (`SolversAgreeOnSum`).
- **With no negative element, only the single pass reports the whole
  array** (`NonNegativeMaximumIsWhole`). The exhaustive solver returns
  `[0..0]` on `[1, 0]`, because the whole array only ties with it
  (`NonNegativeFirstMaximumNotWhole`).
- **What `debt` covers.** The class comment says `debt` covers the
  elements "to the end of the array". During the pass it covers the
  elements up to the current index, which is what the field comment says
  (`BestUpTo`). Only for the final result is it the sum up to the end of
  the array, and `Solvers.Maximum` states this.
- **`ofElement` with an index outside the array.** It fails on the array
  read (`IndexOutOfBounds`). The model does not leave this to the caller.
- **`fromRange` checks in two places.** The sum is computed before the
  constructor's check. A non-empty range outside the array therefore
  fails as `IndexOutOfBounds`, and an inverted range (`end < start`) fails
  as `InvalidRange`.

## Model

| member | source | states |
|---|---|---|
| `ArrayUtils.SumRange` | dp/MaximumSubarray.java:325-331 | an empty or inverted range gives 0; otherwise it succeeds exactly when `0 <= start` and `end <= length`, and then returns the sum of `a[start..end)` |
| `ArrayUtils.SumAll` | dp/MaximumSubarray.java:321-323 | returns the sum of the whole array |
| `ArrayUtils.SumSplit` | dp/MaximumSubarray.java:325-331 | the range sum over `[lo, hi)` is the sum over `[lo, mid)` plus the sum over `[mid, hi)` |
| `Subarrays.New` | dp/MaximumSubarray.java:157-165 | succeeds exactly when `0 <= start <= end` and keeps the four fields; otherwise fails with `InvalidRange` |
| `Subarrays.Size` | dp/MaximumSubarray.java:213-215 | the size is at least 1 and `start + size == end + 1` |
| `Subarrays.OfElement` | dp/MaximumSubarray.java:176-178 | succeeds exactly when the index is inside the array; the result covers only that index, has size 1 and no debt, and its sum is the element (the true range sum) |
| `Subarrays.FromRange` | dp/MaximumSubarray.java:180-182 | succeeds exactly when `0 <= start <= end < length`; the result covers `[start, end]` with its true sum and no debt; otherwise `IndexOutOfBounds` for a non-empty range and `InvalidRange` for an inverted one |
| `Subarrays.Adjust` | dp/MaximumSubarray.java:184-193 | start, end and sum are unchanged; the debt grows by the adjustment |
| `Subarrays.Extend` | dp/MaximumSubarray.java:195-211 | fails with `InvalidExtension` exactly when `j <= end`; otherwise keeps start, sets end to `j`, folds the old debt and the value into the sum, and clears the debt |
| `Subarrays.Max2` | dp/MaximumSubarray.java:231-233 | returns one of its arguments with the greater sum, the second one when the sums are equal |
| `Subarrays.Max3` | dp/MaximumSubarray.java:226-230 | returns one of its arguments with the greatest sum, the last such one when sums are equal |
| `Subarrays.Max3IsMax2Twice` | dp/MaximumSubarray.java:226-233 | the three-way maximum equals `Max2(Max2(a, b), c)` |
| `Subarrays.AdjustZero` | dp/MaximumSubarray.java:191-193 | adjusting by 0 is the identity, so it never changes which candidate a two-way maximum picks |
| `Subarrays.AdjustTracksDebt` | dp/MaximumSubarray.java:150-155 | if the debt is the sum of the elements after `end` up to `j - 1`, then adjusting by `a[j]` makes it the sum up to `j`, and the range stays accurate |
| `Subarrays.ExtendIsAccurate` | dp/MaximumSubarray.java:205-211 | extending an accurate Subarray whose debt covers the elements after `end` up to `j - 1` by `a[j]` succeeds, and the result's sum is the true sum of `[start, j]` |
| `Solvers.MaximumBruteForce` | dp/MaximumSubarray.java:237-258 | fails with `EmptyInput` on an empty array; otherwise the result has a true sum and no debt, no range has a larger sum, and every earlier range in (start, end) order has a strictly smaller sum |
| `Solvers.Step` | dp/MaximumSubarray.java:273-278 | after the iteration at `n`, `maxEndingAtN` ends at `n` and `max` ends at or before `n` |
| `Solvers.Run` | dp/MaximumSubarray.java:266-279 | after processing `a[0..n]`, `maxEndingAtN` ends at `n` and `max` ends at or before `n`, so every `extend` in the loop succeeds |
| `Solvers.StepKeepsBestEndingAt` | dp/MaximumSubarray.java:273-274 | the better of `a[n]` alone and the best range ending at `n - 1` extended to `n` is an accurate, debt-free best range ending at `n` |
| `Solvers.StepKeepsBestUpTo` | dp/MaximumSubarray.java:276-278 | the best of the charged, the extended and the best-ending-at-`n` candidates is an accurate best range of `a[0..n]` whose debt is the sum of the elements after its end up to `n` |
| `Solvers.RunInvariant` | dp/MaximumSubarray.java:262-282 | at every index both registers hold true sums; `maxEndingAtN` is debt-free and the best range ending at `n`; `max` is the best range in `a[0..n]` and its debt is the sum of the elements after its end up to `n` |
| `Solvers.RunIsMaximum` | dp/MaximumSubarray.java:262-282 | after the last index the `max` register is an accurate subarray that no range of the array exceeds, and its debt is the sum of the elements after it to the end of the array |
| `Solvers.Maximum` | dp/MaximumSubarray.java:262-282 | fails with `EmptyInput` on an empty array; otherwise returns the `max` register of `Run` at the last index, which is a maximum subarray whose debt is the sum of the elements after it to the end of the array |
| `Solvers.Algorithm.Solve` | dp/MaximumSubarray.java:35-80 | both algorithms fail with `EmptyInput` exactly on an empty array and otherwise return a maximum subarray; brute force returns the first maximum, dynamic programming returns the single pass's result |
| `SolverProperties.MaximaAgreeOnSum` | dp/MaximumSubarray.java:237-282 | any two maximum subarrays of one array have the same sum |
| `SolverProperties.SolversAgreeOnSum` | dp/MaximumSubarray.java:237-282 | the exhaustive solver's result and the single pass's result have the same sum |
| `SolverProperties.FirstMaximumIsUnique` | dp/MaximumSubarray.java:244-255 | the first maximum is unique, so the exhaustive solver's result is determined by the array |
| `SolverProperties.SolversDisagreeOnRange` | dp/MaximumSubarray.java:226-233 | on `[0, 0]` the exhaustive solver's result is `[0..0]` while the single pass reports `[0..1]` |
| `SolverProperties.NonNegativeRunSpansPrefix` | dp/MaximumSubarray.java:271-279 | with no negative element, both registers after index `n` cover `[0, n]` with its true sum and no debt |
| `SolverProperties.NonNegativeMaximumIsWhole` | dp/MaximumSubarray.java:262-282 | with no negative element, the single pass reports the whole array |
| `SolverProperties.NonNegativeFirstMaximumNotWhole` | dp/MaximumSubarray.java:250-252 | on `[1, 0]` the exhaustive solver's result is `[0..0]`, not the whole array |
| `SolverProperties.AllNegativeMaximumIsSingle` | dp/MaximumSubarray.java:237-282 | when every element is negative, a maximum subarray has one element, and that element is the largest in the array |
| `SolverProperties.MixedSignsExample` | dp/MaximumSubarray.java:262-282 | on `[-2, 1, -3, 4, -1, 2, 1, -5, 4]` the single pass reports indices 3..6 with sum 6 and debt -1 |
| `SolverProperties.AllNegativeExample` | dp/MaximumSubarray.java:262-282 | on `[-1, -2, -3]` the single pass reports index 0 alone, with sum -1 |
| `SolverProperties.AllPositiveExample` | dp/MaximumSubarray.java:262-282 | on `[1, 2, 3, 4]` the single pass reports the whole array, with sum 10 |
| `SolverProperties.SingletonExample` | dp/MaximumSubarray.java:266-267 | on `[5]` the single pass reports that element, with sum 5 |

## Left out

- `RandomIntegers` (lines 9-25) is left out. It uses a random number generator and writes to standard output.
- `MaximumSubarray.main` and `parseStandardIn` (lines 83-131) are left out. They handle command-line arguments, usage text, `System.exit` and reading standard input. The fallback to dynamic programming for an unknown selector lives there too.
- `Algorithm.fromString` and `availableAlgorithms` (lines 55-72) are left out. They look up and list the selector strings.
- `ArrayUtils.parse` (lines 289-303) is left out. It relies on the library's decimal integer parser.
- `Subarray.toString` and `ArrayUtils.toString` (lines 217-224, 305-319) are left out. They only format text.
- Java's 32-bit `int` arithmetic is not modelled. The model uses unbounded integers, so `sum + debt + value` in `extend`, `debt + debtAdjustment` in `adjust`, the summing loop and `end + 1` in `fromRange` never wrap around. The model is faithful to the source only for inputs whose range sums fit in 32 bits.
- Exceptions are modelled as `Err` results that carry the failure kind. The exception messages are not modelled.
