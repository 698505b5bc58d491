# binary-search, modelled in Dafny

A model of the `binary-search` Rust crate: an integer bisection that cannot overflow. The crate has two parts.

- `between(low, high)` is the midpoint operator. It returns no midpoint when `high <= low + 1`. Otherwise it returns `(low >> 1) + (high >> 1) + (low & high & 1)`, which is the floor of the mean, computed without ever forming `low + high`.
- `binary_search((low, a), (high, b), f)` is the bisection driver. It asks `between` for a midpoint and classifies that midpoint with the caller's `f` into `Direction::Low(witness)` or `Direction::High(witness)`. It replaces that one side of the bracket with `(midpoint, witness)`, and it stops when no midpoint is left.

Files:

- `midpoint.dfy`: module `Midpoint` (the `usize` value type and `between`) and a small `Wrappers` module holding `Option`.
- `bisection.dfy`: module `Bisection`, holding `Direction`, the driver `BinarySearch`, the trace `Probes` of the values handed to `f`, and the lemmas about the search.
- `examples_search.dfy`: module `SearchExamples`, holding the doc example and the unit tests of `src/lib.rs`, stated as lemmas.

Modelling choices:

- The value type is `usize` on a 64-bit target: `Usize = x: int | 0 <= x <= MAX` with `MAX = 2^64 - 1`.
  - `x >> 1` is `x / 2`.
  - `low & high & 1` is 1 exactly when both lowest bits are set, and 0 otherwise.
  - Every intermediate value of `between` is bound at type `Usize`, so verification shows that none of them leaves the range.
- `f` is a pure partial function `Usize --> Direction<A, B>`. `BinarySearch` requires only that `f` is defined strictly inside the initial bracket. That `BinarySearch` verifies at all is the proof that `f` is never applied anywhere else. This is also why the indexing tests can classify `values[i]` with `high = values.len()`.
- The recursion is kept as it is in the source, with `high - low` as the termination measure. The helper `Narrow` is the one-side replacement at src/lib.rs:110-112.

## Model

| member | source | states |
|---|---|---|
| `Midpoint.Shr1` | src/lib.rs:24 | `x >> 1` is the floor of `x / 2`: `2*r <= x <= 2*r + 1` |
| `Midpoint.LowBitAnd` | src/lib.rs:24 | `low & high & 1` is the carry out of adding the two lowest bits: `2*r <= low%2 + high%2 <= 2*r + 1` |
| `Midpoint.Between` | src/lib.rs:19-27 | result is `None` exactly when `high <= low + 1`; otherwise `low < mid < high` and `mid` is the floor of the mean (`2*mid <= low + high <= 2*mid + 1`); the successor and both partial sums stay within `0..MAX` (with the `low == MAX` guard of the Findings table) |
| `Midpoint.BetweenWrapping` | src/lib.rs:19-27 | the source's operator with the successor wrapping as in a release build; for every `low < MAX` it equals `Between` |
| `Midpoint.WrappingBetweenAtMax` | src/lib.rs:21-25 | the wrapping operator gives `between(MAX, MAX) = Some(MAX)`, which is not strictly inside the bracket; the guarded `Between` gives `None` |
| `Midpoint.BetweenExamples` | src/lib.rs:122-135 | `between(1,0)`, `between(1,1)`, `between(1,2)` are `None`; `between(1,3) = Some(2)`; `between(MAX-3, MAX-1) = Some(MAX-2)`; `between(MAX-2, MAX) = Some(MAX-1)` |
| `Bisection.Narrow` | src/lib.rs:110-112 | a Low verdict replaces only the low side with `(x, witness)`, a High verdict only the high side; the bracket stays ordered, stays inside the old one and strictly shrinks |
| `Bisection.BinarySearch` | src/lib.rs:103-115 | terminates; on exit `high <= low + 1`, so no midpoint is left; low never decreases and high never increases; a proper start `low < high` ends adjacent (`high == low + 1`); an adjacent or inverted start is returned unchanged, witnesses included; each returned side is either the initial one or a value strictly inside the initial bracket together with the witness `f` returned for it |
| `Bisection.SearchEndsAdjacent` | src/lib.rs:108-109 | `between` applied to the returned bounds gives `None` |
| `Bisection.Probes` | src/lib.rs:108-112 | every value handed to `f` lies strictly inside the initial bracket; `f` is never called exactly when `high <= low + 1` at the start |
| `Bisection.ProbesDistinct` | src/lib.rs:108-112 | no value is handed to `f` twice |
| `Bisection.ResultBoundsProbes` | src/lib.rs:83-87 | the returned low value is at least every value `f` classified Low, and the returned high value is at most every value classified High; a side that moved ends on a value that was classified |
| `Bisection.ProbeCountBound` | src/lib.rs:108-112 | from `low < high`, `f` is called at most `ceil(log2(high - low))` times, stated as: `k` calls imply `2^(k-1) < high - low` |
| `Bisection.ThresholdSearch` | src/lib.rs:41 | for `f` that says Low exactly below `t` inside the bracket, with `low < t <= high`, the result is `(t - 1, t)` |
| `SearchExamples.ThresholdExample` | src/lib.rs:138-147 | searching `(1, ())`..`(100, ())` with threshold 23 gives `((22, ()), (23, ()))` (also the doc example at src/lib.rs:91-101) |
| `SearchExamples.IndexExample` | src/lib.rs:150-163 | over `[0,4,5,6,7,9,456]` from `(0, ())` to `(len, ())` with "value < 6", `f` never reads index `len`, and the result is `((2, ()), (3, ()))` |
| `SearchExamples.WitnessExample` | src/lib.rs:166-179 | starting from `(0, "bar")`..`(4, true)`, the result is `((2, "baz"), (3, false))` |

## Findings

| source | as written | input that shows it | evidently intended | confidence | as-written member | corrected member |
|---|---|---|---|---|---|---|
| src/lib.rs:21 | the test `high <= low + one` forms `low + 1` without a guard | `between(MAX, MAX)`: a release build wraps `MAX + 1` to 0, so it returns `Some(MAX)`, and `binary_search((MAX, a), (MAX, b), f)` calls `f(MAX)` and recurses on the same bracket forever; a debug build panics | no midpoint whenever `high <= low + 1` in unbounded arithmetic, so `None` at `low == MAX` | medium, not executed | `Midpoint.BetweenWrapping`, `Midpoint.WrappingBetweenAtMax` | `Midpoint.Between` |

## Left out

- The generic `Betweenable` implementation for any type with `Shr`, `Add`, `BitAnd`, `From<u8>` and `PartialOrd` (src/lib.rs:3-18) is modelled for one width only: 64-bit `usize`.
- Midpoint.Between: at `low == MAX` the model answers `None`, where the source's `low + one` (src/lib.rs:21) overflows. A debug build panics there, and that panic is not modelled. The release build's wrap is modelled by `BetweenWrapping` (see Findings).
- Signed integer types and their arithmetic shift are not modelled.
- Any state the caller's `FnMut` closure keeps is not modelled. `f` is a pure function, so the model cannot express a classifier whose answer depends on earlier calls.
- Stack depth of the recursion is not modelled. It is bounded by `ProbeCountBound`.
- `dbg!` output and the Rust test harness are not modelled. The tests appear only as the expected values of the `SearchExamples` lemmas.
- The behaviour for non-monotone classifiers is not characterised beyond the properties that hold for every `f`, namely adjacency, narrowing, witness threading and `ResultBoundsProbes`.
- The unit tests at src/lib.rs:150-179 assert nothing about their results. The expected values in `IndexExample` and `WitnessExample` are the ones the algorithm computes. For the witness test they agree with the comments at src/lib.rs:177-178.
