/** Rust's `Option`, as returned by the midpoint operator. */
module Wrappers {
  datatype Option<T> = None | Some(value: T)
}

/**
 * The overflow-safe midpoint operator `Betweenable::between`, for one
 * concrete width: the 64-bit unsigned `usize`.
 */
module Midpoint {
  import opened Wrappers

  /** `usize::max_value()` on a 64-bit target. */
  const MAX: int := 0xFFFF_FFFF_FFFF_FFFF

  /**
   * A `usize`. Every value bound to this type is checked to lie in
   * 0..MAX, so an arithmetic step that would overflow fails to verify.
   */
  type Usize = x: int | 0 <= x <= MAX

  /** `x >> 1` on an unsigned value: the lowest bit is dropped. */
  function Shr1(x: Usize): (r: Usize)
    ensures 2 * r <= x <= 2 * r + 1
  {
    x / 2
  }

  /**
   * `a & b & 1`: 1 when both lowest bits are set, else 0. This is the
   * carry out of adding the two lowest bits, the part of `a + b` that
   * `(a >> 1) + (b >> 1)` loses.
   */
  function LowBitAnd(a: Usize, b: Usize): (r: Usize)
    ensures 2 * r <= a % 2 + b % 2 <= 2 * r + 1
  {
    if a % 2 == 1 && b % 2 == 1 then 1 else 0
  }

  /**
   * `between(low, high)`: no midpoint when `high <= low + 1`, otherwise
   * `(low >> 1) + (high >> 1) + (low & high & 1)`. Each intermediate value
   * is bound at type Usize, which is the no-overflow argument. The source
   * forms the successor `low + 1` unguarded, which overflows at
   * `low == MAX` (see BetweenWrapping); here that case answers `None`,
   * as `high <= low + 1` does in unbounded arithmetic.
   */
  function Between(low: Usize, high: Usize): (r: Option<Usize>)
    ensures r.None? <==> high <= low + 1
    ensures r.Some? ==> low < r.value < high
    // the floor of the mean, stated without division
    ensures r.Some? ==> 2 * r.value <= low + high <= 2 * r.value + 1
  {
    if low == MAX then
      None
    else
      var succ: Usize := low + 1;
      if high <= succ then
        None
      else
        var halves: Usize := Shr1(low) + Shr1(high);
        var mid: Usize := halves + LowBitAnd(low, high);
        Some(mid)
  }

  /**
   * `between` as a release build runs it: the successor `low + 1` wraps
   * around to 0 at `low == MAX`. (A debug build panics there instead.)
   */
  function BetweenWrapping(low: Usize, high: Usize): (r: Option<Usize>)
    // below MAX it is the operator above
    ensures low < MAX ==> r == Between(low, high)
  {
    var succ: Usize := (low + 1) % (MAX + 1);
    if high <= succ then
      None
    else
      var halves: Usize := Shr1(low) + Shr1(high);
      var mid: Usize := halves + LowBitAnd(low, high);
      Some(mid)
  }

  /**
   * At `low == high == MAX` the wrapped successor is 0, so the midpoint
   * `MAX` is reported, which is not strictly inside the bracket:
   * `binary_search` then hands `MAX` to `f` and recurses on an unchanged
   * bracket. The guarded operator answers `None` there.
   */
  lemma WrappingBetweenAtMax()
    ensures BetweenWrapping(MAX, MAX) == Some(MAX)
    ensures Between(MAX, MAX) == None
  {
  }

  /** The values that the unit test `split_usize` expects. */
  lemma BetweenExamples()
    ensures Between(1, 0) == None
    ensures Between(1, 1) == None
    ensures Between(1, 2) == None
    ensures Between(1, 3) == Some(2)
    ensures Between(MAX - 3, MAX - 1) == Some(MAX - 2)
    ensures Between(MAX - 2, MAX) == Some(MAX - 1)
  {
  }
}
