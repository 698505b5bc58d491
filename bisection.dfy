/**
 * The bisection driver `binary_search` and the `Direction` a caller's
 * classifier returns for each candidate value.
 */
module Bisection {
  import opened Wrappers
  import opened Midpoint

  /** The classifier's verdict on one candidate, with a caller-chosen witness. */
  datatype Direction<A, B> = Low(a: A) | High(b: B)

  /** `f` may be applied to every value strictly between `lo` and `hi`. */
  ghost predicate DefinedInside<A, B>(f: Usize --> Direction<A, B>, lo: int, hi: int)
  {
    forall x: Usize :: lo < x < hi ==> f.requires(x)
  }

  /**
   * One narrowing step of `binary_search`: the side named by the verdict
   * `d` on the midpoint `x` is replaced by `(x, witness)`.
   */
  function Narrow<A, B>(low: (Usize, A), high: (Usize, B), x: Usize, d: Direction<A, B>)
    : (r: ((Usize, A), (Usize, B)))
    requires low.0 < x < high.0
    ensures d.Low? ==> r.0 == (x, d.a) && r.1 == high
    ensures d.High? ==> r.0 == low && r.1 == (x, d.b)
    ensures low.0 <= r.0.0 < r.1.0 <= high.0
    ensures r.1.0 - r.0.0 < high.0 - low.0
  {
    match d
    case Low(a) => ((x, a), high)
    case High(b) => (low, (x, b))
  }

  /**
   * `binary_search(low, high, f)`. The classifier need only be defined
   * strictly inside the initial bracket: the driver never asks it about
   * anything else.
   */
  function BinarySearch<A, B>(low: (Usize, A), high: (Usize, B), f: Usize --> Direction<A, B>)
    : (r: ((Usize, A), (Usize, B)))
    requires DefinedInside(f, low.0, high.0)
    decreases high.0 - low.0
    // on exit no midpoint is left, whatever the start (see SearchEndsAdjacent)
    ensures r.1.0 <= r.0.0 + 1
    // the low bound never decreases and the high bound never increases
    ensures low.0 <= r.0.0 && r.1.0 <= high.0
    // from a proper bracket the result is two adjacent values
    ensures low.0 < high.0 ==> r.0.0 < r.1.0 && r.1.0 == r.0.0 + 1
    // an adjacent or inverted start is returned as given
    ensures Between(low.0, high.0).None? ==> r == (low, high)
    // each side is either untouched or the last verdict f gave for its value
    ensures r.0 == low || (low.0 < r.0.0 < high.0 && f(r.0.0) == Low(r.0.1))
    ensures r.1 == high || (low.0 < r.1.0 < high.0 && f(r.1.0) == High(r.1.1))
  {
    match Between(low.0, high.0)
    case None => (low, high)
    case Some(x) =>
      var n := Narrow(low, high, x, f(x));
      BinarySearch(n.0, n.1, f)
  }

  /** `between` finds no midpoint in the bracket `BinarySearch` returns. */
  lemma SearchEndsAdjacent<A, B>(low: (Usize, A), high: (Usize, B), f: Usize --> Direction<A, B>)
    requires DefinedInside(f, low.0, high.0)
    ensures var r := BinarySearch(low, high, f); Between(r.0.0, r.1.0) == None
  {
  }

  /**
   * The candidates `BinarySearch(low, high, f)` hands to `f`, in order.
   * They lie strictly inside the initial bracket.
   */
  ghost function Probes<A, B>(low: (Usize, A), high: (Usize, B), f: Usize --> Direction<A, B>)
    : (p: seq<Usize>)
    requires DefinedInside(f, low.0, high.0)
    decreases high.0 - low.0
    ensures forall x :: x in p ==> low.0 < x < high.0
    ensures p == [] <==> high.0 <= low.0 + 1
  {
    match Between(low.0, high.0)
    case None => []
    case Some(x) =>
      var n := Narrow(low, high, x, f(x));
      [x] + Probes(n.0, n.1, f)
  }

  /** No value occurs twice in `s`. */
  ghost predicate NoRepeats(s: seq<Usize>)
  {
    forall i, j :: 0 <= i < j < |s| ==> s[i] != s[j]
  }

  /** No candidate is handed to `f` twice. */
  lemma {:induction false} ProbesDistinct<A, B>(low: (Usize, A), high: (Usize, B), f: Usize --> Direction<A, B>)
    requires DefinedInside(f, low.0, high.0)
    decreases high.0 - low.0
    ensures NoRepeats(Probes(low, high, f))
  {
    match Between(low.0, high.0)
    case None =>
      assert Probes(low, high, f) == [];
    case Some(x) =>
      var n := Narrow(low, high, x, f(x));
      var p, p' := Probes(low, high, f), Probes(n.0, n.1, f);
      assert p == [x] + p';
      ProbesDistinct(n.0, n.1, f);
      // the later candidates lie strictly inside a bracket that has x as an end
      assert x !in p';
      forall i, j | 0 <= i < j < |p|
        ensures p[i] != p[j]
      {
        assert p[j] == p'[j - 1] && p'[j - 1] in p';
        if i == 0 {
          assert p[i] == x;
        } else {
          assert p[i] == p'[i - 1] && p'[i - 1] != p'[j - 1];
        }
      }
  }

  /**
   * The returned low value is the largest candidate `f` classified Low
   * (or the initial low value), and the returned high value the smallest
   * candidate classified High (or the initial high value).
   */
  lemma {:induction false} ResultBoundsProbes<A, B>(low: (Usize, A), high: (Usize, B), f: Usize --> Direction<A, B>)
    requires DefinedInside(f, low.0, high.0)
    decreases high.0 - low.0
    ensures var r, p := BinarySearch(low, high, f), Probes(low, high, f);
      && (forall x :: x in p && f(x).Low? ==> x <= r.0.0)
      && (forall x :: x in p && f(x).High? ==> r.1.0 <= x)
      && (r.0.0 != low.0 ==> r.0.0 in p)
      && (r.1.0 != high.0 ==> r.1.0 in p)
  {
    match Between(low.0, high.0)
    case None =>
      assert BinarySearch(low, high, f) == (low, high);
      assert Probes(low, high, f) == [];
    case Some(x) =>
      var n := Narrow(low, high, x, f(x));
      assert BinarySearch(low, high, f) == BinarySearch(n.0, n.1, f);
      assert Probes(low, high, f) == [x] + Probes(n.0, n.1, f);
      ResultBoundsProbes(n.0, n.1, f);
  }

  /** `2^k`. */
  function Pow2(k: nat): (r: nat)
    ensures r > 0
  {
    if k == 0 then 1 else 2 * Pow2(k - 1)
  }

  /**
   * If `k'` calls fit in a gap `g'` that is at most half of `g`, rounded
   * up (`2 * g' <= g + 1`), then `k' + 1` calls fit in `g`.
   */
  lemma HalvingFits(k: nat, k': nat, g: int, g': int)
    requires k == k' + 1
    requires g >= 2 && 2 * g' <= g + 1
    requires k' == 0 || Pow2(k' - 1) < g'
    ensures k == 0 || Pow2(k - 1) < g
  {
  }

  /**
   * `f` is called at most `ceil(log2(high - low))` times: `k` calls need
   * a gap larger than `2^(k-1)`.
   */
  lemma {:induction false} ProbeCountBound<A, B>(low: (Usize, A), high: (Usize, B), f: Usize --> Direction<A, B>)
    requires low.0 < high.0
    requires DefinedInside(f, low.0, high.0)
    decreases high.0 - low.0
    ensures var k := |Probes(low, high, f)|; k == 0 || Pow2(k - 1) < high.0 - low.0
  {
    match Between(low.0, high.0)
    case None =>
      assert Probes(low, high, f) == [];
    case Some(x) =>
      var n := Narrow(low, high, x, f(x));
      var k, k' := |Probes(low, high, f)|, |Probes(n.0, n.1, f)|;
      var g, g' := high.0 - low.0, n.1.0 - n.0.0;
      assert k == k' + 1;
      ProbeCountBound(n.0, n.1, f);
      HalvingFits(k, k', g, g');
  }

  /**
   * For a threshold classifier (Low exactly below `t` inside the bracket)
   * with `low < t <= high`, the result is the pair `t - 1`, `t`: the
   * largest value classified Low and the smallest classified High.
   */
  lemma ThresholdSearch<A, B>(low: (Usize, A), high: (Usize, B), f: Usize --> Direction<A, B>, t: int)
    requires low.0 < t <= high.0
    requires DefinedInside(f, low.0, high.0)
    requires forall x: Usize :: low.0 < x < high.0 ==> (f(x).Low? <==> x < t)
    ensures var r := BinarySearch(low, high, f); r.0.0 == t - 1 && r.1.0 == t
  {
    // Follows from the contract of BinarySearch alone: the result is
    // adjacent, a moved low side was classified Low (so lies below t) and
    // a moved high side was classified High (so lies at or above t).
  }
}
