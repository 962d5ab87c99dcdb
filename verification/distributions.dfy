/**
 The closed-form part of core/dists.py: the variance of a uniform
 distribution, and the bisection in `get_truncnorm_scale` that finds the
 scale of a truncated normal with a desired variance. The truncated-normal
 variance itself needs the normal CDF and PDF; here it is any function `f`
 from scale to variance, and nothing (not even monotonicity) is assumed
 about it.
 */
module Distributions {
  import opened Outcomes

  /** `UniformDist(a, b).variance()`: `(1 / 12) * (b - a) ** 2`. */
  function UniformVariance(a: real, b: real): (v: real)
    ensures 0.0 <= v
    ensures a == b ==> v == 0.0
  {
    (1.0 / 12.0) * ((b - a) * (b - a))
  }

  /**
   The variance depends only on the width of the interval: not on its
   orientation, not on its position, and it is the squared width times the
   variance of the unit interval, 1/12.
   */
  lemma UniformVarianceOfWidth(a: real, b: real, shift: real)
    ensures UniformVariance(a, b) == UniformVariance(b, a)
    ensures UniformVariance(a + shift, b + shift) == UniformVariance(a, b)
    ensures UniformVariance(0.0, 1.0) == 1.0 / 12.0
    ensures UniformVariance(a, b) == (b - a) * (b - a) * UniformVariance(0.0, 1.0)
  {
  }

  /** Scaling the interval by `k` scales the variance by `k * k`. */
  lemma UniformVarianceScales(a: real, b: real, k: real)
    ensures UniformVariance(k * a, k * b) == k * k * UniformVariance(a, b)
  {
  }

  // ---------------------------------------------------------------------
  // get_truncnorm_scale

  /** The initial bracket `[0.001, 100]`. */
  const Low0: real := 1.0 / 1000.0
  const High0: real := 100.0
  /** The first point tested, the midpoint of the initial bracket. */
  const Mid0: real := (Low0 + High0) / 2.0

  function Abs(x: real): real {
    if x < 0.0 then -x else x
  }

  /** `np.allclose(a, b)` on scalars: `|a - b| <= 1e-08 + 1e-05 * |b|`. */
  predicate Close(a: real, b: real) {
    Abs(a - b) <= 1.0 / 100000000.0 + (1.0 / 100000.0) * Abs(b)
  }

  /** The loop invariant: a sub-interval of the initial bracket whose ends straddle the target. */
  predicate Bracket(f: real -> real, desired: real, low: real, high: real) {
    Low0 <= low <= high <= High0 && f(low) <= desired <= f(high)
  }

  /**
   One loop iteration: evaluate `f` at the midpoint and replace the end on
   the same side of `desired` by it.
   */
  function Step(f: real -> real, desired: real, low: real, high: real): (r: (real, real))
    requires Bracket(f, desired, low, high)
    ensures Bracket(f, desired, r.0, r.1)
    ensures r.1 - r.0 == (high - low) / 2.0
    ensures low <= r.0 && r.1 <= high
    ensures (r.0 == low && r.1 == (low + high) / 2.0) || (r.0 == (low + high) / 2.0 && r.1 == high)
  {
    var mid := (low + high) / 2.0;
    if f(mid) > desired then (low, mid) else (mid, high)
  }

  /**
   The `while` loop, with `mid` the point whose value was evaluated last. The
   source loops until the values are close, with no bound; here `fuel` bounds
   the number of iterations and running out of it is `OutOfFuel`.
   */
  function Bisect(f: real -> real, desired: real, low: real, high: real, mid: real, fuel: nat)
    : (r: Result<real>)
    requires Bracket(f, desired, low, high) && low <= mid <= high
    ensures r.Ok? ==> low <= r.value <= high && Close(f(r.value), desired)
    ensures r.Err? ==> r.error == OutOfFuel
    decreases fuel
  {
    if Close(f(mid), desired) then Ok(mid)
    else if fuel == 0 then Err(OutOfFuel)
    else
      var next := Step(f, desired, low, high);
      Bisect(f, desired, next.0, next.1, (low + high) / 2.0, fuel - 1)
  }

  /**
   `get_truncnorm_scale(desired_var, ...)` over the variance function `f`:
   it refuses a target below `f(0.001)` or above `f(100)` instead of clamping,
   and otherwise returns a scale in `[0.001, 100]` whose variance is close to
   the target.
   */
  function GetTruncnormScale(f: real -> real, desired: real, fuel: nat): (r: Result<real>)
    ensures r == Err(LowTooHigh) <==> f(Low0) > desired
    ensures r == Err(HighTooLow) <==> f(Low0) <= desired && f(High0) < desired
    ensures r.Err? ==> r.error in {LowTooHigh, HighTooLow, OutOfFuel}
    ensures r.Ok? ==> Low0 <= r.value <= High0 && Close(f(r.value), desired)
    ensures f(Low0) <= desired <= f(High0) ==>
      (r.Err? <==> forall j :: 0 <= j <= fuel ==> !Close(f(Probe(f, desired, Low0, High0, Mid0, j)), desired))
    ensures f(Low0) <= desired <= f(High0) && r.Ok? ==>
      exists j :: 0 <= j <= fuel && r.value == Probe(f, desired, Low0, High0, Mid0, j)
        && forall i :: 0 <= i < j ==> !Close(f(Probe(f, desired, Low0, High0, Mid0, i)), desired)
  {
    if f(Low0) > desired then Err(LowTooHigh)
    else if f(High0) < desired then Err(HighTooLow)
    else
      BisectIsFirstPass(f, desired, Low0, High0, Mid0, fuel);
      Bisect(f, desired, Low0, High0, Mid0, fuel)
  }

  /** `width / 2^k`, computed by `k` halvings. */
  function Halved(width: real, k: nat): real
    decreases k
  {
    if k == 0 then width else Halved(width, k - 1) / 2.0
  }

  lemma {:induction false} HalvedOfHalf(width: real, k: nat)
    ensures Halved(width / 2.0, k) == Halved(width, k) / 2.0
    decreases k
  {
    if k > 0 {
      HalvedOfHalf(width, k - 1);
    }
  }

  /** The bracket after `k` iterations. */
  function Iterate(f: real -> real, desired: real, low: real, high: real, k: nat): (r: (real, real))
    requires Bracket(f, desired, low, high)
    ensures Bracket(f, desired, r.0, r.1)
    decreases k
  {
    if k == 0 then (low, high)
    else
      var next := Step(f, desired, low, high);
      Iterate(f, desired, next.0, next.1, k - 1)
  }

  /** Every iteration halves the bracket exactly, so after `k` of them its width is the initial width over `2^k`. */
  lemma {:induction false} IterateWidth(f: real -> real, desired: real, low: real, high: real, k: nat)
    requires Bracket(f, desired, low, high)
    ensures var r := Iterate(f, desired, low, high, k);
      r.1 - r.0 == Halved(high - low, k) && low <= r.0 && r.1 <= high
    decreases k
  {
    if k > 0 {
      var next := Step(f, desired, low, high);
      IterateWidth(f, desired, next.0, next.1, k - 1);
      HalvedOfHalf(high - low, k - 1);
    }
  }

  /**
   The `j`-th point the loop tests: `mid` first, then the midpoint of the
   bracket after `j - 1` iterations. The loop's first pass recomputes the
   initial midpoint, so when `mid` is that midpoint it is tested twice.
   */
  function Probe(f: real -> real, desired: real, low: real, high: real, mid: real, j: nat): real
    requires Bracket(f, desired, low, high)
  {
    if j == 0 then mid
    else
      var b := Iterate(f, desired, low, high, j - 1);
      (b.0 + b.1) / 2.0
  }

  /** After one iteration the remaining probes are those of the narrowed bracket. */
  lemma ProbeShift(f: real -> real, desired: real, low: real, high: real, mid: real, j: nat)
    requires Bracket(f, desired, low, high) && 1 <= j
    ensures var next := Step(f, desired, low, high);
      Probe(f, desired, low, high, mid, j) == Probe(f, desired, next.0, next.1, (low + high) / 2.0, j - 1)
  {
  }

  /**
   `Bisect` is the search the source loop performs: it fails exactly when
   none of the first `fuel + 1` probes passes `allclose`, and otherwise
   returns the first probe that does.
   */
  lemma {:induction false} BisectIsFirstPass(f: real -> real, desired: real, low: real, high: real, mid: real,
                                             fuel: nat)
    requires Bracket(f, desired, low, high) && low <= mid <= high
    ensures Bisect(f, desired, low, high, mid, fuel).Err? <==>
      forall j :: 0 <= j <= fuel ==> !Close(f(Probe(f, desired, low, high, mid, j)), desired)
    ensures Bisect(f, desired, low, high, mid, fuel).Ok? ==>
      exists j :: 0 <= j <= fuel && Bisect(f, desired, low, high, mid, fuel).value == Probe(f, desired, low, high, mid, j)
        && forall i :: 0 <= i < j ==> !Close(f(Probe(f, desired, low, high, mid, i)), desired)
    decreases fuel
  {
    assert Probe(f, desired, low, high, mid, 0) == mid;
    if !Close(f(mid), desired) && fuel > 0 {
      var next := Step(f, desired, low, high);
      var m := (low + high) / 2.0;
      BisectIsFirstPass(f, desired, next.0, next.1, m, fuel - 1);
      forall j | 1 <= j <= fuel
        ensures Probe(f, desired, low, high, mid, j) == Probe(f, desired, next.0, next.1, m, j - 1)
      {
        ProbeShift(f, desired, low, high, mid, j);
      }
      if Bisect(f, desired, low, high, mid, fuel).Ok? {
        var k :| 0 <= k <= fuel - 1 && Bisect(f, desired, next.0, next.1, m, fuel - 1).value == Probe(f, desired, next.0, next.1, m, k)
          && forall i :: 0 <= i < k ==> !Close(f(Probe(f, desired, next.0, next.1, m, i)), desired);
        assert Bisect(f, desired, low, high, mid, fuel).value == Probe(f, desired, low, high, mid, k + 1);
        assert forall i :: 0 <= i < k + 1 ==> !Close(f(Probe(f, desired, low, high, mid, i)), desired);
      } else {
        assert forall j :: 0 <= j <= fuel ==> !Close(f(Probe(f, desired, low, high, mid, j)), desired);
      }
    }
  }

  /** More fuel never changes an answer that has been found: the fuel bound only cuts runs short. */
  lemma {:induction false} BisectFuelMonotone(f: real -> real, desired: real, low: real, high: real, mid: real,
                                              fuel: nat, more: nat)
    requires Bracket(f, desired, low, high) && low <= mid <= high
    requires fuel <= more && Bisect(f, desired, low, high, mid, fuel).Ok?
    ensures Bisect(f, desired, low, high, mid, more) == Bisect(f, desired, low, high, mid, fuel)
    decreases fuel
  {
    if !Close(f(mid), desired) {
      var next := Step(f, desired, low, high);
      BisectFuelMonotone(f, desired, next.0, next.1, (low + high) / 2.0, fuel - 1, more - 1);
    }
  }

  /**
   When the bracket reaches a point where `f` hits the target exactly, the
   search stops there: a constant `f` equal to the target returns the first
   midpoint `(0.001 + 100) / 2` without iterating.
   */
  lemma ConstantTargetReturnsFirstMidpoint(desired: real, fuel: nat)
    ensures GetTruncnormScale(_ => desired, desired, fuel) == Ok((Low0 + High0) / 2.0)
  {
  }
}
