/**
 The linear epsilon decay shared by `LinearSchedule` and `AdaLinSchedule` in
 core/psq.py and by `LinearSchedule` in core/cvs.py:
 `start_eps * np.maximum(1 - t / cutoff_iter, 0.0)`, where `t / cutoff_iter`
 is Python's true division of two ints (so a zero cutoff raises).
 */
module LinearDecay {
  import opened Outcomes

  function Eps(startEps: real, cutoffIter: int, t: nat): (r: Result<real>)
    ensures r.Err? <==> cutoffIter == 0
    ensures r.Err? ==> r.error == ZeroDivision
    ensures cutoffIter != 0 && t == 0 ==> r == Ok(startEps)
    ensures cutoffIter > 0 && t >= cutoffIter ==> r == Ok(0.0)
    ensures cutoffIter > 0 && 0.0 <= startEps ==> 0.0 <= r.value <= startEps
  {
    if cutoffIter == 0 then Err(ZeroDivision)
    else
      var fraction := 1.0 - t as real / cutoffIter as real;
      assert t == 0 ==> fraction == 1.0;
      Ok(startEps * (if fraction > 0.0 then fraction else 0.0))
  }

  /** Strictly before the cutoff a positive start gives a positive epsilon: 0 is reached exactly at the cutoff. */
  lemma PositiveBeforeCutoff(startEps: real, cutoffIter: int, t: nat)
    requires 0.0 < startEps && 0 <= t < cutoffIter
    ensures Eps(startEps, cutoffIter, t).value > 0.0
  {
    var c := cutoffIter as real;
    assert (t as real / c) * c == t as real;
    assert t as real / c < 1.0;
  }

  /** For a positive cutoff and a non-negative start the decay never increases with `t`. */
  lemma NonIncreasing(startEps: real, cutoffIter: int, t1: nat, t2: nat)
    requires 0 < cutoffIter && 0.0 <= startEps && t1 <= t2
    ensures Eps(startEps, cutoffIter, t2).value <= Eps(startEps, cutoffIter, t1).value
  {
    var c := cutoffIter as real;
    assert t1 as real / c <= t2 as real / c;
    var f1 := 1.0 - t1 as real / c;
    var f2 := 1.0 - t2 as real / c;
    ScaleMonotone(startEps, if f2 > 0.0 then f2 else 0.0, if f1 > 0.0 then f1 else 0.0);
  }

  lemma ScaleMonotone(k: real, x: real, y: real)
    requires 0.0 <= k && x <= y
    ensures k * x <= k * y
  {
    assert k * y - k * x == k * (y - x);
  }
}
