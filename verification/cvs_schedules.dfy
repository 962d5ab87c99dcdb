/**
 The schedules of core/cvs.py. Here the iteration counter `t` lives in the
 base class and starts at 0, `update()` takes no argument, and
 `LinearSchedule.next()` takes no optimized values. `get_eps_schedule` is a
 placeholder.
 */
module CvsSchedules {
  import opened Outcomes
  import LinearDecay
  import PsqSchedules

  datatype LinearSchedule = LinearSchedule(startEps: real, cutoffIter: int, t: nat, lastEps: Option<real>)

  /** `LinearSchedule(start_eps, cutoff_iter)`: the base constructor sets `t = 0` and `last_eps = None`. */
  function MakeLinear(startEps: real, cutoffIter: int): (s: LinearSchedule)
    ensures s.t == 0 && s.lastEps == None
    ensures s.startEps == startEps && s.cutoffIter == cutoffIter
  {
    LinearSchedule(startEps, cutoffIter, 0, None)
  }

  /** `next()`: the linear decay at the current `t`, recorded as `last_eps`; nothing else changes. */
  function Next(s: LinearSchedule): (r: Result<(real, LinearSchedule)>)
    ensures r.Ok? <==> s.cutoffIter != 0
    ensures r.Err? ==> r.error == ZeroDivision
    ensures r.Ok? ==> r.value.1 == s.(lastEps := Some(r.value.0))
    ensures r.Ok? && s.t == 0 ==> r.value.0 == s.startEps
    ensures s.cutoffIter > 0 && s.t >= s.cutoffIter ==> r == Ok((0.0, s.(lastEps := Some(0.0))))
  {
    var eps :- LinearDecay.Eps(s.startEps, s.cutoffIter, s.t);
    Ok((eps, s.(lastEps := Some(eps))))
  }

  /** `EpsilonSchedule.update()`: one more iteration, nothing else changes. */
  function Update(s: LinearSchedule): (r: LinearSchedule)
    ensures r.t == s.t + 1
    ensures r.startEps == s.startEps && r.cutoffIter == s.cutoffIter && r.lastEps == s.lastEps
  {
    s.(t := s.t + 1)
  }

  /** `k` calls of `update()`. */
  function UpdateTimes(s: LinearSchedule, k: nat): (r: LinearSchedule)
    ensures r == s.(t := s.t + k)
    decreases k
  {
    if k == 0 then s else Update(UpdateTimes(s, k - 1))
  }

  /**
   `get_eps_schedule`: id 0 gives the placeholder `None`, every other id
   raises. No schedule is ever returned.
   */
  function GetEpsSchedule(id: int): (r: Result<Option<LinearSchedule>>)
    ensures r.Ok? <==> id == 0
    ensures r.Ok? ==> r.value == None
    ensures r.Err? ==> r.error == NotImplemented
  {
    if id == 0 then Ok(None) else Err(NotImplemented)
  }

  /** A fresh schedule updated `k` times returns the decay at `k`, reaching 0 at the cutoff for good. */
  lemma NextAfterUpdates(startEps: real, cutoffIter: int, k: nat)
    requires cutoffIter != 0
    ensures var s := UpdateTimes(MakeLinear(startEps, cutoffIter), k);
      && Next(s).Ok?
      && Next(s).value.0 == LinearDecay.Eps(startEps, cutoffIter, k).value
      && (0 < cutoffIter <= k ==> Next(s).value.0 == 0.0)
  {
  }

  /**
   The linear decay of this file and of core/psq.py agree step for step: the
   same state gives the same epsilon, whatever optimized values the other
   version is handed, and `update` advances both by one.
   */
  lemma AgreesWithPsqLinear(s: LinearSchedule, optVals: seq<real>, prev: Option<int>)
    ensures var p := PsqSchedules.Linear(s.startEps, s.cutoffIter, s.t, s.lastEps);
      && (Next(s).Ok? <==> PsqSchedules.Next(p, optVals).Ok?)
      && (Next(s).Ok? ==> Next(s).value.0 == PsqSchedules.Next(p, optVals).value.0)
      && PsqSchedules.Update(p, prev) == Ok(PsqSchedules.Linear(s.startEps, s.cutoffIter, Update(s).t, s.lastEps))
  {
  }
}
