/**
 The epsilon schedules of core/psq.py as one tagged state record with a pure
 `Next` (the epsilon for this iteration, plus the `last_eps` bookkeeping) and
 a pure `Update` (the play recorded after the iteration).

 - `Linear`: `start_eps * max(1 - t / cutoff_iter, 0)`.
 - `AdaLin`: the same decay, with `cutoff_iter` derived once from cost ratios
   (optionally weighted by each random set's variance).
 - `Ada`: per-control-set target play counts and a first-match eligibility
   scan over the optimized values of the control sets.
 */
module PsqSchedules {
  import opened Outcomes
  import opened IndexSets
  import LinearDecay

  /** The `1e-04` margin added to every required epsilon in `AdaSchedule.next`. */
  const Margin: real := 1.0 / 10000.0

  datatype Schedule =
    | Linear(startEps: real, cutoffIter: int, t: nat, lastEps: Option<real>)
    | AdaLin(startEps: real, cutoffIter: int, t: nat, lastEps: Option<real>)
    | Ada(targetPlays: seq<int>, nPlays: seq<nat>, lastEps: Option<real>)
  {
    /** One target and one counter per control set (`m == |nPlays|`). */
    predicate WellFormed() {
      Ada? ==> |targetPlays| == |nPlays|
    }
  }

  // ---------------------------------------------------------------------
  // AdaSchedule construction

  /** Control set `j` dominates `i`: `i`'s variables are among `j`'s and `j` costs no more. */
  predicate Dominates(controlSets: seq<seq<nat>>, costs: seq<real>, i: nat, j: nat) {
    && j != i
    && i < |controlSets| && j < |controlSets|
    && SubsetOf(controlSets[i], controlSets[j])
    && i < |costs| && j < |costs|
    && costs[i] >= costs[j]
  }

  /** Some other of the `m` control sets dominates `i`. */
  predicate Dominated(controlSets: seq<seq<nat>>, costs: seq<real>, m: nat, i: nat) {
    exists j :: 0 <= j < m && Dominates(controlSets, costs, i, j)
  }

  /**
   The inner loop of `AdaSchedule.__init__` over `j` from `j0` on: it never
   breaks, so an index error at a later `j` is raised even after a dominator
   has been found.
   */
  function DominatedFrom(controlSets: seq<seq<nat>>, costs: seq<real>, m: nat, i: nat, j0: nat)
    : (r: Result<bool>)
    requires j0 <= m
    ensures r.Ok? ==> (r.value <==> exists j :: j0 <= j < m && Dominates(controlSets, costs, i, j))
    ensures r.Err? ==> r.error == IndexError
    ensures i < m <= |controlSets| && m <= |costs| ==> r.Ok?
    decreases m - j0
  {
    if j0 == m then Ok(false)
    else if j0 == i then DominatedFrom(controlSets, costs, m, i, j0 + 1)
    else if i >= |controlSets| || j0 >= |controlSets| then Err(IndexError)
    else if SubsetOf(controlSets[i], controlSets[j0]) then
      if i >= |costs| || j0 >= |costs| then Err(IndexError)
      else
        var rest :- DominatedFrom(controlSets, costs, m, i, j0 + 1);
        assert costs[i] >= costs[j0] ==> Dominates(controlSets, costs, i, j0);
        Ok(costs[i] >= costs[j0] || rest)
    else DominatedFrom(controlSets, costs, m, i, j0 + 1)
  }

  /** Every index of the random set can be looked up, and no lengthscale there is zero. */
  predicate RatiosDefined(variances: seq<real>, lengthscales: seq<real>, randomSet: seq<nat>) {
    forall k :: 0 <= k < |randomSet| ==>
      randomSet[k] < |variances| && randomSet[k] < |lengthscales| && lengthscales[randomSet[k]] != 0.0
  }

  /** `np.sum((variances / lengthscales)[randomSet])`. */
  function RatioSum(variances: seq<real>, lengthscales: seq<real>, randomSet: seq<nat>): real
    requires RatiosDefined(variances, lengthscales, randomSet)
    decreases |randomSet|
  {
    if |randomSet| == 0 then 0.0
    else variances[randomSet[0]] / lengthscales[randomSet[0]] + RatioSum(variances, lengthscales, randomSet[1..])
  }

  /**
   The target play count of a non-dominated control set `i`:
   `int((costs[-1] / costs[i]) * sum(variances[d] / lengthscales[d] for d in randomSet))`.
   */
  predicate IsTargetPlays(costs: seq<real>, variances: seq<real>, lengthscales: seq<real>,
                          randomSet: seq<nat>, i: nat, v: int) {
    && i < |costs| && costs[i] != 0.0
    && RatiosDefined(variances, lengthscales, randomSet)
    && v == Trunc(Last(costs) / costs[i] * RatioSum(variances, lengthscales, randomSet))
  }

  /**
   One target computation: an index outside `variances` or `costs` raises
   IndexError; a zero cost or lengthscale leaves inf or nan for `int()`.
   */
  function Target(costs: seq<real>, variances: seq<real>, lengthscales: seq<real>, randomSet: seq<nat>, i: nat)
    : (r: Result<int>)
    requires |variances| == |lengthscales|
    ensures r.Ok? <==> i < |costs| && costs[i] != 0.0 && RatiosDefined(variances, lengthscales, randomSet)
    ensures r.Err? ==> r.error == IndexError || r.error == NonFinite
    ensures r.Ok? ==> IsTargetPlays(costs, variances, lengthscales, randomSet, i, r.value)
  {
    if (exists k :: 0 <= k < |randomSet| && randomSet[k] >= |variances|) || i >= |costs| then
      Err(IndexError)
    else if costs[i] == 0.0 || (exists k :: 0 <= k < |randomSet| && lengthscales[randomSet[k]] == 0.0) then
      Err(NonFinite)
    else
      Ok(Trunc(Last(costs) / costs[i] * RatioSum(variances, lengthscales, randomSet)))
  }

  /** The inputs under which every target from `i0` on can be computed. */
  predicate TargetsComputable(controlSets: seq<seq<nat>>, randomSets: seq<seq<nat>>, costs: seq<real>,
                              variances: seq<real>, lengthscales: seq<real>) {
    && |randomSets| <= |controlSets|
    && |randomSets| <= |costs|
    && |variances| == |lengthscales|
    && (forall k :: 0 <= k < |costs| ==> costs[k] != 0.0)
    && (forall i :: 0 <= i < |randomSets| ==> RatiosDefined(variances, lengthscales, randomSets[i]))
  }

  /** The outer loop of `AdaSchedule.__init__`, over `i` from `i0` to `m - 2`. */
  function TargetsFrom(controlSets: seq<seq<nat>>, randomSets: seq<seq<nat>>, costs: seq<real>,
                       variances: seq<real>, lengthscales: seq<real>, i0: nat)
    : (r: Result<seq<int>>)
    requires |variances| == |lengthscales|
    requires 0 < |randomSets| && i0 < |randomSets|
    ensures r.Ok? ==> |r.value| == |randomSets| - 1 - i0
    ensures r.Err? ==> r.error == IndexError || r.error == NonFinite
    ensures r.Ok? ==> forall i :: i0 <= i < |randomSets| - 1 ==>
      (if Dominated(controlSets, costs, |randomSets|, i) then r.value[i - i0] == 0
       else IsTargetPlays(costs, variances, lengthscales, randomSets[i], i, r.value[i - i0]))
    ensures TargetsComputable(controlSets, randomSets, costs, variances, lengthscales) ==> r.Ok?
    decreases |randomSets| - i0
  {
    var m := |randomSets|;
    if i0 == m - 1 then Ok([])
    else
      var dominated :- DominatedFrom(controlSets, costs, m, i0, 0);
      var target :- if dominated then Ok(0) else Target(costs, variances, lengthscales, randomSets[i0], i0);
      var rest :- TargetsFrom(controlSets, randomSets, costs, variances, lengthscales, i0 + 1);
      Ok([target] + rest)
  }

  /**
   `AdaSchedule.__init__`. It requires the last random set to be empty (the
   last control set is the full one); the last control set gets no target,
   dominated control sets get zero, and the others get the cost-discounted
   sum of variance/lengthscale ratios over their random set.
   */
  function MakeAda(costs: seq<real>, controlSets: seq<seq<nat>>, randomSets: seq<seq<nat>>,
                   variances: seq<real>, lengthscales: seq<real>)
    : (r: Result<Schedule>)
    ensures |randomSets| == 0 ==> r == Err(IndexError)
    ensures |randomSets| > 0 && Last(randomSets) != [] ==> r == Err(AssertionFailed)
    ensures r.Err? ==> r.error in {IndexError, AssertionFailed, ShapeMismatch, NonFinite}
    ensures r.Ok? ==> r.value.Ada? && r.value.WellFormed() && r.value.lastEps == None
    ensures r.Ok? ==> |r.value.nPlays| == |randomSets| && forall i :: 0 <= i < |randomSets| ==> r.value.nPlays[i] == 0
    ensures r.Ok? ==> Last(r.value.targetPlays) == 0
    ensures r.Ok? ==> forall i :: 0 <= i < |randomSets| - 1 && Dominated(controlSets, costs, |randomSets|, i)
                       ==> r.value.targetPlays[i] == 0
    ensures r.Ok? ==> forall i :: 0 <= i < |randomSets| - 1 && !Dominated(controlSets, costs, |randomSets|, i)
                       ==> IsTargetPlays(costs, variances, lengthscales, randomSets[i], i, r.value.targetPlays[i])
  {
    var lastRandomSet :- At(randomSets, -1);
    var _ :- Need(|lastRandomSet| == 0, AssertionFailed);
    var _ :- Need(|variances| == |lengthscales|, ShapeMismatch);
    var targets :- TargetsFrom(controlSets, randomSets, costs, variances, lengthscales, 0);
    Ok(Ada(targets + [0], seq(|randomSets|, _ => 0), None))
  }

  /**
   With one cost and one control set per random set, non-zero costs, equally
   many variances and lengthscales, every random-set index inside them and no
   zero lengthscale in use, construction cannot fail once the last random set
   is empty.
   */
  lemma MakeAdaSucceeds(costs: seq<real>, controlSets: seq<seq<nat>>, randomSets: seq<seq<nat>>,
                        variances: seq<real>, lengthscales: seq<real>)
    requires |randomSets| > 0 && Last(randomSets) == []
    requires TargetsComputable(controlSets, randomSets, costs, variances, lengthscales)
    ensures MakeAda(costs, controlSets, randomSets, variances, lengthscales).Ok?
  {
    var _ := TargetsFrom(controlSets, randomSets, costs, variances, lengthscales, 0);
  }

  lemma {:induction false} RatioSumNonNegative(variances: seq<real>, lengthscales: seq<real>, randomSet: seq<nat>)
    requires RatiosDefined(variances, lengthscales, randomSet)
    requires forall d :: 0 <= d < |variances| ==> 0.0 <= variances[d]
    requires forall d :: 0 <= d < |lengthscales| ==> 0.0 < lengthscales[d]
    ensures 0.0 <= RatioSum(variances, lengthscales, randomSet)
    decreases |randomSet|
  {
    if |randomSet| > 0 {
      RatioSumNonNegative(variances, lengthscales, randomSet[1..]);
    }
  }

  /** With positive costs and lengthscales and non-negative variances every target is non-negative. */
  lemma TargetsNonNegative(costs: seq<real>, controlSets: seq<seq<nat>>, randomSets: seq<seq<nat>>,
                           variances: seq<real>, lengthscales: seq<real>)
    requires MakeAda(costs, controlSets, randomSets, variances, lengthscales).Ok?
    requires forall k :: 0 <= k < |costs| ==> 0.0 < costs[k]
    requires forall d :: 0 <= d < |variances| ==> 0.0 <= variances[d]
    requires forall d :: 0 <= d < |lengthscales| ==> 0.0 < lengthscales[d]
    ensures var s := MakeAda(costs, controlSets, randomSets, variances, lengthscales).value;
      forall i :: 0 <= i < |s.targetPlays| ==> 0 <= s.targetPlays[i]
  {
    var s := MakeAda(costs, controlSets, randomSets, variances, lengthscales).value;
    forall i | 0 <= i < |s.targetPlays|
      ensures 0 <= s.targetPlays[i]
    {
      if i < |randomSets| - 1 && !Dominated(controlSets, costs, |randomSets|, i) {
        RatioSumNonNegative(variances, lengthscales, randomSets[i]);
        assert 0.0 <= Last(costs) / costs[i];
      }
    }
  }

  // ---------------------------------------------------------------------
  // AdaSchedule.next: the first-match eligibility scan

  /** `opt_vals[-1] - opt_vals[i] + 1e-04`: the epsilon at which control set `i` becomes playable. */
  function Required(optVals: seq<real>, i: nat): real
    requires i < |optVals|
  {
    Last(optVals) - optVals[i] + Margin
  }

  /** No earlier control set would already be playable at `i`'s required epsilon. */
  predicate ValidAt(optVals: seq<real>, i: nat)
    requires i < |optVals|
  {
    forall j :: 0 <= j < i ==> optVals[j] + Required(optVals, i) < Last(optVals)
  }

  /** Control set `i` (not the last) still has plays left and is valid. */
  predicate Eligible(targetPlays: seq<int>, nPlays: seq<nat>, optVals: seq<real>, i: nat) {
    && i + 1 < |nPlays| && i < |targetPlays| && i < |optVals|
    && nPlays[i] < targetPlays[i]
    && ValidAt(optVals, i)
  }

  /**
   The loop of `AdaSchedule.next` from `i0` on: the first eligible index, none
   if the loop runs out, or an IndexError when it reaches an index that
   `opt_vals` does not have.
   */
  function ScanFrom(targetPlays: seq<int>, nPlays: seq<nat>, optVals: seq<real>, i0: nat)
    : (r: Result<Option<nat>>)
    requires |targetPlays| == |nPlays|
    ensures r.Ok? && r.value.Some? ==>
      && i0 <= r.value.value
      && Eligible(targetPlays, nPlays, optVals, r.value.value)
      && forall j :: i0 <= j < r.value.value ==> !Eligible(targetPlays, nPlays, optVals, j)
    ensures r.Ok? && r.value.None? ==> forall j :: i0 <= j ==> !Eligible(targetPlays, nPlays, optVals, j)
    ensures r.Err? ==> r.error == IndexError
    ensures r.Err? <==>
      && i0 + 1 < |nPlays|
      && |optVals| < |nPlays| - 1
      && forall j :: i0 <= j < |optVals| ==> !Eligible(targetPlays, nPlays, optVals, j)
    decreases |nPlays| - i0
  {
    if i0 + 1 >= |nPlays| then Ok(None)
    else if i0 >= |optVals| then Err(IndexError)
    else if nPlays[i0] < targetPlays[i0] && ValidAt(optVals, i0) then
      assert Eligible(targetPlays, nPlays, optVals, i0);
      Ok(Some(i0))
    else ScanFrom(targetPlays, nPlays, optVals, i0 + 1)
  }

  /** The control set whose required epsilon `AdaSchedule.next` returns, if any. */
  function AdaChoice(s: Schedule, optVals: seq<real>): Result<Option<nat>>
    requires s.Ada? && s.WellFormed()
  {
    ScanFrom(s.targetPlays, s.nPlays, optVals, 0)
  }

  /**
   `next(opt_vals)`: the epsilon for this iteration and the schedule with
   `last_eps` recorded. Nothing but `last_eps` changes; the linear variants
   decay, and `Ada` returns the required epsilon of the first eligible
   control set, or 0.0 when there is none.
   */
  function Next(s: Schedule, optVals: seq<real>): (r: Result<(real, Schedule)>)
    requires s.WellFormed()
    ensures r.Ok? ==> r.value.1 == s.(lastEps := Some(r.value.0))
    ensures !s.Ada? ==> (r.Ok? <==> s.cutoffIter != 0)
    ensures !s.Ada? && r.Ok? ==> r.value.0 == LinearDecay.Eps(s.startEps, s.cutoffIter, s.t).value
    ensures s.Ada? ==> (r.Ok? <==> AdaChoice(s, optVals).Ok?)
    ensures s.Ada? && r.Ok? ==>
      match AdaChoice(s, optVals).value
      case Some(i) => i < |optVals| && r.value.0 == Required(optVals, i)
      case None => r.value.0 == 0.0
  {
    var eps :-
      if s.Ada? then
        var choice :- AdaChoice(s, optVals);
        Ok(match choice case Some(i) => Required(optVals, i) case None => 0.0)
      else
        LinearDecay.Eps(s.startEps, s.cutoffIter, s.t);
    Ok((eps, s.(lastEps := Some(eps))))
  }

  /**
   `update(prev_control_idx)`: the linear variants add one to `t` whatever the
   argument; `Ada` adds one to the counter of the played control set (Python
   indexing, so a negative index counts from the end) and ignores `None`.
   */
  function Update(s: Schedule, prevControlIdx: Option<int>): (r: Result<Schedule>)
    requires s.WellFormed()
    ensures r.Ok? ==> r.value.WellFormed()
    ensures !s.Ada? ==> r.Ok? && !r.value.Ada? && r.value.t == s.t + 1 && r.value.(t := s.t) == s
    ensures s.Ada? && prevControlIdx.None? ==> r == Ok(s)
    ensures s.Ada? && prevControlIdx.Some? ==>
      var m := |s.nPlays|;
      var i := prevControlIdx.value;
      && (r.Ok? <==> -m <= i < m)
      && (r.Err? ==> r.error == IndexError)
      && (r.Ok? ==>
          var k := if i < 0 then i + m else i;
          && r.value.Ada?
          && r.value.targetPlays == s.targetPlays
          && r.value.lastEps == s.lastEps
          && |r.value.nPlays| == m
          && r.value.nPlays[k] == s.nPlays[k] + 1
          && forall j :: 0 <= j < m && j != k ==> r.value.nPlays[j] == s.nPlays[j])
  {
    match s
    case Linear(startEps, cutoffIter, t, lastEps) => Ok(Linear(startEps, cutoffIter, t + 1, lastEps))
    case AdaLin(startEps, cutoffIter, t, lastEps) => Ok(AdaLin(startEps, cutoffIter, t + 1, lastEps))
    case Ada(_, nPlays, _) =>
      match prevControlIdx
      case None => Ok(s)
      case Some(i) =>
        if -|nPlays| <= i < |nPlays| then
          var k := if i < 0 then i + |nPlays| else i;
          Ok(s.(nPlays := nPlays[k := nPlays[k] + 1]))
        else Err(IndexError)
  }

  /** What the scan promises about a chosen control set `i` and the epsilon it yields. */
  lemma ChosenSeparates(s: Schedule, optVals: seq<real>)
    requires s.Ada? && s.WellFormed()
    requires AdaChoice(s, optVals).Ok? && AdaChoice(s, optVals).value.Some?
    ensures var i := AdaChoice(s, optVals).value.value;
      var eps := Next(s, optVals).value.0;
      && i + 1 < |s.nPlays| && i < |optVals|
      && optVals[i] + eps > Last(optVals)
      && (forall j :: 0 <= j < i ==> optVals[j] + eps < Last(optVals))
      && 0 <= s.nPlays[i] < s.targetPlays[i]
  {
  }

  /** A control set whose counter has reached its target (in particular a zero target) is never the source of the epsilon. */
  lemma ExhaustedNeverChosen(s: Schedule, optVals: seq<real>, i: nat)
    requires s.Ada? && s.WellFormed()
    requires i < |s.targetPlays| && s.targetPlays[i] <= s.nPlays[i]
    ensures AdaChoice(s, optVals) != Ok(Some(i))
  {
  }

  /** The first eligible index wins even when a later eligible one needs a smaller epsilon. */
  lemma FirstMatchNotCheapest()
    ensures var s := Ada([1, 1, 0], [0, 0, 0], None);
      var optVals := [0.0, 0.5, 1.0];
      && Next(s, optVals) == Ok((1.0 + Margin, Ada([1, 1, 0], [0, 0, 0], Some(1.0 + Margin))))
      && Eligible(s.targetPlays, s.nPlays, optVals, 1)
      && Required(optVals, 1) < 1.0 + Margin
  {
    var s := Ada([1, 1, 0], [0, 0, 0], None);
    var optVals := [0.0, 0.5, 1.0];
    assert Eligible(s.targetPlays, s.nPlays, optVals, 0);
    assert ScanFrom(s.targetPlays, s.nPlays, optVals, 0) == Ok(Some(0));
  }

  // ---------------------------------------------------------------------
  // Sequences of plays

  /** Feeds the plays to `update` one after another, stopping at the first error. */
  function Run(s: Schedule, plays: seq<Option<int>>): (r: Result<Schedule>)
    requires s.WellFormed()
    ensures r.Ok? ==> r.value.WellFormed()
    ensures !s.Ada? ==> r.Ok? && !r.value.Ada? && r.value.t == s.t + |plays| && r.value.(t := s.t) == s
    ensures s.Ada? && r.Ok? ==>
      && r.value.Ada? && r.value.targetPlays == s.targetPlays
      && r.value.lastEps == s.lastEps && |r.value.nPlays| == |s.nPlays|
    decreases |plays|
  {
    if |plays| == 0 then Ok(s)
    else
      var next :- Update(s, plays[0]);
      Run(next, plays[1..])
  }

  /** `p` names control set `k` of `m`, directly or by a negative Python index. */
  predicate Names(p: Option<int>, m: nat, k: nat) {
    p == Some(k) || p == Some(k - m)
  }

  /** How many of the plays name control set `k`. */
  function Count(plays: seq<Option<int>>, m: nat, k: nat): nat
    decreases |plays|
  {
    if |plays| == 0 then 0 else (if Names(plays[0], m, k) then 1 else 0) + Count(plays[1..], m, k)
  }

  /** After a run of plays each counter has grown by exactly the number of plays naming its control set. */
  lemma {:induction false} RunCounts(s: Schedule, plays: seq<Option<int>>)
    requires s.Ada? && s.WellFormed() && Run(s, plays).Ok?
    ensures forall k :: 0 <= k < |s.nPlays| ==>
      Run(s, plays).value.nPlays[k] == s.nPlays[k] + Count(plays, |s.nPlays|, k)
    decreases |plays|
  {
    if |plays| > 0 {
      var next := Update(s, plays[0]).value;
      RunCounts(next, plays[1..]);
      var m := |s.nPlays|;
      forall k | 0 <= k < m
        ensures Run(s, plays).value.nPlays[k] == s.nPlays[k] + Count(plays, m, k)
      {
        match plays[0]
        case None =>
        case Some(i) =>
          var k0 := if i < 0 then i + m else i;
          assert Names(plays[0], m, k) <==> k == k0;
      }
    }
  }

  /**
   However many plays have been recorded since construction, a dominated
   control set is never the source of the epsilon, and neither is the last
   (full) one.
   */
  lemma DominatedNeverChosen(costs: seq<real>, controlSets: seq<seq<nat>>, randomSets: seq<seq<nat>>,
                             variances: seq<real>, lengthscales: seq<real>,
                             plays: seq<Option<int>>, optVals: seq<real>, i: nat)
    requires MakeAda(costs, controlSets, randomSets, variances, lengthscales).Ok?
    requires Run(MakeAda(costs, controlSets, randomSets, variances, lengthscales).value, plays).Ok?
    requires i == |randomSets| - 1 || (i < |randomSets| - 1 && Dominated(controlSets, costs, |randomSets|, i))
    ensures AdaChoice(Run(MakeAda(costs, controlSets, randomSets, variances, lengthscales).value, plays).value,
                      optVals) != Ok(Some(i))
  {
    var s0 := MakeAda(costs, controlSets, randomSets, variances, lengthscales).value;
    var s := Run(s0, plays).value;
    if i < |randomSets| - 1 {
      assert s.targetPlays[i] == 0;
      ExhaustedNeverChosen(s, optVals, i);
    }
  }

  // ---------------------------------------------------------------------
  // AdaLinSchedule construction

  /** `sum_of_variances[i] = np.sum(variances[random_sets[i]] / (1 / 12))`. */
  function VarianceSum(variances: seq<real>, randomSet: seq<nat>): real
    requires forall k :: 0 <= k < |randomSet| ==> randomSet[k] < |variances|
    decreases |randomSet|
  {
    if |randomSet| == 0 then 0.0
    else variances[randomSet[0]] / (1.0 / 12.0) + VarianceSum(variances, randomSet[1..])
  }

  /**
   A variable with the variance of the unit uniform distribution (1/12)
   contributes exactly 1 to a variance sum, so with such variables the weight
   of a control set is the size of its random set.
   */
  lemma {:induction false} UnitVarianceSum(variances: seq<real>, randomSet: seq<nat>)
    requires forall k :: 0 <= k < |randomSet| ==> randomSet[k] < |variances| && variances[randomSet[k]] == 1.0 / 12.0
    ensures VarianceSum(variances, randomSet) == |randomSet| as real
    decreases |randomSet|
  {
    if |randomSet| > 0 {
      UnitVarianceSum(variances, randomSet[1..]);
    }
  }

  predicate IndicesInside(randomSets: seq<seq<nat>>, n: nat) {
    forall i, k :: 0 <= i < |randomSets| && 0 <= k < |randomSets[i]| ==> randomSets[i][k] < n
  }

  /** Weight of control set `i` in the cutoff: its variance sum, or 1 when not variance-aware. */
  function Weight(varAware: bool, variances: seq<real>, randomSets: seq<seq<nat>>, i: nat): real
    requires i < |randomSets| && IndicesInside(randomSets, |variances|)
  {
    if varAware then VarianceSum(variances, randomSets[i]) else 1.0
  }

  /**
   `sum(costs[-1] / costs[i] * w_i for i < k)`: the cost ratios of the first
   `k` control sets against the last (full) one, each weighted.
   */
  function CostRatioSum(costs: seq<real>, varAware: bool, variances: seq<real>,
                        randomSets: seq<seq<nat>>, k: nat): real
    requires k < |costs| && (forall i :: 0 <= i < k ==> costs[i] != 0.0)
    requires IndicesInside(randomSets, |variances|) && (varAware ==> k <= |randomSets|)
  {
    if k == 0 then 0.0
    else
      CostRatioSum(costs, varAware, variances, randomSets, k - 1)
      + Last(costs) / costs[k - 1] * (if varAware then Weight(varAware, variances, randomSets, k - 1) else 1.0)
  }

  /** `int(cutoff_mult * sum(costs[-1] / costs[:-1] * w))`. */
  function CutoffIter(cutoffMult: real, varAware: bool, costs: seq<real>, randomSets: seq<seq<nat>>,
                      variances: seq<real>): int
    requires |costs| > 0 && (forall i :: 0 <= i < |costs| - 1 ==> costs[i] != 0.0)
    requires IndicesInside(randomSets, |variances|) && (varAware ==> |costs| - 1 <= |randomSets|)
  {
    Trunc(cutoffMult * CostRatioSum(costs, varAware, variances, randomSets, |costs| - 1))
  }

  /**
   `AdaLinSchedule.__init__`: `cutoff_iter = int(cutoff_mult * sum(costs[-1] /
   costs[:-1] * w))`, where `w` is the variance sums when `var_aware` and 1
   otherwise. The variance sums are computed (and indexed) either way; the
   elementwise product needs as many costs as random sets only when
   `var_aware`.
   */
  function MakeAdaLin(startEps: real, cutoffMult: real, varAware: bool, costs: seq<real>,
                      randomSets: seq<seq<nat>>, variances: seq<real>)
    : (r: Result<Schedule>)
    ensures |randomSets| == 0 ==> r == Err(NegativeDimension)
    ensures r.Err? ==> r.error in {NegativeDimension, IndexError, ShapeMismatch, NonFinite}
    ensures |randomSets| > 0 && !IndicesInside(randomSets[..|randomSets| - 1], |variances|) ==> r == Err(IndexError)
    ensures r.Ok? ==> r.value.AdaLin? && r.value.startEps == startEps && r.value.t == 0 && r.value.lastEps == None
    ensures r.Ok? ==>
      && |costs| > 0
      && (forall i :: 0 <= i < |costs| - 1 ==> costs[i] != 0.0)
      && (varAware ==> |costs| == |randomSets|)
      && IndicesInside(randomSets[..|randomSets| - 1], |variances|)
      && r.value.cutoffIter == CutoffIter(cutoffMult, varAware, costs, randomSets[..|randomSets| - 1], variances)
    ensures
      && |randomSets| > 0
      && IndicesInside(randomSets[..|randomSets| - 1], |variances|)
      && |costs| > 0
      && (forall i :: 0 <= i < |costs| - 1 ==> costs[i] != 0.0)
      && (varAware ==> |costs| == |randomSets|)
      ==> r.Ok?
  {
    var m := |randomSets|;
    var _ :- Need(m >= 1, NegativeDimension);
    var scored := randomSets[..m - 1];
    var _ :- Need(IndicesInside(scored, |variances|), IndexError);
    var last :- At(costs, -1);
    var _ :- Need(!varAware || |costs| - 1 == m - 1, ShapeMismatch);
    var _ :- Need(forall i :: 0 <= i < |costs| - 1 ==> costs[i] != 0.0, NonFinite);
    Ok(AdaLin(startEps, CutoffIter(cutoffMult, varAware, costs, scored, variances), 0, None))
  }

  /** With non-negative variances every variance sum is non-negative. */
  lemma {:induction false} VarianceSumNonNegative(variances: seq<real>, randomSet: seq<nat>)
    requires forall k :: 0 <= k < |randomSet| ==> randomSet[k] < |variances|
    requires forall d :: 0 <= d < |variances| ==> 0.0 <= variances[d]
    ensures 0.0 <= VarianceSum(variances, randomSet)
    decreases |randomSet|
  {
    if |randomSet| > 0 {
      VarianceSumNonNegative(variances, randomSet[1..]);
      assert 0.0 <= variances[randomSet[0]];
    }
  }

  lemma NonNegativeProduct(a: real, b: real)
    requires 0.0 <= a && 0.0 <= b
    ensures 0.0 <= a * b
  {
  }

  /** With positive costs and non-negative variances the weighted cost-ratio sum is non-negative. */
  lemma {:induction false} CostRatioSumNonNegative(costs: seq<real>, varAware: bool, variances: seq<real>,
                                                  randomSets: seq<seq<nat>>, k: nat)
    requires k < |costs| && (forall i :: 0 <= i < |costs| ==> 0.0 < costs[i])
    requires IndicesInside(randomSets, |variances|) && (varAware ==> k <= |randomSets|)
    requires forall d :: 0 <= d < |variances| ==> 0.0 <= variances[d]
    ensures 0.0 <= CostRatioSum(costs, varAware, variances, randomSets, k)
    decreases k
  {
    if k > 0 {
      CostRatioSumNonNegative(costs, varAware, variances, randomSets, k - 1);
      var w := if varAware then Weight(varAware, variances, randomSets, k - 1) else 1.0;
      if varAware {
        VarianceSumNonNegative(variances, randomSets[k - 1]);
      }
      assert 0.0 < Last(costs) && 0.0 < costs[k - 1];
      var ratio := Last(costs) / costs[k - 1];
      assert 0.0 <= ratio;
      NonNegativeProduct(ratio, w);
    }
  }

  /**
   The cutoff of an `AdaLinSchedule` is never negative when costs are
   positive, variances non-negative and the multiplier non-negative, so its
   linear decay is well defined unless the sum truncates to 0.
   */
  lemma AdaLinCutoffNonNegative(startEps: real, cutoffMult: real, varAware: bool, costs: seq<real>,
                                randomSets: seq<seq<nat>>, variances: seq<real>)
    requires MakeAdaLin(startEps, cutoffMult, varAware, costs, randomSets, variances).Ok?
    requires forall i :: 0 <= i < |costs| ==> 0.0 < costs[i]
    requires forall d :: 0 <= d < |variances| ==> 0.0 <= variances[d]
    requires 0.0 <= cutoffMult
    ensures 0 <= MakeAdaLin(startEps, cutoffMult, varAware, costs, randomSets, variances).value.cutoffIter
  {
    var scored := randomSets[..|randomSets| - 1];
    CostRatioSumNonNegative(costs, varAware, variances, scored, |costs| - 1);
    NonNegativeProduct(cutoffMult, CostRatioSum(costs, varAware, variances, scored, |costs| - 1));
  }

  /** `sum(costs[-1] / costs[i] * len(random_sets[i]) for i < k)`. */
  function SizeWeightedRatioSum(costs: seq<real>, randomSets: seq<seq<nat>>, k: nat): real
    requires k < |costs| && k <= |randomSets| && (forall i :: 0 <= i < k ==> costs[i] != 0.0)
  {
    if k == 0 then 0.0
    else SizeWeightedRatioSum(costs, randomSets, k - 1) + Last(costs) / costs[k - 1] * |randomSets[k - 1]| as real
  }

  /**
   With every variable at the unit uniform variance 1/12, the variance-aware
   cutoff weighs each cost ratio by the size of its random set.
   */
  lemma {:induction false} UnitVarianceCutoff(costs: seq<real>, variances: seq<real>, randomSets: seq<seq<nat>>, k: nat)
    requires k < |costs| && k <= |randomSets| && (forall i :: 0 <= i < k ==> costs[i] != 0.0)
    requires IndicesInside(randomSets, |variances|)
    requires forall d :: 0 <= d < |variances| ==> variances[d] == 1.0 / 12.0
    ensures CostRatioSum(costs, true, variances, randomSets, k) == SizeWeightedRatioSum(costs, randomSets, k)
    decreases k
  {
    if k > 0 {
      UnitVarianceCutoff(costs, variances, randomSets, k - 1);
      UnitVarianceSum(variances, randomSets[k - 1]);
    }
  }

  /** After construction an `AdaLin` schedule decays exactly like a `Linear` one with the same cutoff. */
  lemma AdaLinBehavesLinearly(s: Schedule, optVals: seq<real>, prev: Option<int>)
    requires s.AdaLin?
    ensures var l := Linear(s.startEps, s.cutoffIter, s.t, s.lastEps);
      && (Next(s, optVals).Ok? <==> Next(l, optVals).Ok?)
      && (Next(s, optVals).Ok? ==> Next(s, optVals).value.0 == Next(l, optVals).value.0)
      && Update(s, prev).value.t == Update(l, prev).value.t
  {
  }

  // ---------------------------------------------------------------------
  // get_eps_schedule

  /** A schedule as constructed: no iteration elapsed, no play recorded, no epsilon computed. */
  predicate Fresh(s: Schedule) {
    && s.lastEps == None
    && (!s.Ada? ==> s.t == 0)
    && (s.Ada? ==> forall i :: 0 <= i < |s.nPlays| ==> s.nPlays[i] == 0)
  }

  /**
   `get_eps_schedule`: id 0 is `AdaSchedule`, ids 1-3 are linear decays from
   2.0 (cutoff `int(budget / costs[-1])`, 200 and 400), ids 4 and 5 are
   `AdaLinSchedule` from 2.0 with multiplier 1.0, without and with variance
   weighting. Any other id raises.
   */
  function GetEpsSchedule(id: int, costs: seq<real>, controlSets: seq<seq<nat>>, randomSets: seq<seq<nat>>,
                          variances: seq<real>, lengthscales: seq<real>, budget: real)
    : (r: Result<Schedule>)
    ensures r == Err(NotImplemented) <==> !(0 <= id <= 5)
    ensures r.Ok? ==> r.value.WellFormed() && Fresh(r.value)
    ensures r.Ok? && id == 0 ==> r.value.Ada? && |r.value.nPlays| == |randomSets|
    ensures r.Ok? && 1 <= id <= 3 ==> r.value.Linear? && r.value.startEps == 2.0
    ensures id == 1 ==> (r.Ok? <==> |costs| > 0 && Last(costs) != 0.0)
    ensures r.Ok? && id == 1 ==> r.value.cutoffIter == Trunc(budget / Last(costs))
    ensures r.Ok? && id == 2 ==> r.value.cutoffIter == 200
    ensures r.Ok? && id == 3 ==> r.value.cutoffIter == 400
    ensures r.Ok? && (id == 4 || id == 5) ==> r.value.AdaLin? && r.value.startEps == 2.0
    ensures id == 0 ==> r == MakeAda(costs, controlSets, randomSets, variances, lengthscales)
    ensures id == 2 ==> r == Ok(Linear(2.0, 200, 0, None))
    ensures id == 3 ==> r == Ok(Linear(2.0, 400, 0, None))
    ensures id == 4 ==> r == MakeAdaLin(2.0, 1.0, false, costs, randomSets, variances)
    ensures id == 5 ==> r == MakeAdaLin(2.0, 1.0, true, costs, randomSets, variances)
  {
    if id == 0 then MakeAda(costs, controlSets, randomSets, variances, lengthscales)
    else if id == 1 then
      var last :- At(costs, -1);
      if last == 0.0 then Err(NonFinite) else Ok(Linear(2.0, Trunc(budget / last), 0, None))
    else if id == 2 then Ok(Linear(2.0, 200, 0, None))
    else if id == 3 then Ok(Linear(2.0, 400, 0, None))
    else if id == 4 then MakeAdaLin(2.0, 1.0, false, costs, randomSets, variances)
    else if id == 5 then MakeAdaLin(2.0, 1.0, true, costs, randomSets, variances)
    else Err(NotImplemented)
  }

  /** Schedule 3 decays to exactly 0 once 400 plays have been recorded, whatever the inputs. */
  lemma Schedule3ExhaustedAfter400(costs: seq<real>, controlSets: seq<seq<nat>>, randomSets: seq<seq<nat>>,
                                   variances: seq<real>, lengthscales: seq<real>, budget: real,
                                   plays: seq<Option<int>>, optVals: seq<real>)
    requires |plays| >= 400
    ensures var s := GetEpsSchedule(3, costs, controlSets, randomSets, variances, lengthscales, budget).value;
      Next(Run(s, plays).value, optVals).Ok? && Next(Run(s, plays).value, optVals).value.0 == 0.0
  {
    var s := GetEpsSchedule(3, costs, controlSets, randomSets, variances, lengthscales, budget).value;
    var after := Run(s, plays).value;
    assert after.cutoffIter == 400 && after.t >= 400;
  }
}
