/**
 The registry and the schedules of core/psq.py put together the way the
 experiment driver (bigger_exp.py) does: a catalog entry feeds
 `get_eps_schedule`.
 */
module Scenarios {
  import opened Outcomes
  import opened IndexSets
  import opened Registry
  import PsqCatalog
  import opened PsqSchedules

  /**
   Every dims-5 or dims-6 catalog builds an `AdaSchedule` without error, given
   one variance and one positive lengthscale per variable.
   */
  lemma CatalogFeedsAda(dims: int, costsId: int, powerset3: seq<seq<nat>>,
                        variances: seq<real>, lengthscales: seq<real>)
    requires dims == 5 || dims == 6
    requires 0 <= costsId <= 2
    requires |variances| == dims && |lengthscales| == dims
    requires forall d :: 0 <= d < dims ==> 0.0 < lengthscales[d]
    ensures PsqCatalog.GetControlSetsAndCosts(dims, 0, costsId, powerset3).Ok?
    ensures var c := PsqCatalog.GetControlSetsAndCosts(dims, 0, costsId, powerset3).value;
      MakeAda(c.costs, c.controlSets, c.randomSets, variances, lengthscales).Ok?
  {
    PsqCatalog.FixedTablesEndWithFullSet(dims, costsId, powerset3);
    ValidCatalogFeedsAda(PsqCatalog.GetControlSetsAndCosts(dims, 0, costsId, powerset3).value,
                         dims, variances, lengthscales);
  }

  /** The same for any validated catalog with positive costs whose last random set is empty. */
  lemma ValidCatalogFeedsAda(c: Catalog, dims: nat, variances: seq<real>, lengthscales: seq<real>)
    requires Valid(c, dims) && |c.controlSets| > 0 && Last(c.randomSets) == [] && AllPositive(c.costs)
    requires |variances| == dims && |lengthscales| == dims
    requires forall d :: 0 <= d < dims ==> 0.0 < lengthscales[d]
    ensures MakeAda(c.costs, c.controlSets, c.randomSets, variances, lengthscales).Ok?
  {
    forall i | 0 <= i < |c.randomSets|
      ensures RatiosDefined(variances, lengthscales, c.randomSets[i])
    {
      assert Below(c.randomSets[i], dims);
    }
    MakeAdaSucceeds(c.costs, c.controlSets, c.randomSets, variances, lengthscales);
  }

  const Dims5RandomSets: seq<seq<nat>> := [[2, 3, 4], [0, 1, 4], [0, 1, 2], [3, 4], [0, 4], [0, 1], []]

  const Costs0: seq<real> := [0.01, 0.01, 0.01, 0.1, 0.1, 0.1, 1.0]

  lemma Dims5Complements(n: nat)
    requires n == 5
    ensures forall i :: 0 <= i < 7 ==> SortedComplement(n, PsqCatalog.Dims5[i]) == Dims5RandomSets[i]
  {
    forall i | 0 <= i < 7
      ensures SortedComplement(n, PsqCatalog.Dims5[i]) == Dims5RandomSets[i]
    {
      var c := PsqCatalog.Dims5[i];
      var r := Dims5RandomSets[i];
      assert StrictlyIncreasing(r);
      assert forall x: nat :: x in r <==> x < n && x !in c;
      StrictlyIncreasingUnique(SortedComplement(n, c), r);
    }
  }

  lemma Dims5Catalog(n: nat)
    requires n == 5
    ensures PsqCatalog.GetControlSetsAndCosts(n, 0, 0, []) == Ok(Catalog(PsqCatalog.Dims5, Dims5RandomSets, Costs0))
  {
    Dims5CatalogFields(n);
    var c := PsqCatalog.GetControlSetsAndCosts(n, 0, 0, []).value;
    Dims5Complements(n);
    assert |c.randomSets| == |Dims5RandomSets|;
    forall i | 0 <= i < 7
      ensures c.randomSets[i] == Dims5RandomSets[i]
    {
      assert c.randomSets[i] == SortedComplement(n, c.controlSets[i]);
    }
    assert c.randomSets == Dims5RandomSets;
  }

  /** The parts of the dims-5 catalog that come straight from the tables. */
  lemma Dims5CatalogFields(n: nat)
    requires n == 5
    ensures var r := PsqCatalog.GetControlSetsAndCosts(n, 0, 0, []);
      && r.Ok? && Valid(r.value, n)
      && r.value.controlSets == PsqCatalog.Dims5 && r.value.costs == Costs0
  {
    PsqCatalog.RegistrySucceedsIff(n, 0, 0, []);
  }

  lemma Dims5Undominated(cs: seq<seq<nat>>, costs: seq<real>)
    requires cs == PsqCatalog.Dims5 && costs == Costs0
    ensures forall i :: 0 <= i < 6 ==> !Dominated(cs, costs, 7, i)
  {
    forall i, j | 0 <= i < 6 && 0 <= j < 7
      ensures !Dominates(cs, costs, i, j)
    {
      assert || i == j || costs[i] < costs[j]
             || cs[i][0] !in cs[j] || cs[i][1] !in cs[j] || (|cs[i]| > 2 && cs[i][2] !in cs[j]);
    }
  }

  lemma Dims5Ratios(variances: seq<real>, lengthscales: seq<real>, rs: seq<seq<nat>>)
    requires variances == seq(5, _ => 0.1) && lengthscales == seq(5, _ => 0.2) && rs == Dims5RandomSets
    ensures forall i :: 0 <= i < 7 ==> RatiosDefined(variances, lengthscales, rs[i])
    ensures forall i :: 0 <= i < 3 ==> RatioSum(variances, lengthscales, rs[i]) == 1.5
    ensures forall i :: 3 <= i < 6 ==> RatioSum(variances, lengthscales, rs[i]) == 1.0
  {
    assert RatioSum(variances, lengthscales, rs[0]) == 1.5;
    assert RatioSum(variances, lengthscales, rs[1]) == 1.5;
    assert RatioSum(variances, lengthscales, rs[2]) == 1.5;
    assert RatioSum(variances, lengthscales, rs[3]) == 1.0;
    assert RatioSum(variances, lengthscales, rs[4]) == 1.0;
    assert RatioSum(variances, lengthscales, rs[5]) == 1.0;
  }

  lemma Dims5TargetsOf(variances: seq<real>, lengthscales: seq<real>, t: seq<int>)
    requires variances == seq(5, _ => 0.1) && lengthscales == seq(5, _ => 0.2)
    requires |t| == 7 && t[6] == 0
    requires forall i :: 0 <= i < 6 ==> IsTargetPlays(Costs0, variances, lengthscales, Dims5RandomSets[i], i, t[i])
    ensures t == [150, 150, 150, 10, 10, 10, 0]
  {
    Dims5Ratios(variances, lengthscales, Dims5RandomSets);
    assert Trunc(1.0 / 0.01 * 1.5) == 150;
    assert Trunc(1.0 / 0.1 * 1.0) == 10;
    forall i | 0 <= i < 6
      ensures t[i] == if i < 3 then 150 else 10
    {
      assert IsTargetPlays(Costs0, variances, lengthscales, Dims5RandomSets[i], i, t[i]);
    }
  }

  /**
   Concrete targets for the dims-5 catalog (see `Dims5Catalog`) with cost vector 0, every variance
   0.1 and every lengthscale 0.2 (ratio 0.5 per variable): no control set is
   dominated, the three pairs get `int(100 * 1.5) = 150`, the three triples
   `int(10 * 1.0) = 10`, and the full set 0.
   */
  lemma Dims5Targets(variances: seq<real>, lengthscales: seq<real>)
    requires variances == seq(5, _ => 0.1) && lengthscales == seq(5, _ => 0.2)
    ensures var s := MakeAda(Costs0, PsqCatalog.Dims5, Dims5RandomSets, variances, lengthscales);
      s.Ok? && s.value.targetPlays == [150, 150, 150, 10, 10, 10, 0]
  {
    Dims5Ratios(variances, lengthscales, Dims5RandomSets);
    MakeAdaSucceeds(Costs0, PsqCatalog.Dims5, Dims5RandomSets, variances, lengthscales);
    Dims5Undominated(PsqCatalog.Dims5, Costs0);
    var t := MakeAda(Costs0, PsqCatalog.Dims5, Dims5RandomSets, variances, lengthscales).value.targetPlays;
    Dims5TargetsOf(variances, lengthscales, t);
  }

  /**
   `get_eps_schedule` id 4 on the dims-5 catalog with cost vector 0: the
   cutoff is `int(3 * 1.0/0.01 + 3 * 1.0/0.1) = 330`, whatever the variances.
   */
  lemma Dims5AdaLinCutoff(variances: seq<real>, lengthscales: seq<real>, budget: real)
    requires |variances| == 5
    ensures GetEpsSchedule(4, Costs0, PsqCatalog.Dims5, Dims5RandomSets, variances, lengthscales, budget)
            == Ok(AdaLin(2.0, 330, 0, None))
  {
    var scored := Dims5RandomSets[..6];
    assert IndicesInside(scored, |variances|);
    assert CostRatioSum(Costs0, false, variances, scored, 1) == 100.0;
    assert CostRatioSum(Costs0, false, variances, scored, 2) == 200.0;
    assert CostRatioSum(Costs0, false, variances, scored, 3) == 300.0;
    assert CostRatioSum(Costs0, false, variances, scored, 4) == 310.0;
    assert CostRatioSum(Costs0, false, variances, scored, 5) == 320.0;
    assert CostRatioSum(Costs0, false, variances, scored, 6) == 330.0;
  }

  /**
   Id 5 with every variance that of the unit uniform distribution: each
   control set is weighted by the size of its random set, giving
   `int(3 * 100 * 3 + 3 * 10 * 2) = 960`.
   */
  lemma Dims5VarAwareCutoff(variances: seq<real>, lengthscales: seq<real>, budget: real)
    requires variances == seq(5, _ => 1.0 / 12.0)
    ensures GetEpsSchedule(5, Costs0, PsqCatalog.Dims5, Dims5RandomSets, variances, lengthscales, budget)
            == Ok(AdaLin(2.0, 960, 0, None))
  {
    var scored := Dims5RandomSets[..6];
    assert IndicesInside(scored, |variances|);
    forall i | 0 <= i < 6
      ensures Weight(true, variances, scored, i) == |scored[i]| as real
    {
      UnitVarianceSum(variances, scored[i]);
    }
    assert CostRatioSum(Costs0, true, variances, scored, 1) == 300.0;
    assert CostRatioSum(Costs0, true, variances, scored, 2) == 600.0;
    assert CostRatioSum(Costs0, true, variances, scored, 3) == 900.0;
    assert CostRatioSum(Costs0, true, variances, scored, 4) == 920.0;
    assert CostRatioSum(Costs0, true, variances, scored, 5) == 940.0;
    assert CostRatioSum(Costs0, true, variances, scored, 6) == 960.0;
  }
}
