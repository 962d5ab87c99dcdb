/**
 The control-set catalog of core/cvs.py. It is kept as a table of its own:
 besides the keys core/psq.py knows it has a dims-8 catalog and a second
 dims-5 catalog (id 1) made of seven two-element sets.
 */
module CvsCatalog {
  import opened Outcomes
  import opened IndexSets
  import opened Registry
  import PsqCatalog

  const Dims5: seq<seq<nat>> :=
    [[0, 1], [2, 3], [3, 4], [0, 1, 2], [1, 2, 3], [2, 3, 4], [0, 1, 2, 3, 4]]

  const Dims5Pairs: seq<seq<nat>> :=
    [[3, 4], [1, 4], [0, 3], [1, 2], [2, 4], [0, 1], [2, 3]]

  const Dims6: seq<seq<nat>> :=
    [[0, 1], [2, 3], [4, 5], [0, 1, 2, 3], [1, 2, 3, 4], [2, 3, 4, 5], [0, 1, 2, 3, 4, 5]]

  const Dims8: seq<seq<nat>> :=
    [[0, 1, 2], [3, 4, 5], [5, 6, 7], [0, 1, 2, 3, 4], [2, 3, 4, 5, 6], [3, 4, 5, 6, 7],
     [0, 1, 2, 3, 4, 5, 6, 7]]

  /** The `(dims, id)` keys this `get_control_sets` accepts. */
  predicate Supported(dims: int, controlId: int) {
    || ((dims == 3 || dims == 6 || dims == 8) && controlId == 0)
    || (dims == 5 && (controlId == 0 || controlId == 1))
  }

  /**
   `get_control_sets` of core/cvs.py. As in core/psq.py the dims-3 catalog is
   the unseen `powerset(np.arange(3))`, given as the parameter `powerset3`.
   */
  function ControlSets(dims: int, controlId: int, powerset3: seq<seq<nat>>): (r: Result<seq<seq<nat>>>)
    ensures r.Ok? <==> Supported(dims, controlId)
    ensures r.Err? ==> r.error == NotImplemented
    ensures r.Ok? && dims == 3 ==> r.value == powerset3
    ensures r.Ok? && dims != 3 ==> |r.value| == 7
    ensures r.Ok? && dims != 3 && controlId == 0 ==> Last(r.value) == Range(dims)
  {
    if dims == 3 then
      if controlId == 0 then Ok(powerset3) else Err(NotImplemented)
    else if dims == 5 then
      if controlId == 0 then Ok(Dims5)
      else if controlId == 1 then Ok(Dims5Pairs)
      else Err(NotImplemented)
    else if dims == 6 then
      if controlId == 0 then Ok(Dims6) else Err(NotImplemented)
    else if dims == 8 then
      if controlId == 0 then Ok(Dims8) else Err(NotImplemented)
    else
      Err(NotImplemented)
  }

  /** `get_control_sets_and_costs` of core/cvs.py. */
  function GetControlSetsAndCosts(dims: int, controlSetsId: int, costsId: int, powerset3: seq<seq<nat>>)
    : (r: Result<Catalog>)
    ensures !Supported(dims, controlSetsId) ==> r == Err(NotImplemented)
    ensures r.Ok? ==> dims >= 0 && Valid(r.value, dims)
    ensures r.Ok? ==> Supported(dims, controlSetsId) && r.value.controlSets == ControlSets(dims, controlSetsId, powerset3).value
    ensures r.Ok? ==> 0 <= costsId <= 2 && r.value.costs == Costs(costsId).value
  {
    var controlSets :- ControlSets(dims, controlSetsId, powerset3);
    assert Supported(dims, controlSetsId) && dims >= 3;
    Assemble(dims, controlSets, costsId)
  }

  lemma FixedTablesValid()
    ensures forall i :: 0 <= i < |Dims5| ==> IndexSet(Dims5[i], 5)
    ensures forall i :: 0 <= i < |Dims5Pairs| ==> IndexSet(Dims5Pairs[i], 5)
    ensures forall i :: 0 <= i < |Dims6| ==> IndexSet(Dims6[i], 6)
    ensures forall i :: 0 <= i < |Dims8| ==> IndexSet(Dims8[i], 8)
  {
    TableValid(Dims5, 5);
    TableValid(Dims5Pairs, 5);
    TableValid(Dims6, 6);
    TableValid(Dims8, 8);
  }

  lemma TableValid(table: seq<seq<nat>>, n: nat)
    requires (table == Dims5 && n == 5) || (table == Dims5Pairs && n == 5)
          || (table == Dims6 && n == 6) || (table == Dims8 && n == 8)
    ensures forall i :: 0 <= i < |table| ==> IndexSet(table[i], n)
  {
  }

  /**
   The registry succeeds exactly for the supported keys with cost ids 0..2
   (and, for dims 3, a powerset that passes validation).
   */
  lemma RegistrySucceedsIff(dims: int, controlSetsId: int, costsId: int, powerset3: seq<seq<nat>>)
    ensures GetControlSetsAndCosts(dims, controlSetsId, costsId, powerset3).Ok? <==>
      && Supported(dims, controlSetsId)
      && 0 <= costsId <= 2
      && (dims == 3 ==> |powerset3| == 7 && forall i :: 0 <= i < |powerset3| ==> IndexSet(powerset3[i], 3))
  {
    FixedTablesValid();
  }

  /**
   For dims 5, 6 and 8 with id 0 and every cost id the registry succeeds, and
   the last entry is the full control set, so its random set is empty.
   */
  lemma FixedTablesEndWithFullSet(dims: int, controlId: int, costsId: int, powerset3: seq<seq<nat>>)
    requires (dims == 5 || dims == 6 || dims == 8) && controlId == 0
    requires 0 <= costsId <= 2
    ensures GetControlSetsAndCosts(dims, controlId, costsId, powerset3).Ok?
    ensures var c := GetControlSetsAndCosts(dims, controlId, costsId, powerset3).value;
      && |c.controlSets| == 7
      && Last(c.controlSets) == Range(dims)
      && Last(c.randomSets) == []
  {
    RegistrySucceedsIff(dims, controlId, costsId, powerset3);
    FullSetEmptyComplement(dims);
  }

  /**
   The dims-5 id-1 catalog: seven two-element sets, none of them the full set,
   so every random set has exactly three elements and no entry has an empty
   random set.
   */
  lemma PairsCatalogShape(dims: int, controlId: int, costsId: int, powerset3: seq<seq<nat>>)
    requires dims == 5 && controlId == 1
    requires GetControlSetsAndCosts(dims, controlId, costsId, powerset3).Ok?
    ensures var c := GetControlSetsAndCosts(dims, controlId, costsId, powerset3).value;
      && |c.controlSets| == 7
      && (forall i :: 0 <= i < 7 ==> |c.controlSets[i]| == 2 && c.controlSets[i] != Range(5))
      && (forall i :: 0 <= i < 7 ==> |c.randomSets[i]| == 3)
  {
    var c := GetControlSetsAndCosts(dims, controlId, costsId, powerset3).value;
    assert c.controlSets == Dims5Pairs;
    PairsEntries(c, dims);
  }

  lemma PairsEntries(c: Catalog, n: nat)
    requires n == 5 && Valid(c, n) && c.controlSets == Dims5Pairs
    ensures forall i :: 0 <= i < 7 ==> |c.controlSets[i]| == 2 && c.controlSets[i] != Range(n)
    ensures forall i :: 0 <= i < 7 ==> |c.randomSets[i]| == 3
  {
    PairSizes();
    forall i | 0 <= i < 7
      ensures |c.controlSets[i]| == 2 && c.controlSets[i] != Range(n)
      ensures |c.randomSets[i]| == 3
    {
      assert |c.controlSets[i]| == 2 && |Range(n)| == 5;
      ValidEntriesPartition(c, n, i);
    }
  }

  lemma PairSizes()
    ensures |Dims5Pairs| == 7 && forall i :: 0 <= i < 7 ==> |Dims5Pairs[i]| == 2
  {
  }

  /**
   The two catalogs agree wherever core/psq.py has an entry: this catalog only
   adds keys (dims 8, and id 1 for dims 5), it changes none.
   */
  lemma ExtendsPsqCatalog(dims: int, controlSetsId: int, costsId: int, powerset3: seq<seq<nat>>)
    requires PsqCatalog.Supported(dims, controlSetsId)
    ensures Supported(dims, controlSetsId)
    ensures GetControlSetsAndCosts(dims, controlSetsId, costsId, powerset3)
            == PsqCatalog.GetControlSetsAndCosts(dims, controlSetsId, costsId, powerset3)
  {
  }
}
