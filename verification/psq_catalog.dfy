/**
 The control-set catalog of core/psq.py, the one the experiment driver
 (bigger_exp.py) uses: dims 3, 5 and 6, catalog id 0 only.
 */
module PsqCatalog {
  import opened Outcomes
  import opened IndexSets
  import opened Registry

  const Dims5: seq<seq<nat>> :=
    [[0, 1], [2, 3], [3, 4], [0, 1, 2], [1, 2, 3], [2, 3, 4], [0, 1, 2, 3, 4]]

  const Dims6: seq<seq<nat>> :=
    [[0, 1], [2, 3], [4, 5], [0, 1, 2, 3], [1, 2, 3, 4], [2, 3, 4, 5], [0, 1, 2, 3, 4, 5]]

  /** The `(dims, id)` keys `get_control_sets` accepts. */
  predicate Supported(dims: int, controlId: int) {
    (dims == 3 || dims == 5 || dims == 6) && controlId == 0
  }

  /**
   `get_control_sets`. The dims-3 catalog is `powerset(np.arange(3))`, computed
   by core/utils, which is not part of this model: it is the parameter
   `powerset3`, and nothing is assumed about its order or contents.
   */
  function ControlSets(dims: int, controlId: int, powerset3: seq<seq<nat>>): (r: Result<seq<seq<nat>>>)
    ensures r.Ok? <==> Supported(dims, controlId)
    ensures r.Err? ==> r.error == NotImplemented
    ensures r.Ok? && dims == 3 ==> r.value == powerset3
    ensures r.Ok? && dims != 3 ==> |r.value| == 7 && Last(r.value) == Range(dims)
  {
    if dims == 3 then
      if controlId == 0 then Ok(powerset3) else Err(NotImplemented)
    else if dims == 5 then
      if controlId == 0 then Ok(Dims5) else Err(NotImplemented)
    else if dims == 6 then
      if controlId == 0 then Ok(Dims6) else Err(NotImplemented)
    else
      Err(NotImplemented)
  }

  /** What the unseen `powerset` must deliver for the dims-3 catalog to pass validation. */
  predicate ValidPowerset(p: seq<seq<nat>>) {
    |p| == 7 && forall i :: 0 <= i < |p| ==> IndexSet(p[i], 3)
  }

  /**
   `get_control_sets_and_costs`: an unsupported key fails before anything else
   is looked at; a result that comes back is a validated catalog.
   */
  function GetControlSetsAndCosts(dims: int, controlSetsId: int, costsId: int, powerset3: seq<seq<nat>>)
    : (r: Result<Catalog>)
    ensures !Supported(dims, controlSetsId) ==> r == Err(NotImplemented)
    ensures r.Ok? ==> dims >= 0 && Valid(r.value, dims)
    ensures r.Ok? ==> Supported(dims, controlSetsId) && r.value.controlSets == ControlSets(dims, controlSetsId, powerset3).value
    ensures r.Ok? ==> 0 <= costsId <= 2 && r.value.costs == Costs(costsId).value
  {
    var controlSets :- ControlSets(dims, controlSetsId, powerset3);
    assert Supported(dims, controlSetsId) && dims >= 3;
    Assemble(dims, controlSets, costsId)
  }

  /** Every entry of the dims-5 and dims-6 tables is an index set over its dims. */
  lemma FixedTablesValid()
    ensures forall i :: 0 <= i < |Dims5| ==> IndexSet(Dims5[i], 5)
    ensures forall i :: 0 <= i < |Dims6| ==> IndexSet(Dims6[i], 6)
  {
  }

  /**
   The registry succeeds exactly for the supported keys with cost ids 0..2
   (and, for dims 3, a powerset that passes validation); a dims-3 powerset
   with an entry that is not an index set makes the validation raise, it is
   not a silent default.
   */
  lemma RegistrySucceedsIff(dims: int, controlSetsId: int, costsId: int, powerset3: seq<seq<nat>>)
    ensures GetControlSetsAndCosts(dims, controlSetsId, costsId, powerset3).Ok? <==>
      Supported(dims, controlSetsId) && 0 <= costsId <= 2 && (dims == 3 ==> ValidPowerset(powerset3))
    ensures Supported(dims, controlSetsId) && dims == 3
            && (exists i :: 0 <= i < |powerset3| && !IndexSet(powerset3[i], 3))
            ==> GetControlSetsAndCosts(dims, controlSetsId, costsId, powerset3) == Err(ShapeMismatch)
  {
    FixedTablesValid();
  }

  /**
   For dims 5 and 6 and every cost id the registry succeeds, and the last of
   the seven entries is the full control set, so its random set is empty.
   */
  lemma FixedTablesEndWithFullSet(dims: int, costsId: int, powerset3: seq<seq<nat>>)
    requires dims == 5 || dims == 6
    requires 0 <= costsId <= 2
    ensures GetControlSetsAndCosts(dims, 0, costsId, powerset3).Ok?
    ensures var c := GetControlSetsAndCosts(dims, 0, costsId, powerset3).value;
      && |c.controlSets| == 7
      && Last(c.controlSets) == Range(dims)
      && Last(c.randomSets) == []
  {
    RegistrySucceedsIff(dims, 0, costsId, powerset3);
    FullSetEmptyComplement(dims);
  }
}
