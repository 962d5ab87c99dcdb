/**
 The part of the control-set registry that core/psq.py and core/cvs.py share
 word for word: the cost catalog `get_costs`, and the tail of
 `get_control_sets_and_costs` that computes the random sets, validates every
 entry and checks the number of costs against the number of control sets.
 */
module Registry {
  import opened Outcomes
  import opened IndexSets

  /** The triple returned by `get_control_sets_and_costs`. */
  datatype Catalog = Catalog(controlSets: seq<seq<nat>>, randomSets: seq<seq<nat>>, costs: seq<real>)

  predicate NonDecreasing(s: seq<real>) {
    forall i, j :: 0 <= i <= j < |s| ==> s[i] <= s[j]
  }

  predicate AllPositive(s: seq<real>) {
    forall k :: 0 <= k < |s| ==> 0.0 < s[k]
  }

  /**
   A catalog that passed validation: one random set and one cost per control
   set, every control set an index set over `dims`, and every random set its
   sorted complement, so that the two together cover `[0, dims)` exactly once.
   */
  predicate Valid(c: Catalog, dims: nat) {
    && |c.randomSets| == |c.controlSets|
    && |c.costs| == |c.controlSets|
    && (forall i :: 0 <= i < |c.controlSets| ==> IndexSet(c.controlSets[i], dims))
    && (forall i :: 0 <= i < |c.controlSets| ==> c.randomSets[i] == SortedComplement(dims, c.controlSets[i]))
    && (forall i :: 0 <= i < |c.controlSets| ==> CoversExactly(c.controlSets[i], c.randomSets[i], dims))
  }

  /**
   `get_costs`: three fixed cost vectors of seven entries each, cheapest first,
   the last (full control set) at the reference cost 1.0. Any other id raises.
   */
  function Costs(costId: int): (r: Result<seq<real>>)
    ensures r.Ok? <==> 0 <= costId <= 2
    ensures r.Err? ==> r.error == NotImplemented
    ensures r.Ok? ==> |r.value| == 7 && Last(r.value) == 1.0
    ensures r.Ok? ==> NonDecreasing(r.value) && AllPositive(r.value)
  {
    if costId == 0 then Ok([0.01, 0.01, 0.01, 0.1, 0.1, 0.1, 1.0])
    else if costId == 1 then Ok([0.1, 0.1, 0.1, 0.2, 0.2, 0.2, 1.0])
    else if costId == 2 then Ok([0.6, 0.6, 0.6, 0.8, 0.8, 0.8, 1.0])
    else Err(NotImplemented)
  }

  /**
   Everything `get_control_sets_and_costs` does after the control sets have
   been looked up: the random sets, the per-entry cover check, the cost
   lookup, and the length assertion, failing in that order.

   The cover check is `assert np.allclose(sorted(control ++ random),
   arange(dims))`. Its assertion never fails: the concatenation has exactly
   `dims` elements precisely when the control set is an index set (and then
   it sorts to `arange(dims)`), and otherwise it has more, so `allclose`
   cannot broadcast the two arrays and raises ValueError first. The catalogs
   only ever pass 3, 5, 6 or 8 variables; with fewer than two, numpy's
   length-1 broadcasting would change the outcome, so those are excluded.
   */
  function Assemble(dims: nat, controlSets: seq<seq<nat>>, costId: int): (r: Result<Catalog>)
    requires dims >= 2
    ensures r.Ok? <==>
      && (forall i :: 0 <= i < |controlSets| ==> IndexSet(controlSets[i], dims))
      && 0 <= costId <= 2
      && |controlSets| == 7
    ensures r.Ok? ==> Valid(r.value, dims) && r.value.controlSets == controlSets
    ensures r.Ok? ==> r.value.costs == Costs(costId).value
    ensures (exists i :: 0 <= i < |controlSets| && !IndexSet(controlSets[i], dims)) ==> r == Err(ShapeMismatch)
    ensures (forall i :: 0 <= i < |controlSets| ==> IndexSet(controlSets[i], dims)) && !(0 <= costId <= 2)
            ==> r == Err(NotImplemented)
    ensures (forall i :: 0 <= i < |controlSets| ==> IndexSet(controlSets[i], dims))
            && 0 <= costId <= 2 && |controlSets| != 7
            ==> r == Err(AssertionFailed)
  {
    var randomSets := RandomSets(dims, controlSets);
    AllCoverIff(dims, controlSets);
    var _ :- Need(AllCover(controlSets, randomSets, dims), ShapeMismatch);
    var costs :- Costs(costId);
    var _ :- Need(|costs| == |controlSets|, AssertionFailed);
    Ok(Catalog(controlSets, randomSets, costs))
  }

  /** The per-entry validation passes exactly when every control set is an index set. */
  lemma AllCoverIff(dims: nat, controlSets: seq<seq<nat>>)
    ensures AllCover(controlSets, RandomSets(dims, controlSets), dims)
            <==> forall i :: 0 <= i < |controlSets| ==> IndexSet(controlSets[i], dims)
  {
    forall i | 0 <= i < |controlSets|
      ensures CoversExactly(controlSets[i], RandomSets(dims, controlSets)[i], dims)
              <==> IndexSet(controlSets[i], dims)
    {
      ComplementCovers(dims, controlSets[i]);
    }
  }

  /**
   In a validated catalog each entry's control set and random set are
   disjoint, their union is `[0, dims)`, and their sizes add up to `dims`.
   */
  lemma ValidEntriesPartition(c: Catalog, dims: nat, i: nat)
    requires Valid(c, dims) && i < |c.controlSets|
    ensures |c.controlSets[i]| + |c.randomSets[i]| == dims
    ensures forall x: nat :: x in c.controlSets[i] + c.randomSets[i] <==> x < dims
    ensures forall x :: x in c.controlSets[i] ==> x !in c.randomSets[i]
  {
    CoverPartitions(c.controlSets[i], c.randomSets[i], dims);
  }
}
