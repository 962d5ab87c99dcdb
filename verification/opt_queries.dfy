/**
 The plumbing of `get_opt_queries_and_vals` in core/dists.py: for every
 control set it builds the problem handed to the maximizer (`maximize_fn`,
 in core/utils, which is not part of this model and is the parameter
 `maximize`), and collects one query and one value per control set.

 A problem is either the plain objective over all bounds (the "full control
 set" shortcut) or the expectation of the objective over the random set's
 sample columns, with `order_idxs` telling the expectation how to put the
 control values and the sampled values back in variable order.

 Matrices are sequences of columns: `all_dists_samples` (samples by
 variables) is one column of samples per variable, `bounds` (2 by variables)
 one `Interval` per variable.
 */
module OptQueries {
  import opened Outcomes
  import opened IndexSets

  /** One column of `bounds`. */
  datatype Interval = Interval(lower: real, upper: real)

  /** The arguments of one `maximize_fn` call. */
  datatype Problem =
    | Direct(nWarmup: nat, bounds: seq<Interval>)
    | Expectation(randomSamples: seq<seq<real>>, orderIdxs: seq<nat>, bounds: seq<Interval>)

  /** `n_warmup=10000` of the shortcut's call. */
  const Warmup: nat := 10000

  /** `A[:, idxs]`: the columns `idxs` in that order; an index past the last column raises. */
  function SelectColumns<T>(columns: seq<T>, idxs: seq<nat>): (r: Result<seq<T>>)
    ensures r.Ok? <==> Below(idxs, |columns|)
    ensures r.Err? ==> r.error == IndexError
    ensures r.Ok? ==> |r.value| == |idxs| && forall k :: 0 <= k < |idxs| ==> r.value[k] == columns[idxs[k]]
  {
    if Below(idxs, |columns|) then Ok(seq(|idxs|, k requires 0 <= k < |idxs| => columns[idxs[k]]))
    else Err(IndexError)
  }

  // ---------------------------------------------------------------------
  // order_idxs

  /** `np.where(s == x)[0]`, first element if any. */
  function FirstIndex(s: seq<nat>, x: nat): (r: Option<nat>)
    ensures r.Some? <==> x in s
    ensures r.Some? ==> r.value < |s| && s[r.value] == x && forall k :: 0 <= k < r.value ==> s[k] != x
    decreases |s|
  {
    if |s| == 0 then None
    else if s[0] == x then Some(0)
    else match FirstIndex(s[1..], x)
      case None => None
      case Some(k) => Some(k + 1)
  }

  /**
   The list comprehension building `order_idxs` from `j0` on: for each `j`
   the first position of `j` in `cat`; `[0][0]` on an empty match raises.
   */
  function OrderFrom(cat: seq<nat>, j0: nat): (r: Result<seq<nat>>)
    requires j0 <= |cat|
    ensures r.Ok? <==> forall j :: j0 <= j < |cat| ==> j in cat
    ensures r.Err? ==> r.error == IndexError
    ensures r.Ok? ==> |r.value| == |cat| - j0
    ensures r.Ok? ==> forall k :: 0 <= k < |r.value| ==>
      && r.value[k] < |cat| && cat[r.value[k]] == j0 + k
      && forall m :: 0 <= m < r.value[k] ==> cat[m] != j0 + k
    decreases |cat| - j0
  {
    if j0 == |cat| then Ok([])
    else match FirstIndex(cat, j0)
      case None => Err(IndexError)
      case Some(k) =>
        var rest :- OrderFrom(cat, j0 + 1);
        Ok([k] + rest)
  }

  /** `order_idxs` for `cat_idxs = control ++ random`. */
  function OrderIdxs(cat: seq<nat>): (r: Result<seq<nat>>)
    ensures r.Ok? <==> forall j :: 0 <= j < |cat| ==> j in cat
    ensures r.Err? ==> r.error == IndexError
    ensures r.Ok? ==> |r.value| == |cat| && forall j :: 0 <= j < |r.value| ==>
      && r.value[j] < |cat| && cat[r.value[j]] == j
      && forall m :: 0 <= m < r.value[j] ==> cat[m] != j
  {
    OrderFrom(cat, 0)
  }

  /**
   When a control set and its random set cover `[0, n)` exactly once (what
   the registry validates), `order_idxs` exists and is the inverse of the
   permutation `control ++ random`, in both directions.
   */
  lemma InversePermutation(controlSet: seq<nat>, randomSet: seq<nat>, n: nat)
    requires CoversExactly(controlSet, randomSet, n)
    ensures var cat := controlSet + randomSet;
      && |cat| == n
      && OrderIdxs(cat).Ok?
      && |OrderIdxs(cat).value| == n
      && (forall j :: 0 <= j < n ==> OrderIdxs(cat).value[j] < n && cat[OrderIdxs(cat).value[j]] == j)
      && (forall k :: 0 <= k < n ==> cat[k] < n && OrderIdxs(cat).value[cat[k]] == k)
  {
    var cat := controlSet + randomSet;
    CoverPartitions(controlSet, randomSet, n);
    assert forall j :: 0 <= j < |cat| ==> j in cat;
    var order := OrderIdxs(cat).value;
    forall k | 0 <= k < n
      ensures cat[k] < n && order[cat[k]] == k
    {
      assert cat[k] in cat;
      var j := cat[k];
      assert cat[order[j]] == j;
    }
  }

  /** `row[order]`: the row put back in variable order. */
  function Reorder(row: seq<real>, order: seq<nat>): (r: seq<real>)
    requires forall j :: 0 <= j < |order| ==> order[j] < |row|
    ensures |r| == |order|
  {
    seq(|order|, j requires 0 <= j < |order| => row[order[j]])
  }

  /**
   Reordering a row made of the control values followed by the sampled
   random-set values puts each variable's value in its own column: control
   value `k` lands in column `controlSet[k]`, sample `k` in column
   `randomSet[k]`.
   */
  lemma ReorderPlaces(controlSet: seq<nat>, randomSet: seq<nat>, n: nat, x: seq<real>, sampled: seq<real>)
    requires CoversExactly(controlSet, randomSet, n)
    requires |x| == |controlSet| && |sampled| == |randomSet|
    ensures forall k :: 0 <= k < |controlSet| ==> controlSet[k] < n
    ensures forall k :: 0 <= k < |randomSet| ==> randomSet[k] < n
    ensures OrderIdxs(controlSet + randomSet).Ok?
    ensures forall j :: 0 <= j < |OrderIdxs(controlSet + randomSet).value| ==>
      OrderIdxs(controlSet + randomSet).value[j] < |x + sampled|
    ensures var full := Reorder(x + sampled, OrderIdxs(controlSet + randomSet).value);
      && |full| == n
      && (forall k :: 0 <= k < |controlSet| ==> full[controlSet[k]] == x[k])
      && (forall k :: 0 <= k < |randomSet| ==> full[randomSet[k]] == sampled[k])
  {
    InversePermutation(controlSet, randomSet, n);
    ReorderSplit(controlSet, randomSet, OrderIdxs(controlSet + randomSet).value, n, x, sampled);
  }

  /** `ReorderPlaces` for any `order` that undoes `controlSet ++ randomSet`. */
  lemma ReorderSplit(controlSet: seq<nat>, randomSet: seq<nat>, order: seq<nat>, n: nat,
                     x: seq<real>, sampled: seq<real>)
    requires |x| == |controlSet| && |sampled| == |randomSet|
    requires |controlSet + randomSet| == n && |order| == n
    requires forall j :: 0 <= j < n ==> order[j] < n
    requires forall k :: 0 <= k < n ==> (controlSet + randomSet)[k] < n && order[(controlSet + randomSet)[k]] == k
    ensures forall k :: 0 <= k < |controlSet| ==> controlSet[k] < n
    ensures forall k :: 0 <= k < |randomSet| ==> randomSet[k] < n
    ensures forall j :: 0 <= j < |order| ==> order[j] < |x + sampled|
    ensures var full := Reorder(x + sampled, order);
      && (forall k :: 0 <= k < |controlSet| ==> full[controlSet[k]] == x[k])
      && (forall k :: 0 <= k < |randomSet| ==> full[randomSet[k]] == sampled[k])
  {
    var cat := controlSet + randomSet;
    var row := x + sampled;
    forall k | 0 <= k < |controlSet|
      ensures controlSet[k] < n && Reorder(row, order)[controlSet[k]] == x[k]
    {
      assert cat[k] == controlSet[k];
      ReorderAt(cat, order, row, k);
    }
    forall k | 0 <= k < |randomSet|
      ensures randomSet[k] < n && Reorder(row, order)[randomSet[k]] == sampled[k]
    {
      assert cat[|controlSet| + k] == randomSet[k];
      ReorderAt(cat, order, row, |controlSet| + k);
    }
  }

  /** Position `k` of the row lands in column `cat[k]` when `order` undoes `cat` there. */
  lemma ReorderAt(cat: seq<nat>, order: seq<nat>, row: seq<real>, k: nat)
    requires forall j :: 0 <= j < |order| ==> order[j] < |row|
    requires k < |cat| && cat[k] < |order| && order[cat[k]] == k
    ensures Reorder(row, order)[cat[k]] == row[k]
  {
  }

  // ---------------------------------------------------------------------
  // One problem per control set

  /**
   How the "full control set" shortcut is decided. The source compares the
   number of control sets with `dims` (`CatalogSize`); the comment next to it
   says the test is meant to detect the full control set (`ControlSetSize`).
   */
  datatype ShortcutRule = CatalogSize | ControlSetSize

  predicate TakesShortcut(rule: ShortcutRule, controlSets: seq<seq<nat>>, i: nat, dims: nat)
    requires i < |controlSets|
  {
    match rule
    case CatalogSize => |controlSets| == dims
    case ControlSetSize => |controlSets[i]| == dims
  }

  /** What the expectation branch needs to succeed for control set `i`. */
  predicate ExpectationDefined(controlSets: seq<seq<nat>>, randomSets: seq<seq<nat>>,
                               samples: seq<seq<real>>, bounds: seq<Interval>, i: nat)
    requires i < |controlSets|
  {
    && i < |randomSets|
    && Below(randomSets[i], |samples|)
    && (forall j :: 0 <= j < |controlSets[i] + randomSets[i]| ==> j in controlSets[i] + randomSets[i])
    && Below(controlSets[i], |bounds|)
  }

  /**
   The body of the loop for control set `i`, up to the `maximize_fn` call:
   the shortcut maximizes the objective over all bounds; otherwise the
   problem is built from the random set's sample columns, `order_idxs` and the
   control set's bounds, raising IndexError in the order the source evaluates
   them.
   */
  function Entry(rule: ShortcutRule, controlSets: seq<seq<nat>>, randomSets: seq<seq<nat>>,
                 samples: seq<seq<real>>, bounds: seq<Interval>, i: nat)
    : (r: Result<Problem>)
    requires i < |controlSets|
    ensures TakesShortcut(rule, controlSets, i, |bounds|) ==> r == Ok(Direct(Warmup, bounds))
    ensures !TakesShortcut(rule, controlSets, i, |bounds|) ==>
      (r.Ok? <==> ExpectationDefined(controlSets, randomSets, samples, bounds, i))
    ensures r.Err? ==> r.error == IndexError
    ensures !TakesShortcut(rule, controlSets, i, |bounds|) && r.Ok? ==>
      var p := r.value;
      && p.Expectation?
      && |p.randomSamples| == |randomSets[i]|
      && (forall k :: 0 <= k < |randomSets[i]| ==> p.randomSamples[k] == samples[randomSets[i][k]])
      && |p.bounds| == |controlSets[i]|
      && (forall k :: 0 <= k < |controlSets[i]| ==> p.bounds[k] == bounds[controlSets[i][k]])
      && p.orderIdxs == OrderIdxs(controlSets[i] + randomSets[i]).value
  {
    var controlSet := controlSets[i];
    if TakesShortcut(rule, controlSets, i, |bounds|) then Ok(Direct(Warmup, bounds))
    else
      var randomSet :- At(randomSets, i);
      var randomSamples :- SelectColumns(samples, randomSet);
      var orderIdxs :- OrderIdxs(controlSet + randomSet);
      var controlBounds :- SelectColumns(bounds, controlSet);
      Ok(Expectation(randomSamples, orderIdxs, controlBounds))
  }

  /** The problems for control sets `i0` onwards, stopping at the first error. */
  function EntriesFrom(rule: ShortcutRule, controlSets: seq<seq<nat>>, randomSets: seq<seq<nat>>,
                       samples: seq<seq<real>>, bounds: seq<Interval>, i0: nat)
    : (r: Result<seq<Problem>>)
    requires i0 <= |controlSets|
    ensures r.Ok? <==> forall i :: i0 <= i < |controlSets| ==> Entry(rule, controlSets, randomSets, samples, bounds, i).Ok?
    ensures r.Err? ==> r.error == IndexError
    ensures r.Ok? ==> |r.value| == |controlSets| - i0
    ensures r.Ok? ==> forall i :: i0 <= i < |controlSets| ==>
      r.value[i - i0] == Entry(rule, controlSets, randomSets, samples, bounds, i).value
    decreases |controlSets| - i0
  {
    if i0 == |controlSets| then Ok([])
    else
      var p :- Entry(rule, controlSets, randomSets, samples, bounds, i0);
      var rest :- EntriesFrom(rule, controlSets, randomSets, samples, bounds, i0 + 1);
      Ok([p] + rest)
  }

  /**
   `get_opt_queries_and_vals`: one query and one value per control set,
   entry `i` being the maximizer's answer to control set `i`'s problem. The
   source takes the shortcut rule `CatalogSize`. The maximizer is randomised
   (random restarts), so it receives the position `i` of its call as well:
   the same problem posed twice may get two different answers.
   */
  function GetOptQueriesAndVals(rule: ShortcutRule, maximize: (nat, Problem) -> (seq<real>, real),
                                controlSets: seq<seq<nat>>, randomSets: seq<seq<nat>>,
                                samples: seq<seq<real>>, bounds: seq<Interval>)
    : (r: Result<(seq<seq<real>>, seq<real>)>)
    ensures r.Ok? <==> forall i :: 0 <= i < |controlSets| ==> Entry(rule, controlSets, randomSets, samples, bounds, i).Ok?
    ensures r.Err? ==> r.error == IndexError
    ensures r.Ok? ==> |r.value.0| == |controlSets| && |r.value.1| == |controlSets|
    ensures r.Ok? ==> forall i :: 0 <= i < |controlSets| ==>
      (r.value.0[i], r.value.1[i]) == maximize(i, Entry(rule, controlSets, randomSets, samples, bounds, i).value)
  {
    var problems :- EntriesFrom(rule, controlSets, randomSets, samples, bounds, 0);
    var answers := seq(|problems|, i requires 0 <= i < |problems| => maximize(i, problems[i]));
    Ok((seq(|answers|, i requires 0 <= i < |answers| => answers[i].0),
        seq(|answers|, i requires 0 <= i < |answers| => answers[i].1)))
  }

  /**
   Control set `i`'s problem reads nothing of the sample matrix but its random
   set's columns and nothing of the bounds but its control set's columns
   (besides their number, which the shortcut test compares).
   */
  lemma EntryReadsOnlyItsColumns(rule: ShortcutRule, controlSets: seq<seq<nat>>, randomSets: seq<seq<nat>>,
                                 samples1: seq<seq<real>>, samples2: seq<seq<real>>,
                                 bounds1: seq<Interval>, bounds2: seq<Interval>, i: nat)
    requires i < |controlSets| && i < |randomSets|
    requires !TakesShortcut(rule, controlSets, i, |bounds1|)
    requires |samples1| == |samples2| && |bounds1| == |bounds2|
    requires forall k :: 0 <= k < |randomSets[i]| && randomSets[i][k] < |samples1| ==>
      samples1[randomSets[i][k]] == samples2[randomSets[i][k]]
    requires forall k :: 0 <= k < |controlSets[i]| && controlSets[i][k] < |bounds1| ==>
      bounds1[controlSets[i][k]] == bounds2[controlSets[i][k]]
    ensures Entry(rule, controlSets, randomSets, samples1, bounds1, i)
            == Entry(rule, controlSets, randomSets, samples2, bounds2, i)
  {
    var e1 := Entry(rule, controlSets, randomSets, samples1, bounds1, i);
    var e2 := Entry(rule, controlSets, randomSets, samples2, bounds2, i);
    if e1.Ok? {
      assert e1.value.randomSamples == e2.value.randomSamples;
      assert e1.value.bounds == e2.value.bounds;
    }
  }

  /**
   With a validated catalog entry (control set and random set covering
   `[0, dims)` exactly once) the expectation branch always succeeds, and its
   `order_idxs` is the inverse permutation.
   */
  lemma ValidEntrySucceeds(rule: ShortcutRule, controlSets: seq<seq<nat>>, randomSets: seq<seq<nat>>,
                           samples: seq<seq<real>>, bounds: seq<Interval>, i: nat)
    requires i < |controlSets| && i < |randomSets|
    requires CoversExactly(controlSets[i], randomSets[i], |bounds|) && |samples| == |bounds|
    ensures Entry(rule, controlSets, randomSets, samples, bounds, i).Ok?
  {
    var n := |bounds|;
    CoverPartitions(controlSets[i], randomSets[i], n);
    InversePermutation(controlSets[i], randomSets[i], n);
    var cat := controlSets[i] + randomSets[i];
    forall k | 0 <= k < |randomSets[i]|
      ensures randomSets[i][k] < |samples|
    {
      assert randomSets[i][k] in cat;
    }
    forall k | 0 <= k < |controlSets[i]|
      ensures controlSets[i][k] < |bounds|
    {
      assert controlSets[i][k] in cat;
    }
  }

  // ---------------------------------------------------------------------
  // The shortcut test

  /**
   As written, the shortcut fires for every control set as soon as there are
   exactly `dims` of them. With two variables and the control sets `{0}` and
   `{0, 1}`, control set `{0}` is maximized directly over both variables'
   bounds, as if variable 1 were controlled rather than random.
   */
  lemma CatalogSizeShortcutMisfires(bounds: seq<Interval>, samples: seq<seq<real>>)
    requires |bounds| == 2
    ensures var controlSets: seq<seq<nat>> := [[0], [0, 1]];
      var randomSets: seq<seq<nat>> := [[1], []];
      var p := Entry(CatalogSize, controlSets, randomSets, samples, bounds, 0);
      && CoversExactly(controlSets[0], randomSets[0], 2)
      && p == Ok(Direct(Warmup, bounds))
      && |p.value.bounds| != |controlSets[0]|
  {
    var controlSets: seq<seq<nat>> := [[0], [0, 1]];
    var randomSets: seq<seq<nat>> := [[1], []];
    assert controlSets[0] + randomSets[0] == [0, 1];
    var cat: seq<nat> := [0, 1];
    assert Range(2) == cat;
  }

  /**
   And for the catalogs themselves (seven control sets, 3 to 8 variables) it
   never fires, not even for the full control set, which then goes through
   the expectation branch with an empty random set.
   */
  lemma CatalogSizeShortcutNeverFiresOnCatalogs(controlSets: seq<seq<nat>>, randomSets: seq<seq<nat>>,
                                                samples: seq<seq<real>>, bounds: seq<Interval>, i: nat)
    requires |controlSets| == 7 && |bounds| != 7 && i < 7
    ensures Entry(CatalogSize, controlSets, randomSets, samples, bounds, i) != Ok(Direct(Warmup, bounds))
  {
  }

  /**
   With the intended test every problem ranges over exactly its control
   set's variables: the shortcut only fires for a control set with all `dims`
   variables, and for a control set that is an index set this means it is the
   full set, whose random set is empty.
   */
  lemma ControlSetSizeShortcutIsFullSet(controlSets: seq<seq<nat>>, randomSets: seq<seq<nat>>,
                                        samples: seq<seq<real>>, bounds: seq<Interval>, i: nat)
    requires i < |controlSets|
    ensures var p := Entry(ControlSetSize, controlSets, randomSets, samples, bounds, i);
      p.Ok? ==> |p.value.bounds| == |controlSets[i]|
    ensures i < |randomSets| && CoversExactly(controlSets[i], randomSets[i], |bounds|) ==>
      (TakesShortcut(ControlSetSize, controlSets, i, |bounds|) <==> randomSets[i] == [])
  {
    if i < |randomSets| && CoversExactly(controlSets[i], randomSets[i], |bounds|) {
      CoverPartitions(controlSets[i], randomSets[i], |bounds|);
    }
  }
}
