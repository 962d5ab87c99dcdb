/**
 Dimension-index sets: the range `[0, dims)`, the random set computed as the
 sorted complement of a control set (`np.setdiff1d(np.arange(dims), c)`), and
 the registry's validation that a control set and its random set together
 cover every dimension exactly once.

 Both catalog modules (core/psq.py and core/cvs.py) share `get_random_sets`
 and the validation loop of `get_control_sets_and_costs` verbatim, so the
 shared logic lives here once.
 */
module IndexSets {
  import opened Outcomes

  /** `np.arange(n)`. */
  function Range(n: nat): (r: seq<nat>)
    ensures |r| == n
    ensures forall i :: 0 <= i < n ==> r[i] == i
  {
    seq(n, i => i)
  }

  predicate NoDup(s: seq<nat>) {
    forall i, j :: 0 <= i < j < |s| ==> s[i] != s[j]
  }

  predicate StrictlyIncreasing(s: seq<nat>) {
    forall i, j :: 0 <= i < j < |s| ==> s[i] < s[j]
  }

  predicate Below(s: seq<nat>, n: nat) {
    forall k :: 0 <= k < |s| ==> s[k] < n
  }

  /** A well-formed control set over `n` dimensions: distinct indices in `[0, n)`. */
  predicate IndexSet(s: seq<nat>, n: nat) {
    NoDup(s) && Below(s, n)
  }

  /** Every element of `a` is an element of `b`: `np.setdiff1d(a, b)` is empty. */
  predicate SubsetOf(a: seq<nat>, b: seq<nat>) {
    forall k :: 0 <= k < |a| ==> a[k] in b
  }

  /**
   `np.setdiff1d(np.arange(n), c)`: the values of `[0, n)` that are not in `c`,
   in increasing order and without repetition.
   */
  function SortedComplement(n: nat, c: seq<nat>): (r: seq<nat>)
    ensures StrictlyIncreasing(r)
    ensures Below(r, n)
    ensures forall x: nat :: x in r <==> x < n && x !in c
    decreases n
  {
    if n == 0 then []
    else
      var prefix := SortedComplement(n - 1, c);
      assert Below(prefix, n - 1);
      if n - 1 in c then prefix else prefix + [n - 1]
  }

  lemma HeadIsMember(s: seq<nat>)
    ensures |s| > 0 ==> s[0] in s
  {
  }

  /** A strictly increasing sequence is determined by its elements: sorting leaves no choice. */
  lemma {:induction false} StrictlyIncreasingUnique(a: seq<nat>, b: seq<nat>)
    requires StrictlyIncreasing(a) && StrictlyIncreasing(b)
    requires forall x :: x in a <==> x in b
    ensures a == b
    decreases |a| + |b|
  {
    if |a| == 0 || |b| == 0 {
      HeadIsMember(a);
      HeadIsMember(b);
    } else {
      assert a[0] in b;
      assert b[0] in a;
      assert a[0] == b[0];
      forall x
        ensures x in a[1..] <==> x in b[1..]
      {
        assert x in a[1..] <==> x in a && x != a[0];
        assert x in b[1..] <==> x in b && x != b[0];
      }
      StrictlyIncreasingUnique(a[1..], b[1..]);
      assert a == [a[0]] + a[1..];
      assert b == [b[0]] + b[1..];
    }
  }

  /**
   The validation of `get_control_sets_and_costs`:
   `np.sort(np.concatenate([c, r])) == np.arange(n)`. Sorting is determined
   by the multiset of values, so this is equality of multisets.
   */
  predicate CoversExactly(c: seq<nat>, r: seq<nat>, n: nat) {
    multiset(c + r) == multiset(Range(n))
  }

  /** `get_random_sets`: one sorted complement per control set. */
  function RandomSets(n: nat, controlSets: seq<seq<nat>>): (rs: seq<seq<nat>>)
    ensures |rs| == |controlSets|
    ensures forall i :: 0 <= i < |rs| ==> forall x: nat :: x in rs[i] <==> x < n && x !in controlSets[i]
    ensures forall i :: 0 <= i < |rs| ==> StrictlyIncreasing(rs[i])
  {
    seq(|controlSets|, i requires 0 <= i < |controlSets| => SortedComplement(n, controlSets[i]))
  }

  /** The registry's check over every catalog entry. */
  predicate AllCover(controlSets: seq<seq<nat>>, randomSets: seq<seq<nat>>, n: nat)
    requires |controlSets| == |randomSets|
  {
    forall i :: 0 <= i < |controlSets| ==> CoversExactly(controlSets[i], randomSets[i], n)
  }

  // ---------------------------------------------------------------------
  // Counting lemmas relating duplicate-freedom to multiset multiplicities

  lemma {:induction false} NoDupCount(s: seq<nat>, x: nat)
    requires NoDup(s)
    ensures multiset(s)[x] == if x in s then 1 else 0
  {
    if |s| > 0 {
      assert s == [s[0]] + s[1..];
      assert NoDup(s[1..]);
      NoDupCount(s[1..], x);
      assert s[0] !in s[1..];
    }
  }

  lemma DupCount(s: seq<nat>, i: nat, j: nat)
    requires i < j < |s| && s[i] == s[j]
    ensures multiset(s)[s[i]] >= 2
  {
    assert s == s[..j] + s[j..];
    assert s[i] in s[..j];
    assert s[j] in s[j..];
    assert multiset(s) == multiset(s[..j]) + multiset(s[j..]);
  }

  lemma StrictlyIncreasingNoDup(s: seq<nat>)
    requires StrictlyIncreasing(s)
    ensures NoDup(s)
  {
  }

  lemma RangeIndexSet(n: nat)
    ensures IndexSet(Range(n), n)
    ensures forall x: nat :: x in Range(n) <==> x < n
  {
    forall x: nat | x < n
      ensures x in Range(n)
    {
      assert Range(n)[x] == x;
    }
  }

  /**
   The validation succeeds for a control set and its sorted complement exactly
   when the control set is a genuine index set: duplicate-free and inside
   `[0, n)`.
   */
  lemma ComplementCovers(n: nat, c: seq<nat>)
    ensures CoversExactly(c, SortedComplement(n, c), n) <==> IndexSet(c, n)
  {
    var r := SortedComplement(n, c);
    if IndexSet(c, n) {
      IndexSetCovers(n, c);
    }
    if CoversExactly(c, r, n) {
      CoverPartitions(c, r, n);
      forall i, j | 0 <= i < j < |c|
        ensures c[i] != c[j]
      {
        assert (c + r)[i] == c[i] && (c + r)[j] == c[j];
      }
      forall k | 0 <= k < |c|
        ensures c[k] < n
      {
        assert c[k] in c + r;
      }
    }
  }

  /** An index set and its sorted complement cover `[0, n)` exactly once. */
  lemma IndexSetCovers(n: nat, c: seq<nat>)
    requires IndexSet(c, n)
    ensures CoversExactly(c, SortedComplement(n, c), n)
  {
    var r := SortedComplement(n, c);
    RangeIndexSet(n);
    StrictlyIncreasingNoDup(r);
    forall x: nat
      ensures multiset(c + r)[x] == multiset(Range(n))[x]
    {
      assert multiset(c + r) == multiset(c) + multiset(r);
      ComplementCount(n, c, r, x);
    }
    assert multiset(c + r) == multiset(Range(n));
  }

  lemma ComplementCount(n: nat, c: seq<nat>, r: seq<nat>, x: nat)
    requires IndexSet(c, n) && NoDup(r) && NoDup(Range(n))
    requires forall y: nat :: y in r <==> y < n && y !in c
    requires forall y: nat :: y in Range(n) <==> y < n
    ensures multiset(c)[x] + multiset(r)[x] == multiset(Range(n))[x]
  {
    NoDupCount(c, x);
    NoDupCount(r, x);
    NoDupCount(Range(n), x);
    if x in c {
      var k :| 0 <= k < |c| && c[k] == x;
      assert x < n;
    }
  }

  /** A valid control set and its random set partition `[0, n)`: disjoint, and sizes add up. */
  lemma CoverPartitions(c: seq<nat>, r: seq<nat>, n: nat)
    requires CoversExactly(c, r, n)
    ensures |c| + |r| == n
    ensures forall x: nat :: x in c + r <==> x < n
    ensures forall x :: x in c ==> x !in r
    ensures NoDup(c + r)
  {
    RangeIndexSet(n);
    assert |multiset(c + r)| == |multiset(Range(n))|;
    forall x: nat
      ensures x in c + r <==> x < n
    {
      assert x in c + r <==> x in multiset(c + r);
      assert x in Range(n) <==> x in multiset(Range(n));
    }
    forall i, j | 0 <= i < j < |c + r|
      ensures (c + r)[i] != (c + r)[j]
    {
      if (c + r)[i] == (c + r)[j] {
        DupCount(c + r, i, j);
        NoDupCount(Range(n), (c + r)[i]);
        assert false;
      }
    }
    forall x | x in c
      ensures x !in r
    {
      NoDupCount(Range(n), x);
      assert multiset(c + r) == multiset(c) + multiset(r);
    }
  }

  /** The random set of a valid control set has exactly the remaining `n - |c|` dimensions. */
  lemma ComplementSize(n: nat, c: seq<nat>)
    requires IndexSet(c, n)
    ensures |SortedComplement(n, c)| == n - |c|
  {
    ComplementCovers(n, c);
    CoverPartitions(c, SortedComplement(n, c), n);
  }

  /** The full control set leaves an empty random set. */
  lemma FullSetEmptyComplement(n: nat)
    ensures SortedComplement(n, Range(n)) == []
  {
    RangeIndexSet(n);
    ComplementSize(n, Range(n));
  }
}
