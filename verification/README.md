# Cost-varying variable subsets BO: catalogs, epsilon schedules and calibration

This project is a Dafny model of the bookkeeping core of a Bayesian-optimisation
code base. In that code, every iteration picks a *control set* of variables
to fix. The remaining variables form the *random set* and are drawn from
their distributions. Each control set has a cost.

The model covers four parts:

- **Catalogs** (`core/psq.py`, `core/cvs.py`). Fixed tables of control sets
  keyed by `(dims, id)` and fixed cost vectors. Each random set is the sorted
  complement of its control set. A validation step checks that control set
  and random set cover `[0, dims)` exactly once and that there is one cost
  per control set. The two files keep separate tables, and so does the model:
  `PsqCatalog` and `CvsCatalog` share only the `Registry` tail.
- **Epsilon schedules** (`core/psq.py`, `core/cvs.py`). State records with
  `next` (the epsilon for this iteration) and `update` (record the play).
  - `Linear` decays linearly to 0 at a cutoff.
  - `AdaLin` is the same decay, with its cutoff derived from cost ratios and
    variance sums.
  - `Ada` computes a target number of plays per control set. Sets dominated
    by a cheaper superset get target 0. `next` is a first-match scan over
    the optimised values of the control sets.
- **Scale calibration** (`core/dists.py`, `get_truncnorm_scale`). Bisection
  over an abstract variance function `f`, with the bracket checks, the
  bracket invariant and the closeness exit test.
- **Per-control-set plumbing** (`core/dists.py`, `get_opt_queries_and_vals`).
  Builds the problem handed to the maximiser for every control set, including
  the `order_idxs` permutation.

Representation choices:

- Python exceptions become `Err(kind)` values of `Outcomes.Result`.
- Floats are `real`s; `1e-04` is `1/10000`.
- Python `int()` is truncation toward zero (`Outcomes.Trunc`).
- Matrices are sequences of columns.

Modules, one per file:

| module | file |
|---|---|
| Outcomes | outcomes.dfy |
| IndexSets | index_sets.dfy |
| Registry | registry.dfy |
| PsqCatalog | psq_catalog.dfy |
| CvsCatalog | cvs_catalog.dfy |
| LinearDecay | linear_decay.dfy |
| PsqSchedules | psq_schedules.dfy |
| CvsSchedules | cvs_schedules.dfy |
| Distributions | distributions.dfy |
| OptQueries | opt_queries.dfy |
| Scenarios | scenarios.dfy (the configuration the experiment driver builds) |

## Model

| member | source | states |
|---|---|---|
| IndexSets.SortedComplement | core/psq.py:216-221 | `np.setdiff1d(arange(dims), c)` is strictly increasing, below `dims`, and contains exactly the `x < dims` not in `c` |
| IndexSets.RandomSets | core/psq.py:216-221 | `get_random_sets` gives one random set per control set, in order; random set `i` is strictly increasing and holds exactly the `x < dims` not in control set `i` (core/cvs.py:110-115 is the same function) |
| IndexSets.StrictlyIncreasingUnique | core/psq.py:216-221 | two strictly increasing sequences with the same elements are equal, so the sorted complement is determined by its set |
| IndexSets.ComplementCovers | core/psq.py:229-232 | the validation `sort(c ++ complement) == arange(dims)` holds if and only if `c` has no duplicates and all its elements are below `dims` |
| IndexSets.CoverPartitions | core/psq.py:229-232 | an entry that passes validation has no duplicate across control and random set, and together they contain exactly `[0, dims)` |
| IndexSets.ComplementSize | core/psq.py:216-221 | for a valid control set the random set has `dims - |c|` elements |
| IndexSets.FullSetEmptyComplement | core/psq.py:216-221 | the full control set `arange(dims)` has an empty random set |
| Registry.Costs | core/psq.py:203-213 | cost ids 0, 1, 2 give 7 positive, non-decreasing costs ending in 1.0; any other id raises NotImplementedError |
| Registry.Assemble | core/psq.py:224-238 | it succeeds exactly for 7 control sets that are all index sets and a cost id in 0..2; a successful result is a validated catalog with the looked-up costs; an invalid entry raises ValueError, a bad cost id NotImplementedError, and a count mismatch AssertionError |
| Registry.AllCoverIff | core/psq.py:229-232 | the per-entry check passes for every entry exactly when every control set is an index set |
| Registry.ValidEntriesPartition | core/cvs.py:118-132 | in a validated catalog each control set and its random set are disjoint, their union is `[0, dims)` and their sizes add up to `dims` |
| PsqCatalog.ControlSets | core/psq.py:164-200 | only dims 3, 5, 6 with id 0 succeed; otherwise NotImplementedError; dims 3 returns the given powerset; dims 5 and 6 return 7 sets ending in the full set |
| PsqCatalog.GetControlSetsAndCosts | core/psq.py:224-238 | an unsupported key raises NotImplementedError before anything else; every result is a validated catalog holding the looked-up control sets and cost vector |
| PsqCatalog.FixedTablesValid | core/psq.py:171-193 | every entry of the dims-5 and dims-6 tables is an index set over its dims |
| PsqCatalog.RegistrySucceedsIff | core/psq.py:164-238 | the registry succeeds if and only if the key is supported, the cost id is in 0..2 and (for dims 3) the powerset has 7 index sets; a bad dims-3 powerset raises instead of defaulting |
| PsqCatalog.FixedTablesEndWithFullSet | core/psq.py:164-238 | for dims 5 and 6 the registry succeeds with every cost id, and the last of seven entries is the full set with an empty random set |
| CvsCatalog.ControlSets | core/cvs.py:43-94 | dims 3, 6, 8 accept id 0 and dims 5 accepts ids 0 and 1; anything else raises NotImplementedError; fixed tables have 7 entries, and id 0 ends in the full set |
| CvsCatalog.GetControlSetsAndCosts | core/cvs.py:118-132 | an unsupported key raises NotImplementedError; every result is a validated catalog holding the looked-up control sets and cost vector (the same code as core/psq.py over the larger table) |
| CvsCatalog.FixedTablesValid | core/cvs.py:49-87 | every entry of the fixed tables is an index set over its dims |
| CvsCatalog.RegistrySucceedsIff | core/cvs.py:43-132 | the registry succeeds if and only if the key is supported, the cost id is in 0..2 and (dims 3) the powerset is valid |
| CvsCatalog.FixedTablesEndWithFullSet | core/cvs.py:43-132 | for dims 5, 6, 8 with id 0 the registry succeeds with every cost id, and the last entry is the full set with an empty random set |
| CvsCatalog.PairsCatalogShape | core/cvs.py:60-61 | the dims-5 id-1 catalog is seven two-element sets, none of them full, so every random set has three elements |
| CvsCatalog.ExtendsPsqCatalog | core/cvs.py:43-132 | on every key core/psq.py supports, the two registries return the same result; the cvs table only adds keys |
| LinearDecay.Eps | core/psq.py:155-158 | a zero cutoff raises ZeroDivisionError; `t = 0` gives `start_eps`; `t >= cutoff > 0` gives exactly 0; the value stays within `[0, start_eps]` |
| LinearDecay.PositiveBeforeCutoff | core/psq.py:155-158 | strictly before a positive cutoff a positive start gives a positive epsilon |
| LinearDecay.NonIncreasing | core/psq.py:155-158 | for a positive cutoff and non-negative start the epsilon never increases with `t` |
| PsqSchedules.DominatedFrom | core/psq.py:106-117 | the inner loop finds a `j != i` whose control set contains `i`'s and whose cost is at most `costs[i]`; it fails only on out-of-range indices |
| PsqSchedules.Target | core/psq.py:120-123 | the target is `int(costs[-1] / costs[i] * sum(variances/lengthscales over the random set))`, defined exactly when indices are in range and no divisor is zero |
| PsqSchedules.TargetsFrom | core/psq.py:104-123 | one target per non-last set, 0 for dominated sets, the formula otherwise |
| PsqSchedules.MakeAda | core/psq.py:88-123 | a non-empty last random set raises AssertionError; the result has `m` zero counters and `m` targets, the last 0, dominated sets 0, and others by the formula |
| PsqSchedules.MakeAdaSucceeds | core/psq.py:88-123 | with an empty last random set and computable ratios, construction succeeds |
| PsqSchedules.TargetsNonNegative | core/psq.py:120-123 | positive costs and lengthscales with non-negative variances give non-negative targets |
| PsqSchedules.ScanFrom | core/psq.py:127-137 | the scan returns the first eligible index at or after its start, or none when no index is eligible |
| PsqSchedules.Next | core/psq.py:125-141 | only `last_eps` changes; the linear variants (core/psq.py:78-81) give the linear decay; `Ada` gives `opt_vals[-1] - opt_vals[i] + 1e-4` for the chosen `i`, or 0.0 when none is eligible |
| PsqSchedules.Update | core/psq.py:143-145 | the linear variants add exactly 1 to `t`; `Ada` adds exactly 1 to the played counter (Python indexing), leaves every other counter and the targets alone, ignores `None`, and raises IndexError out of range |
| PsqSchedules.ChosenSeparates | core/psq.py:128-137 | the chosen `i` is not the last; it beats the best value at its epsilon; every earlier `j` stays strictly below the best; and its counter is below its target |
| PsqSchedules.ExhaustedNeverChosen | core/psq.py:135-137 | a set whose counter has reached its target, including a zero target, is never the source of the epsilon |
| PsqSchedules.FirstMatchNotCheapest | core/psq.py:126-137 | the scan takes the first eligible set, not the one needing the smallest epsilon |
| PsqSchedules.Run | core/psq.py:143-145 | a sequence of updates keeps the schedule well formed; the linear variants advance `t` by the number of plays; `Ada` keeps its targets and its number of counters |
| PsqSchedules.RunCounts | core/psq.py:143-145 | after a run of plays every counter has grown by exactly the number of plays naming its set |
| PsqSchedules.DominatedNeverChosen | core/psq.py:106-119 | after construction and any plays, neither the full (last) set nor a dominated set is ever the source of the epsilon |
| PsqSchedules.UnitVarianceSum | core/psq.py:66-68 | with every variance at 1/12 the variance sum of a random set is its size |
| PsqSchedules.MakeAdaLin | core/psq.py:58-76 | `cutoff_iter = int(cutoff_mult * sum(costs[-1]/costs[:-1] * w))`, with `w` the variance sums when variance-aware and 1 otherwise; `t` starts at 0; the numpy failure paths raise, and construction succeeds whenever none of them applies |
| PsqSchedules.AdaLinBehavesLinearly | core/psq.py:78-84 | after construction an `AdaLin` schedule's `next` and `update` agree with a `Linear` schedule of the same cutoff |
| PsqSchedules.AdaLinCutoffNonNegative | core/psq.py:63-75 | with positive costs, non-negative variances and a non-negative multiplier the cutoff `int(cutoff_mult * sum(...))` is never negative |
| PsqSchedules.UnitVarianceCutoff | core/psq.py:63-72 | when every variance is 1/12 the variance-aware sum is `sum(costs[-1]/costs[i] * len(random_sets[i]))` |
| PsqSchedules.GetEpsSchedule | core/psq.py:8-44 | ids 0..5 build their schedule: Ada; Linear with cutoff `int(budget/costs[-1])`, 200 or 400; AdaLin plain or variance-aware; all start at 2.0; any other id raises NotImplementedError; ids 0, 4, 5 are exactly the Ada and AdaLin constructors, and ids 2 and 3 always succeed |
| PsqSchedules.Schedule3ExhaustedAfter400 | core/psq.py:23-24 | schedule 3 gives epsilon exactly 0 once 400 updates have been recorded |
| CvsSchedules.Next | core/cvs.py:37-40 | a zero cutoff raises; `t = 0` gives `start_eps`; `t >= cutoff > 0` gives 0; only `last_eps` changes |
| CvsSchedules.Update | core/cvs.py:27-28 | `update()` adds exactly 1 to `t` and changes nothing else |
| CvsSchedules.MakeLinear | core/cvs.py:18-35 | a new schedule starts at `t = 0` with no `last_eps` |
| CvsSchedules.GetEpsSchedule | core/cvs.py:8-14 | id 0 returns the `None` placeholder; any other id raises NotImplementedError |
| CvsSchedules.NextAfterUpdates | core/cvs.py:17-40 | after `k` updates of a fresh schedule, `next` gives the linear decay at `t = k` |
| CvsSchedules.AgreesWithPsqLinear | core/cvs.py:31-40 | the cvs linear schedule gives the same epsilon and the same `t` after an update as core/psq.py's `LinearSchedule` |
| Distributions.UniformVariance | core/dists.py:51-52 | the variance `(b - a)^2 / 12` of a uniform distribution is non-negative and 0 for a degenerate interval |
| Distributions.UniformVarianceOfWidth | core/dists.py:51-52 | the variance depends only on the width: it is symmetric, shift-invariant, and `(b - a)^2` times the unit interval's 1/12 |
| Distributions.UniformVarianceScales | core/dists.py:51-52 | scaling both ends by `k` scales the variance by `k^2` |
| Distributions.Step | core/dists.py:98-102 | one iteration keeps the invariant `0.001 <= low <= high <= 100`, `f(low) <= desired <= f(high)`, halves the bracket exactly, and keeps one end |
| Distributions.Bisect | core/dists.py:94-104 | a returned `mid` lies in the bracket and `f(mid)` passes `allclose` with `desired` |
| Distributions.BisectIsFirstPass | core/dists.py:94-104 | the loop tests `mid`, then the midpoint of each successive halved bracket; it fails exactly when none of the first `fuel + 1` of these passes `allclose`, and otherwise returns the first that does |
| Distributions.GetTruncnormScale | core/dists.py:85-104 | it raises "low is too high" if and only if `f(0.001) > desired`, and "high is too low" if and only if it does not and `f(100) < desired`; a returned scale is in `[0.001, 100]` and passes the closeness test; inside the bracket it fails only when no point of the halving sequence within the iteration bound passes, and otherwise returns the first that does |
| Distributions.IterateWidth | core/dists.py:96-102 | after `k` iterations the bracket width is the initial width halved `k` times |
| Distributions.BisectFuelMonotone | core/dists.py:96-104 | more iterations allowed never change a result already reached |
| Distributions.ConstantTargetReturnsFirstMidpoint | core/dists.py:94-104 | when the first midpoint already passes the exit test it is returned unchanged |
| OptQueries.SelectColumns | core/dists.py:143-146 | `A[:, idxs]` holds column `idxs[k]` at position `k`, and raises IndexError exactly when an index is past the last column |
| OptQueries.FirstIndex | core/dists.py:150 | `np.where(s == x)[0][0]` is the first position holding `x`, defined exactly when `x` occurs |
| OptQueries.OrderIdxs | core/dists.py:148-151 | `order_idxs` exists exactly when every `j < len(cat)` occurs in `cat`; then `order_idxs[j]` is the first position holding `j`, as `np.where(...)[0][0]` gives; otherwise IndexError |
| OptQueries.InversePermutation | core/dists.py:148-151 | when control ++ random covers `[0, n)` exactly once, `order_idxs` has length `n` and is the inverse permutation in both directions |
| OptQueries.ReorderPlaces | core/dists.py:148-151 | reordering `control values ++ sampled values` by `order_idxs` puts every variable's value in its own column |
| OptQueries.Entry | core/dists.py:136-161 | the shortcut maximises over all bounds; otherwise the problem holds exactly the random set's sample columns, `order_idxs` and the control set's bounds, and fails with IndexError exactly when one of those lookups does |
| OptQueries.EntriesFrom | core/dists.py:135-164 | the loop yields one problem per control set, in order, or the first failure |
| OptQueries.GetOptQueriesAndVals | core/dists.py:129-166 | both output lists have one entry per control set, entry `i` being the maximiser's answer to control set `i`'s problem |
| OptQueries.EntryReadsOnlyItsColumns | core/dists.py:143-160 | an entry's problem depends only on its random set's sample columns and its control set's bounds |
| OptQueries.ValidEntrySucceeds | core/dists.py:143-160 | a validated catalog entry never makes the expectation branch fail |
| OptQueries.CatalogSizeShortcutMisfires | core/dists.py:139-141 | as written, with as many control sets as variables, a partial control set is maximised directly over every variable's bounds |
| OptQueries.CatalogSizeShortcutNeverFiresOnCatalogs | core/dists.py:139-141 | with the seven-entry catalogs and dims other than 7 the shortcut never fires, not even for the full set |
| OptQueries.ControlSetSizeShortcutIsFullSet | core/dists.py:138-141 | with the intended test every problem ranges over exactly its control set's variables, and the shortcut fires exactly for the full set (empty random set) |
| Scenarios.CatalogFeedsAda | bigger_exp.py:142-160 | for every cost id, the driver's dims 5 and 6 catalogs with one variance and one positive lengthscale per variable build an Ada schedule without error |
| Scenarios.Dims5Catalog | core/psq.py:171-213 | the dims-5 catalog with cost id 0 is the fixed table, the complements `[[2,3,4],[0,1,4],[0,1,2],[3,4],[0,4],[0,1],[]]` and the first cost vector |
| Scenarios.Dims5Undominated | core/psq.py:106-117 | no dims-5 control set is dominated under cost id 0 |
| Scenarios.Dims5Targets | core/psq.py:88-123 | with variances 0.1 and lengthscales 0.2 the dims-5 targets are `[150,150,150,10,10,10,0]` |
| Scenarios.Dims5AdaLinCutoff | core/psq.py:25-33 | schedule 4 on the dims-5 catalog with cost id 0 has cutoff 330 |
| Scenarios.Dims5VarAwareCutoff | core/psq.py:34-42 | schedule 5 with variances 1/12 on that catalog has cutoff 960 |

## Left out

- The experiment drivers bigger_exp.py and exp.py are not modelled. They hold configuration, file I/O, pickling, plotting, logging, seeding and GP construction.
- core/utils is not part of this model. `powerset`, `maximize_fn` and `expectation_det` live there.
  - The dims-3 catalog is a parameter `powerset3`, with no assumption on its order or contents.
  - The maximiser is a parameter `maximize` of `OptQueries.GetOptQueriesAndVals`.
- OptQueries.GetOptQueriesAndVals: the maximiser's randomness (random restarts, a global RNG state) is an arbitrary function of the call's position `i` and its problem. A dependence of one call's answer on earlier calls' answers is not expressible.
  - The expectation is represented only by the data it receives.
- scipy and torch numerics are not modelled: `truncnorm_variance`, `truncnorm_transform`, the samplers and `get_dists_and_samples`. The variance function of the calibration is an uninterpreted `f: real -> real`. Sample matrices are arbitrary values.
- Floating-point rounding is not modelled: arithmetic is exact over `real`. `np.allclose` is `|a - b| <= 1e-8 + 1e-5 |b|` over reals.
- NaN is not modelled. With a NaN from `f` the source loops forever.
- Distributions.Bisect: takes a `fuel` bound and fails with OutOfFuel when it runs out. The source loop has no cap, and termination depends on `f`.
- The torch `eps.item()` conversion in `AdaSchedule.next` is not modelled; epsilons are always reals.
- Numpy broadcasting of length-1 arrays against longer ones is not modelled.
  - Elementwise combinations of different lengths raise ShapeMismatch.
  - Registry.Assemble: requires at least two variables, because numpy's broadcasting would let some invalid control sets pass the cover check with 0 or 1 variables; the catalogs only call it with 3, 5, 6 or 8.
- Numpy dtypes are not modelled, for example indexing with an empty float array.
- Distributions.UniformVariance: states non-negativity and zero for a degenerate interval, but not the converse (zero only when `a == b`). The converse needs a nonlinear step the solver does not take without help. The width lemmas pin the value down instead.
- The abstract `EpsilonSchedule` base classes appear only as the shared fields of the schedule records.
- The `opt_vals` argument of `AdaLinSchedule.next` and `LinearSchedule.next` is accepted and ignored, as in the source.

## Findings

| source | as written | input that shows it | evidently intended | confidence | as-written member | corrected member |
|---|---|---|---|---|---|---|
| core/dists.py:139 | the "full control set" shortcut tests `len(control_sets) == dims`, the number of control sets | two variables with control sets `[[0], [0, 1]]`: control set `[0]` is maximised directly over both variables' bounds, ignoring that variable 1 is random; with the shipped seven-entry catalogs and 3 to 8 variables the shortcut never fires at all | `len(control_set_idxs) == dims`, true exactly for the full control set, as the comment on the next line says | not executed; high for the misfire, since the comparison is direct | OptQueries.CatalogSizeShortcutMisfires | OptQueries.ControlSetSizeShortcutIsFullSet |
