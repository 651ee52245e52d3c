# Replicator-dynamics lock contention, modelled in Dafny

This project models the in-memory core of a lock-contention simulator and its scaling
controller.

- **Lock table.** `PostgresCluster` keeps one lock per row. Workers try a lock without
  waiting.
- **Worker.** A `ServiceNode` handles one row request per pass of its loop:
  - it backs off once after a collision (memory-1 tit-for-tat);
  - it try-acquires the row lock and releases it again on success;
  - it charges itself a responsibility-aware reward: latency, plus `beta` per rollback,
    plus `gamma` times the population's average rollback rate.
- **Orchestrator.** It collects the rollback outcomes. Once per epoch it does this:
  - it sorts the workers by cumulative reward, best first;
  - it stops and drops the bottom `k = max(1, n // 5)`;
  - it clones the top `k`;
  - it clears the rollback reports.
- **Replica decision.** The Kubernetes orchestrator asks for as many replicas as there
  are pods whose reward is strictly above the mean, and at least one.

Files and modules:

- `lock_management.dfy`, module `LockManagement`. The classes `PostgresCluster`,
  `ServiceNode` and `Orchestrator`, with the reward and rollback-average functions.
  - One call of `ServiceNode.Step` is one pass of a worker's loop.
  - One call of `Orchestrator.RunEpoch` is one pass of the orchestrator's loop.
  - `RunEpoch` is built from `Cull` (sort, stop, slice) and `Repopulate` (clone,
    extend, clear).
- `ranking.dfy`, module `Ranking`. Python's stable `list.sort(key=..., reverse=True)`.
  It is an insertion sort on positions (`RankDesc`) that is applied to the list with
  `Permute`.
- `naming.dfy`, module `Naming`. Node names `f"{name}_{counter}"` and clone base names
  `name.split("_")[0] + "_clone"`, with `str(int)` and its inverse.
- `replica_scaling.dfy`, module `ReplicaScaling`. The replica-count decision as a pure
  function of the reward list.

Python exceptions become `Err` results:
- `KeyError` for a row id that is not in the table;
- `RuntimeError` for releasing a free lock;
- `IndexError` when an epoch clones from an empty list;
- `ValueError` when `time.sleep` is given a negative back-off.

Floats are modelled as `real`. The class-wide `ServiceNode.id_counter` is an `IdCounter`
object that every `ServiceNode` constructor advances.

**An epoch with fewer than two workers does not refresh the population.**
- for `n <= 1`, the slice `services[:-1]` leaves an empty list;
- `services[0]` (lock-management.py:108) then raises `IndexError`;
- before that, the only worker has been marked as not running.

`RunEpoch` returns `Err(IndexError)` in that case, with the services list empty, the
rollback reports kept and no clone made.

## Model

| member | source | states |
|---|---|---|
| LockManagement.AllFree | lock-management.py:9 | the initial table has exactly the rows 0 .. n - 1, and every lock in it is free |
| LockManagement.PostgresCluster.constructor | lock-management.py:8-9 | a new cluster has exactly the rows `0 .. n_rows - 1`, all free |
| LockManagement.PostgresCluster.AttemptLock | lock-management.py:11-14 | a missing row is a `KeyError` with the table unchanged; otherwise the result is true iff the row was free; on success only that row becomes held; on failure the table is unchanged |
| LockManagement.PostgresCluster.ReleaseLock | lock-management.py:16-18 | succeeds iff the row exists and is held, and then frees only that row; a missing row is a `KeyError` and a free one a `RuntimeError`, both leaving the table unchanged |
| LockManagement.IdCounter.constructor | lock-management.py:22 | the class-wide `ServiceNode.id_counter` starts at 0; it is an object that every `ServiceNode` constructor advances by one (lock-management.py:27) |
| LockManagement.ServiceNode.constructor | lock-management.py:24-37 | the class counter goes up by one; the name is `base_<new counter>`; the parameters are stored; the worker starts with no collision, a zero reward and running |
| LockManagement.ServiceNode.Step | lock-management.py:46-71 | the lock table ends as it began; the worker backs off iff its last attempt collided; success iff the row was free; rollback is 0 on success and 1 otherwise; `last_collision` becomes "not success"; the reward is `-latency - beta*rollback - gamma*avg`, with `avg` read before this step's report, and it is added to `cum_reward`; exactly this rollback is appended; a negative back-off (`ValueError`) or a missing row (`KeyError`) changes nothing |
| LockManagement.Reward | lock-management.py:65-67 | the reward of one attempt, `-latency - beta*rollback - gamma*avg`; it has no contract of its own, and its meaning is stated by `RewardNonPositive`, `RewardMonotone` and `RewardMonotoneInWeights` and used by `ServiceNode.Step` |
| LockManagement.RewardNonPositive | lock-management.py:65-68 | with non-negative latency, weights and average, an attempt never raises the cumulative reward |
| LockManagement.RewardMonotone | lock-management.py:65-67 | the reward does not increase when latency, rollback or average rollback rate increases |
| LockManagement.RewardMonotoneInWeights | lock-management.py:65-71 | with a non-negative rollback and average, the reward added to `cum_reward` does not increase when latency, `beta`, `gamma`, rollback or average rollback rate increases |
| LockManagement.Orchestrator.constructor | lock-management.py:75-79 | the orchestrator stores the services and the interval and starts with no rollback reports |
| LockManagement.Orchestrator.ReportRollback | lock-management.py:82-84 | appends exactly the reported value at the end and leaves the services list alone |
| LockManagement.Orchestrator.GetAvgRollbacks | lock-management.py:86-88 | returns the average of the reports (0 when there are none) and changes nothing |
| LockManagement.Total | lock-management.py:88 | `sum(rollback_counts)`; it has no contract of its own, and its meaning is stated by `TotalNonNegative`, `TotalOfAppend` and `TotalOfOutcomes` |
| LockManagement.TotalNonNegative | lock-management.py:88 | reports that are never negative total to a non-negative number |
| LockManagement.TotalOfAppend | lock-management.py:84-88 | appending one report adds its value to the total |
| LockManagement.AvgRollbacks | lock-management.py:88 | `sum / len` of the reports, or 0 when there are none; it has no contract of its own, and its meaning is stated by `AvgRollbacksIsMean`, `AvgRollbacksIsRate` and `AvgRollbacksExample` |
| LockManagement.AvgRollbacksIsMean | lock-management.py:88 | 0 when there are no reports; otherwise the value that, multiplied by the number of reports, gives their total |
| LockManagement.AvgRollbacksIsRate | lock-management.py:86-88 | reports that are each 0 or 1 average to a value in [0, 1] |
| LockManagement.TotalOfOutcomes | lock-management.py:88 | the sum of reports that are each 0 or 1 lies between 0 and their number |
| LockManagement.AvgRollbacksExample | lock-management.py:88 | no reports give 0, and `[1, 0, 1, 1]` gives 0.75 |
| LockManagement.Rewards | lock-management.py:94 | the sort keys, one per worker |
| LockManagement.Ranked | lock-management.py:94 | the sorted list has as many workers as the list it sorts |
| LockManagement.RankedIsStableSort | lock-management.py:94 | the sort is a permutation of the workers, in non-increasing `cum_reward`, with workers of equal reward kept in their original order |
| LockManagement.RankedSameWorkers | lock-management.py:94 | sorting neither adds nor drops a worker |
| LockManagement.CullCount | lock-management.py:96-97 | `max(1, n // 5)`: at least 1 and at least `n // 5`, and equal to one of them |
| LockManagement.CullStart | lock-management.py:100-103 | where `services[-k:]` starts and `services[:-k]` ends: `n - k` when `k <= n`; 0 when `k > n`, where Python clamps both slices |
| LockManagement.CullLeavesEnough | lock-management.py:96-103 | with n >= 2, `k = max(1, n // 5)` satisfies 1 <= k <= n - k, so at least as many workers survive as are cloned |
| LockManagement.ClonedOutrankRemoved | lock-management.py:96-108 | with n >= 2, every worker cloned from is a survivor, and its reward is at least that of every removed worker |
| LockManagement.StopAll | lock-management.py:100-101 | every victim ends up not running; the rewards and collision flags are unchanged |
| LockManagement.Orchestrator.Cull | lock-management.py:94-103 | the list becomes the first `n - k` of the stable ranking; exactly the last `k` of the ranking are marked not running; every other field is unchanged |
| LockManagement.Orchestrator.CloneTop | lock-management.py:106-119 | fails with `IndexError` iff `k` exceeds the list length, after that many constructions; otherwise it makes `k` fresh clones, where clone `i` is built from `services[i]` with the next counter value |
| LockManagement.IsCloneOf | lock-management.py:108-117 | a predicate, without a contract of its own: `c` is the clone of `parent` built with counter value `id`. Its name is `FirstSegment(parent.name) + "_clone_" + str(id)`; it shares the parent's database, `beta`, `gamma` and `delta_ms`; its orchestrator is `orch`; it has zero reward, no collision and is running |
| LockManagement.AreClones | lock-management.py:106-119 | a predicate, without a contract of its own: for each `i`, `clones[i]` is the clone of `parents[i]` built with counter value `last + i + 1`, as the loop at lines 107-119 builds them |
| LockManagement.AreClonesOfPrefix | lock-management.py:103-108 | clones of the first survivors are clones of the first workers of the whole ranking |
| LockManagement.Orchestrator.Repopulate | lock-management.py:106-126 | appends clones of the first `k` survivors and clears the reports, or fails with `IndexError` when there are fewer than `k` survivors, leaving the list and the reports as they were |
| LockManagement.Orchestrator.RunEpoch | lock-management.py:93-126 | succeeds iff there were at least two workers; exactly the bottom `k` of the stable ranking stop running; on success: the population size is unchanged, the survivors keep their ranked order, `k` fresh clones of the top `k` follow them (inherited `beta/gamma/delta_ms`, zero reward, no collision, running, names from the counter) and the reports are cleared; on failure the list is empty and the counter and reports are unchanged |
| Naming.Decimal | lock-management.py:28 | `str(counter)` is a non-empty string of decimal digits |
| Naming.DecimalNoLeadingZero | lock-management.py:28 | `str(counter)` of a counter of 10 or more does not start with `0` |
| Naming.NodeName | lock-management.py:28 | `f"{name}_{counter}"`; it has no contract of its own, and its shape is stated by `NodeNameParts` and `NodeNameInjective` |
| Naming.NodeNameParts | lock-management.py:28 | a node name is its base, then an underscore, then the decimal counter |
| Naming.CloneBase | lock-management.py:110 | `parent.name.split("_")[0] + "_clone"`; it has no contract of its own, and its meaning is stated by `CloneKeepsRoot` |
| Naming.DecimalRoundTrip | lock-management.py:28 | reading the decimal rendering back gives the counter |
| Naming.DecimalInjective | lock-management.py:28 | different counters render differently |
| Naming.FirstSegment | lock-management.py:110 | `s.split("_")[0]` is the longest prefix without an underscore, followed in `s` by an underscore or by the end |
| Naming.FirstSegmentOfJoin | lock-management.py:110 | the first segment of `p + "_" + t`, where `p` has no underscore, is `p` |
| Naming.CloneKeepsRoot | lock-management.py:110 | a clone's name, and so every clone of a clone's name, starts with the same first segment as the original worker's name |
| Naming.NodeNameInjective | lock-management.py:27-28 | a node name determines both its base and its counter, so nodes built with different counter values never share a name |
| Ranking.Insert | lock-management.py:94 | one insertion step of the sort: the result is one longer and holds only `x` and the entries of `s` |
| Ranking.InsertMultiset | lock-management.py:94 | inserting adds `x` and keeps every other position |
| Ranking.RankPrefix | lock-management.py:94 | sorting the first `m` positions gives `m` positions, each below `m` |
| Ranking.RankPrefixMultiset | lock-management.py:94 | the sort of the first `m` positions lists each of them exactly once |
| Ranking.RankDesc | lock-management.py:94 | the ranking has one valid position per key |
| Ranking.RankDescIsStable | lock-management.py:94 | the ranking lists every position once, by non-increasing key, with equal keys in increasing position |
| Ranking.ConsOrdered | lock-management.py:94 | putting in front of a sorted ranking a position that belongs before all of its entries keeps it sorted |
| Ranking.InsertOrdered | lock-management.py:94 | inserting a later position into a sorted ranking keeps it sorted and stable |
| Ranking.RankPrefixOrdered | lock-management.py:94 | the sort of the first `m` positions is sorted and stable |
| Ranking.Permute | lock-management.py:94 | the list read through a ranking has one entry per ranked position |
| Ranking.PermuteInsert | lock-management.py:94 | reading through a ranking with one more position adds exactly that element |
| Ranking.PermuteRankPrefix | lock-management.py:94 | reading the list through the sort of its first `m` positions rearranges its first `m` elements |
| Ranking.RankingIsPermutation | lock-management.py:94 | reading a list through its ranking rearranges it, without adding, losing or duplicating an element |
| ReplicaScaling.Sum | orchestrator.py:29 | `sum(rewards)`; it has no contract of its own, and its meaning is stated by `SumOfEqual`, `RemoveOne` and `SumAndCountPermutation` |
| ReplicaScaling.Mean | orchestrator.py:29 | `sum(rewards) / len(rewards)`, for a non-empty list: the mean times the number of rewards is their sum |
| ReplicaScaling.CountAbove | orchestrator.py:31 | the count of rewards above a threshold is at most the number of rewards |
| ReplicaScaling.NewReplicas | orchestrator.py:27-33 | the `Decision` is `Skip` (the `continue` at line 28) iff there are no rewards, else `SetReplicas(max(1, top_count))`; otherwise 1 <= replicas <= len, and replicas < len when there are at least two rewards |
| ReplicaScaling.TimesIsProduct | orchestrator.py:29 | adding `t` to itself `n` times gives `n * t` |
| ReplicaScaling.MeanTimesCount | orchestrator.py:29 | the mean added to itself once per reward gives their sum |
| ReplicaScaling.AllAboveExceedsSum | orchestrator.py:29-31 | if every reward exceeds `t`, the sum exceeds `len * t` |
| ReplicaScaling.NotAllAboveMean | orchestrator.py:29-31 | at least one reward is at most the mean, so `top_count <= len - 1` |
| ReplicaScaling.SumOfEqual | orchestrator.py:29 | `len` equal rewards `c` sum to `len * c` |
| ReplicaScaling.NoneAboveMax | orchestrator.py:31 | nothing is counted above a bound that no reward exceeds |
| ReplicaScaling.AllEqualScalesToOne | orchestrator.py:29-33 | when every reward is the same, none is strictly above the mean and one replica is asked for |
| ReplicaScaling.RemoveOne | orchestrator.py:29-31 | removing one reward removes its value from the sum and its contribution from the count |
| ReplicaScaling.DropOne | orchestrator.py:29-31 | removing one position removes exactly one occurrence of its element |
| ReplicaScaling.MatchFirst | orchestrator.py:29-31 | the first reward of a list occurs in any rearrangement of it, and the rest of each list are rearrangements of each other |
| ReplicaScaling.SumAndCountPermutation | orchestrator.py:29-31 | the sum and the above-threshold count depend only on the multiset of rewards |
| ReplicaScaling.NewReplicasOrderIndependent | orchestrator.py:27-33 | the decision does not depend on the order in which the pods were polled |
| ReplicaScaling.TwoAboveMean | orchestrator.py:27-33 | rewards -1, -2 and -9 (mean -4) give two replicas |

## Left out

- Threads and their infinite loops are not modelled (lock-management.py:21-44, 74-92).
  - This covers `daemon` threads, `Thread.start` (including `clone.start()`), the request
    queue with its `get(timeout=1)` and `queue.Empty` retry, and the orchestrator's own
    mutex.
  - One worker step or one epoch is modelled as one sequential call.
  - `threading.Lock` is modelled as a held/free flag, so interleavings of steps are not
    covered.
- Wall-clock time is not modelled.
  - The `time.sleep` calls are left out: the back-off, the 5 ms hold and the epoch
    interval.
  - `time.time` is left out. The measured latency is a parameter of `ServiceNode.Step`,
    and the back-off is recorded as `Attempt.backedOff`.
  - `Orchestrator.interval` is stored but not used.
- Float rounding is not modelled: rewards, averages and the mean are exact `real`s.
  Some proved properties hold only in exact arithmetic, and fail for IEEE doubles.
  For example, three pods each reporting -0.1 have a float mean of
  -0.10000000000000002, so all three count as above it and the decision is 3, not 1.
  The members affected are:
  - `ReplicaScaling.NewReplicas`: its bound `replicas < len` for two or more rewards;
  - `ReplicaScaling.NotAllAboveMean`;
  - `ReplicaScaling.AllEqualScalesToOne`;
  - `ReplicaScaling.NewReplicasOrderIndependent`, because a float `sum` depends on the
    order of its terms.
- `Orchestrator.services` is a value (`seq<ServiceNode>`), not a shared list object.
  The sort at lock-management.py:94 is in place. Until line 103 reassigns the field, the
  list it sorts is the caller's own list passed to the constructor, so the first epoch
  also reorders the caller's list. The model does not capture this aliasing; nothing in
  the core depends on it.
- The workers' `request_queue` field is not modelled, so a clone's copy of its parent's
  queue is not modelled either.
- `ServiceNode.Step`: a worker's `orch` is a constant reference. The `orchestrator=None`
  construction followed by a later injection in the `__main__` block is not modelled.
- `TransactionClient` and the `__main__` block are random request generation and wiring
  (lock-management.py:129-182). They are not modelled.
- app.py is not part of this model. It is Flask request handlers over module-level
  state, a second copy of the worker step with its own per-account collision flag.
- orchestrator.py is modelled only at lines 27-33. Its Kubernetes clients, the HTTP
  reward polling, the deployment patch and the printing are not modelled.
- workload_gen.py is not part of this model. It is an HTTP traffic generator with
  percentile statistics.
