/** The contention engine and the replicator controller of lock-management.py: a table
    of row locks, service workers that try a row lock once per request and accumulate a
    responsibility-aware reward, and an orchestrator that collects rollback outcomes and,
    once per epoch, replaces the lowest-reward workers by clones of the highest-reward
    ones. Threads, queues and sleeping are not modelled: one call of `ServiceNode.Step`
    is one pass of a worker's loop, one call of `Orchestrator.RunEpoch` one pass of the
    orchestrator's loop. */
module LockManagement {
  import opened Ranking
  import opened Naming

  /** The Python exceptions the modelled code can raise. */
  datatype PyError =
    | KeyError      // a row id that is not in the lock table
    | RuntimeError  // releasing a lock that is not held
    | IndexError    // cloning from an empty survivor list
    | ValueError    // sleeping for a negative back-off

  datatype Result<+T> = Ok(value: T) | Err(error: PyError)

  /** `{i: threading.Lock() for i in range(n)}`: rows 0 .. n - 1, every lock free. */
  function AllFree(n: int): (locks: map<int, bool>)
    ensures forall row :: row in locks <==> 0 <= row < n
    ensures forall row :: row in locks ==> !locks[row]
    decreases n
  {
    if n <= 0 then map[] else AllFree(n - 1)[n - 1 := false]
  }

  /** The simulated database: one lock per row, `true` while it is held. */
  class PostgresCluster {
    var locks: map<int, bool>

    constructor (nRows: int := 1)
      ensures forall row :: row in locks <==> 0 <= row < nRows
      ensures forall row :: row in locks ==> !locks[row]
    {
      locks := AllFree(nRows);
    }

    /** Non-blocking try-acquire of the lock of `row`. */
    method AttemptLock(row: int) returns (r: Result<bool>)
      modifies this
      ensures row !in old(locks) ==> r == Err(KeyError) && locks == old(locks)
      ensures row in old(locks) ==> r == Ok(!old(locks)[row])
      ensures r == Ok(true) ==> locks == old(locks)[row := true]
      ensures r != Ok(true) ==> locks == old(locks)
    {
      if row !in locks {
        return Err(KeyError);
      }
      if locks[row] {
        return Ok(false);
      }
      locks := locks[row := true];
      return Ok(true);
    }

    /** Releases the lock of `row`. */
    method ReleaseLock(row: int) returns (r: Result<()>)
      modifies this
      ensures row !in old(locks) ==> r == Err(KeyError)
      ensures row in old(locks) && !old(locks)[row] ==> r == Err(RuntimeError)
      ensures r.Ok? <==> row in old(locks) && old(locks)[row]
      ensures r.Ok? ==> locks == old(locks)[row := false]
      ensures r.Err? ==> locks == old(locks)
    {
      if row !in locks {
        return Err(KeyError);
      }
      if !locks[row] {
        return Err(RuntimeError);
      }
      locks := locks[row := false];
      return Ok(());
    }
  }

  /** The class-wide `ServiceNode.id_counter`, which every construction increments. */
  class IdCounter {
    var value: nat

    constructor ()
      ensures value == 0
    {
      value := 0;
    }
  }

  /** The reward of one attempt: its latency, `beta` per rollback and `gamma` times the
      population's average rollback rate, all counted as costs. */
  function Reward(latency: real, beta: real, gamma: real, rollback: int, avgRollback: real): real
  {
    -latency - beta * rollback as real - gamma * avgRollback
  }

  /** With non-negative weights the reward is never positive. */
  lemma RewardNonPositive(latency: real, beta: real, gamma: real, rollback: int, avgRollback: real)
    requires latency >= 0.0 && beta >= 0.0 && gamma >= 0.0
    requires rollback == 0 || rollback == 1
    requires avgRollback >= 0.0
    ensures Reward(latency, beta, gamma, rollback, avgRollback) <= 0.0
  {
  }

  /** A higher latency, a rollback instead of a success, or a higher average rollback
      rate never raises the reward. */
  lemma RewardMonotone(latency: real, latency': real, beta: real, gamma: real,
                       rollback: int, rollback': int, avg: real, avg': real)
    requires beta >= 0.0 && gamma >= 0.0
    requires latency <= latency' && rollback <= rollback' && avg <= avg'
    ensures Reward(latency', beta, gamma, rollback', avg') <= Reward(latency, beta, gamma, rollback, avg)
  {
    var b, b' := beta * rollback as real, beta * rollback' as real;
    var g, g' := gamma * avg, gamma * avg';
    assert b <= b';
    assert g <= g';
    assert Reward(latency, beta, gamma, rollback, avg) == -latency - b - g;
    assert Reward(latency', beta, gamma, rollback', avg') == -latency' - b' - g';
  }

  /** With a non-negative rollback and average, heavier weights never raise the reward
      either; together with `RewardMonotone`, the reward is non-increasing in each of
      latency, `beta`, `gamma`, rollback and average rollback rate. */
  lemma RewardMonotoneInWeights(latency: real, latency': real, beta: real, beta': real,
                                gamma: real, gamma': real, rollback: int, rollback': int,
                                avg: real, avg': real)
    requires 0.0 <= beta <= beta' && 0.0 <= gamma <= gamma'
    requires 0 <= rollback <= rollback' && 0.0 <= avg <= avg'
    requires latency <= latency'
    ensures Reward(latency', beta', gamma', rollback', avg') <= Reward(latency, beta, gamma, rollback, avg)
  {
    RewardMonotone(latency, latency', beta, gamma, rollback, rollback', avg, avg');
    var r' := rollback' as real;
    assert beta * r' <= beta' * r';
    assert gamma * avg' <= gamma' * avg';
    assert Reward(latency', beta', gamma', rollback', avg') == -latency' - beta' * r' - gamma' * avg';
    assert Reward(latency', beta, gamma, rollback', avg') == -latency' - beta * r' - gamma * avg';
  }

  /** `sum(xs)` of the reported rollback outcomes. */
  function Total(xs: seq<int>): int
  {
    if xs == [] then 0 else xs[0] + Total(xs[1..])
  }

  /** Reports that are never negative total to a non-negative number. */
  lemma {:induction false} TotalNonNegative(xs: seq<int>)
    requires forall i :: 0 <= i < |xs| ==> xs[i] >= 0
    ensures Total(xs) >= 0
  {
    if xs != [] {
      TotalNonNegative(xs[1..]);
    }
  }

  /** Appending one report adds its value to the total. */
  lemma {:induction false} TotalOfAppend(xs: seq<int>, x: int)
    ensures Total(xs + [x]) == Total(xs) + x
  {
    if xs != [] {
      TotalOfAppend(xs[1..], x);
      assert (xs + [x])[1..] == xs[1..] + [x];
    }
  }

  /** The orchestrator's average rollback: 0 for an empty epoch, else sum / len. */
  function AvgRollbacks(xs: seq<int>): real
  {
    if xs == [] then 0.0 else Total(xs) as real / |xs| as real
  }

  /** The average is 0 for an empty epoch, and otherwise the value whose `len` copies
      add up to the total. */
  lemma AvgRollbacksIsMean(xs: seq<int>)
    ensures xs == [] ==> AvgRollbacks(xs) == 0.0
    ensures xs != [] ==> AvgRollbacks(xs) * |xs| as real == Total(xs) as real
  {
    if xs != [] {
      var t, n := Total(xs) as real, |xs| as real;
      assert AvgRollbacks(xs) * n == t by {
        assert AvgRollbacks(xs) == t / n;
        QuotientTimes(t, n);
      }
    }
  }

  lemma QuotientTimes(t: real, n: real)
    requires n > 0.0
    ensures (t / n) * n == t
  {
  }

  lemma QuotientIsRate(t: real, n: real)
    requires 0.0 <= t <= n && n > 0.0
    ensures 0.0 <= t / n <= 1.0
  {
  }

  predicate IsOutcome(x: int)
  {
    x == 0 || x == 1
  }

  lemma {:induction false} TotalOfOutcomes(xs: seq<int>)
    requires forall i :: 0 <= i < |xs| ==> IsOutcome(xs[i])
    ensures 0 <= Total(xs) <= |xs|
  {
    if xs != [] {
      TotalOfOutcomes(xs[1..]);
    }
  }

  /** Outcomes that are each 0 or 1 average to a rate between 0 and 1. */
  lemma AvgRollbacksIsRate(xs: seq<int>)
    requires forall i :: 0 <= i < |xs| ==> IsOutcome(xs[i])
    ensures 0.0 <= AvgRollbacks(xs) <= 1.0
  {
    if xs != [] {
      TotalOfOutcomes(xs);
      QuotientIsRate(Total(xs) as real, |xs| as real);
    }
  }

  /** Reporting [1, 0, 1, 1] gives an average of 0.75. */
  lemma AvgRollbacksExample()
    ensures AvgRollbacks([]) == 0.0
    ensures AvgRollbacks([1, 0, 1, 1]) == 0.75
  {
    assert Total([1, 0, 1, 1]) == 3;
  }

  /** What one attempt of a worker produced. */
  datatype Attempt = Attempt(
    backedOff: bool,  // the worker slept `delta_ms` before trying the lock
    success: bool,    // the lock was acquired (and released again)
    rollback: int,    // 0 on success, 1 on a collision
    reward: real)     // what was added to the cumulative reward

  /** A microservice pod that contends for row locks. */
  class ServiceNode {
    const name: string
    const db: PostgresCluster
    const orch: Orchestrator
    const beta: real
    const gamma: real
    const deltaMs: real
    var lastCollision: bool
    var cumReward: real
    var running: bool

    constructor (base: string, db: PostgresCluster, orch: Orchestrator, ids: IdCounter,
                 beta: real := 5.0, gamma: real := 0.3, deltaMs: real := 10.0)
      modifies ids
      ensures ids.value == old(ids.value) + 1
      ensures name == NodeName(base, ids.value)
      ensures this.db == db && this.orch == orch
      ensures this.beta == beta && this.gamma == gamma && this.deltaMs == deltaMs
      ensures !lastCollision && cumReward == 0.0 && running
    {
      ids.value := ids.value + 1;
      name := NodeName(base, ids.value);
      this.db := db;
      this.orch := orch;
      this.beta := beta;
      this.gamma := gamma;
      this.deltaMs := deltaMs;
      lastCollision := false;
      cumReward := 0.0;
      running := true;
    }

    /** One pass of the worker loop on the request for `row`. `latency` is the time, in
        milliseconds, that the try-acquire took. */
    method Step(row: int, latency: real) returns (r: Result<Attempt>)
      modifies this, db, orch
      ensures db.locks == old(db.locks)
      ensures running == old(running) && orch.services == old(orch.services)
      // the back-off sleep rejects a negative duration before anything else happens
      ensures old(lastCollision) && deltaMs < 0.0 ==> r == Err(ValueError)
      ensures !(old(lastCollision) && deltaMs < 0.0) && row !in old(db.locks) ==> r == Err(KeyError)
      ensures r.Err? ==>
        lastCollision == old(lastCollision) && cumReward == old(cumReward) &&
        orch.rollbackCounts == old(orch.rollbackCounts)
      ensures r.Ok? <==> !(old(lastCollision) && deltaMs < 0.0) && row in old(db.locks)
      ensures r.Ok? ==>
        var a := r.value;
        a.backedOff == old(lastCollision) &&
        a.success == !old(db.locks)[row] &&
        a.rollback == (if a.success then 0 else 1) &&
        lastCollision == !a.success &&
        a.reward == Reward(latency, beta, gamma, a.rollback, AvgRollbacks(old(orch.rollbackCounts))) &&
        cumReward == old(cumReward) + a.reward &&
        orch.rollbackCounts == old(orch.rollbackCounts) + [a.rollback]
    {
      // memory-1 tit-for-tat: back off only after a collision
      var backedOff := lastCollision;
      if backedOff && deltaMs < 0.0 {
        return Err(ValueError);
      }
      var acquired := db.AttemptLock(row);
      if acquired.Err? {
        return Err(acquired.error);
      }
      var success := acquired.value;
      var rollback := 0;
      if success {
        // the 5 ms of transaction work are not modelled
        var released := db.ReleaseLock(row);
        assert released.Ok?;
      } else {
        rollback := 1;
      }
      lastCollision := !success;
      var reward := -latency - beta * rollback as real;
      var avg := orch.GetAvgRollbacks();
      reward := reward - gamma * avg;
      cumReward := cumReward + reward;
      orch.ReportRollback(rollback);
      return Ok(Attempt(backedOff, success, rollback, reward));
    }
  }

  /** The rewards of `svcs`, in order. */
  function Rewards(svcs: seq<ServiceNode>): (keys: seq<real>)
    reads svcs
    ensures |keys| == |svcs|
  {
    seq(|svcs|, i reads svcs requires 0 <= i < |svcs| => svcs[i].cumReward)
  }

  /** `svcs` after `svcs.sort(key=lambda s: s.cum_reward, reverse=True)`. */
  function Ranked(svcs: seq<ServiceNode>): (r: seq<ServiceNode>)
    reads svcs
    ensures |r| == |svcs|
  {
    Permute(svcs, RankDesc(Rewards(svcs)))
  }

  /** `max(1, n // 5)`: how many workers an epoch removes, and how many it clones. */
  function CullCount(n: nat): (k: nat)
    ensures k >= 1 && k >= n / 5
    ensures k == 1 || k == n / 5
  {
    if n / 5 > 1 then n / 5 else 1
  }

  /** Where the slice `services[-k:]` starts, and where `services[:-k]` ends. When
      `k > n`, Python clamps both slices: `services[-k:]` is the whole list and
      `services[:-k]` is empty. */
  function CullStart(n: nat): (s: nat)
    ensures s <= n
    ensures CullCount(n) <= n ==> s + CullCount(n) == n
    ensures CullCount(n) > n ==> s == 0
  {
    if CullCount(n) <= n then n - CullCount(n) else 0
  }

  /** With at least two workers, as many survive as are cloned, so the first `k`
      survivors are the first `k` of the ranking, and at least one survives. */
  lemma {:induction false} CullLeavesEnough(n: nat)
    requires n >= 2
    ensures 1 <= CullCount(n) <= CullStart(n) == n - CullCount(n)
  {
  }

  /** The ranking an epoch starts from is a rearrangement of the workers, best reward
      first, ties kept in list order, so the `k` it clones from have the highest rewards
      and the `k` it removes the lowest. */
  lemma RankedIsStableSort(svcs: seq<ServiceNode>)
    ensures multiset(Ranked(svcs)) == multiset(svcs)
    ensures forall i, j :: 0 <= i < j < |svcs| ==> Ranked(svcs)[i].cumReward >= Ranked(svcs)[j].cumReward
    ensures forall i, j :: 0 <= i < j < |svcs| && Ranked(svcs)[i].cumReward == Ranked(svcs)[j].cumReward ==>
      RankDesc(Rewards(svcs))[i] < RankDesc(Rewards(svcs))[j]
    ensures forall i :: 0 <= i < |svcs| ==> Ranked(svcs)[i] == svcs[RankDesc(Rewards(svcs))[i]]
  {
    RankDescIsStable(Rewards(svcs));
    RankingIsPermutation(svcs, Rewards(svcs));
  }

  /** With at least two workers, the `k` workers an epoch clones from are all survivors,
      and each has a reward at least that of every worker it removes: cloning from the
      shortened list still clones the top `k` of the whole ranking. */
  lemma ClonedOutrankRemoved(svcs: seq<ServiceNode>)
    requires |svcs| >= 2
    ensures CullCount(|svcs|) <= CullStart(|svcs|)
    ensures forall i, j :: 0 <= i < CullCount(|svcs|) && CullStart(|svcs|) <= j < |svcs| ==>
      Ranked(svcs)[i].cumReward >= Ranked(svcs)[j].cumReward
  {
    RankedIsStableSort(svcs);
    CullLeavesEnough(|svcs|);
  }

  /** Sorting neither adds nor drops a worker. */
  lemma RankedSameWorkers(svcs: seq<ServiceNode>)
    ensures multiset(Ranked(svcs)) == multiset(svcs)
    ensures forall s :: s in Ranked(svcs) ==> s in svcs
  {
    RankingIsPermutation(svcs, Rewards(svcs));
    forall s | s in Ranked(svcs) ensures s in svcs {
      assert s in multiset(Ranked(svcs));
    }
  }

  /** The clone of `parent` created with counter value `id` by orchestrator `orch`. */
  ghost predicate IsCloneOf(c: ServiceNode, parent: ServiceNode, orch: Orchestrator, id: nat)
    reads c, parent
  {
    c.name == NodeName(CloneBase(parent.name), id) &&
    c.db == parent.db && c.orch == orch &&
    c.beta == parent.beta && c.gamma == parent.gamma && c.deltaMs == parent.deltaMs &&
    c.cumReward == 0.0 && !c.lastCollision && c.running
  }

  /** `clones[i]` is the clone of `parents[i]`, made with counter value `last + i + 1`,
      for each of the first `|clones|` parents. */
  ghost predicate AreClones(clones: seq<ServiceNode>, parents: seq<ServiceNode>, orch: Orchestrator, last: nat)
    reads clones, parents
  {
    |clones| <= |parents| &&
    forall i :: 0 <= i < |clones| ==> IsCloneOf(clones[i], parents[i], orch, last + i + 1)
  }

  /** Clones of the first parents of a list are clones of the first parents of any list
      it begins. */
  lemma AreClonesOfPrefix(clones: seq<ServiceNode>, parents: seq<ServiceNode>, longer: seq<ServiceNode>,
                          orch: Orchestrator, last: nat)
    requires parents <= longer
    requires AreClones(clones, parents, orch, last)
    ensures AreClones(clones, longer, orch, last)
  {
    forall i | 0 <= i < |clones|
      ensures IsCloneOf(clones[i], longer[i], orch, last + i + 1)
    {
      assert parents[i] == longer[i];
    }
  }

  /** The orchestrator: the rollback aggregator and the replicator that keeps the
      worker population. */
  class Orchestrator {
    var services: seq<ServiceNode>
    const interval: real
    var rollbackCounts: seq<int>

    constructor (services: seq<ServiceNode>, interval: real := 10.0)
      ensures this.services == services && this.interval == interval
      ensures rollbackCounts == []
    {
      this.services := services;
      this.interval := interval;
      rollbackCounts := [];
    }

    method ReportRollback(count: int)
      modifies this
      ensures rollbackCounts == old(rollbackCounts) + [count]
      ensures services == old(services)
    {
      rollbackCounts := rollbackCounts + [count];
    }

    method GetAvgRollbacks() returns (avg: real)
      ensures avg == AvgRollbacks(rollbackCounts)
    {
      avg := AvgRollbacks(rollbackCounts);
    }

    /** The loop `for i in range(top_k)` of an epoch: clones `services[i]` for each
        `i < k`, failing with `IndexError` at the first `i` past the end of the list. */
    method CloneTop(k: nat, ids: IdCounter) returns (r: Result<seq<ServiceNode>>)
      modifies ids
      ensures r.Err? <==> k > |services|
      ensures r.Err? ==> r.error == IndexError && ids.value == old(ids.value) + |services|
      ensures r.Ok? ==>
        |r.value| == k && ids.value == old(ids.value) + k &&
        AreClones(r.value, services, this, old(ids.value)) &&
        forall c :: c in r.value ==> fresh(c)
    {
      var clones: seq<ServiceNode> := [];
      var i := 0;
      while i < k
        invariant 0 <= i <= k && i <= |services|
        invariant |clones| == i
        invariant ids.value == old(ids.value) + i
        invariant AreClones(clones, services, this, old(ids.value))
        invariant forall c :: c in clones ==> fresh(c)
      {
        if i >= |services| {
          return Err(IndexError);
        }
        var parent := services[i];
        var clone := new ServiceNode(CloneBase(parent.name), parent.db, this, ids,
                                     parent.beta, parent.gamma, parent.deltaMs);
        clones := clones + [clone];
        i := i + 1;
      }
      return Ok(clones);
    }

    /** The first half of an epoch: sorts the workers by cumulative reward, best first,
        stops the last `k` of that ranking and keeps the others. */
    method Cull() returns (ghost ranked: seq<ServiceNode>)
      modifies this, services
      ensures ranked == old(Ranked(services))
      ensures services == ranked[..CullStart(|ranked|)]
      ensures rollbackCounts == old(rollbackCounts)
      ensures forall s :: s in old(services) ==>
        s.running == (old(s.running) && s !in ranked[CullStart(|ranked|)..]) &&
        s.cumReward == old(s.cumReward) && s.lastCollision == old(s.lastCollision)
    {
      RankedSameWorkers(services);
      services := Ranked(services);
      ranked := services;
      var start := CullStart(|services|);
      StopAll(services[start..]);
      services := services[..start];
    }

    /** The second half of an epoch: appends a clone of each of the first `k` survivors
        and clears the rollback reports; fails with `IndexError` when there are fewer
        than `k` survivors. */
    method Repopulate(k: nat, ids: IdCounter) returns (r: Result<()>, ghost clones: seq<ServiceNode>)
      modifies this, ids
      ensures r.Err? <==> k > |old(services)|
      ensures r.Err? ==>
        r.error == IndexError && services == old(services) &&
        ids.value == old(ids.value) + |old(services)| && rollbackCounts == old(rollbackCounts)
      ensures r.Ok? ==>
        services == old(services) + clones && |clones| == k &&
        AreClones(clones, old(services), this, old(ids.value)) &&
        (forall c :: c in clones ==> fresh(c)) &&
        ids.value == old(ids.value) + k && rollbackCounts == []
    {
      var made := CloneTop(k, ids);
      if made.Err? {
        return Err(made.error), [];
      }
      services := services + made.value;
      rollbackCounts := [];
      return Ok(()), made.value;
    }

    /** One epoch of replicator dynamics. `ids` is the global node counter that the
        clones' constructors advance. */
    method RunEpoch(ids: IdCounter) returns (r: Result<()>, ghost ranked: seq<ServiceNode>,
                                             ghost clones: seq<ServiceNode>)
      modifies this, ids, services
      ensures ranked == old(Ranked(services))
      ensures r.Ok? <==> |old(services)| >= 2
      // the removal of the last k of the ranking
      ensures forall s :: s in old(services) ==>
        s.running == (old(s.running) && s !in ranked[CullStart(|ranked|)..]) &&
        s.cumReward == old(s.cumReward) && s.lastCollision == old(s.lastCollision)
      // with fewer than two workers, `services[0]` fails on the empty survivor list
      ensures r.Err? ==>
        r.error == IndexError && services == [] && ids.value == old(ids.value) &&
        rollbackCounts == old(rollbackCounts)
      // the survivors, the first n - k of the ranking, followed by new clones of the
      // first k of the ranking, where k = CullCount(n)
      ensures r.Ok? ==>
        |services| == |ranked| &&
        services == ranked[..CullStart(|ranked|)] + clones &&
        CullStart(|ranked|) == |ranked| - |clones| && |clones| == CullCount(|ranked|) &&
        AreClones(clones, ranked, this, old(ids.value)) &&
        (forall c :: c in clones ==> fresh(c)) &&
        ids.value == old(ids.value) + |clones| && rollbackCounts == []
    {
      var n := |services|;
      ranked := Cull();
      var k := CullCount(n);
      if n >= 2 {
        CullLeavesEnough(n);
      } else {
        assert CullStart(n) == 0 < k;
      }
      ghost var survivors := services;
      r, clones := Repopulate(k, ids);
      if r.Ok? {
        AreClonesOfPrefix(clones, survivors, ranked, this, old(ids.value));
      }
    }
  }

  /** The loop `for svc in services[-k:]: svc.running = False`. */
  method StopAll(victims: seq<ServiceNode>)
    modifies victims
    ensures forall s :: s in victims ==> !s.running
    ensures forall s :: s in victims ==>
      s.cumReward == old(s.cumReward) && s.lastCollision == old(s.lastCollision)
  {
    var i := 0;
    while i < |victims|
      invariant 0 <= i <= |victims|
      invariant forall t :: 0 <= t < i ==> !victims[t].running
      invariant forall s :: s in victims ==>
        s.cumReward == old(s.cumReward) && s.lastCollision == old(s.lastCollision)
    {
      victims[i].running := false;
      i := i + 1;
    }
  }
}
