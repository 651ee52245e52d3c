/** The replica-count decision of the cluster orchestrator (orchestrator.py:27-33):
    given the cumulative rewards collected from the lock-service pods, it asks for as
    many replicas as there are pods whose reward is strictly above the mean, and at
    least one. Rewards are Python floats, modelled as `real`. */
module ReplicaScaling {

  /** What one polling round decides. */
  datatype Decision =
    | Skip                      // no reward was collected: nothing is patched
    | SetReplicas(replicas: nat) // the desired replica count to patch in

  function Sum(xs: seq<real>): real
  {
    if xs == [] then 0.0 else xs[0] + Sum(xs[1..])
  }

  /** `sum(rewards) / len(rewards)` */
  function Mean(xs: seq<real>): (m: real)
    requires |xs| > 0
    ensures m * |xs| as real == Sum(xs)
  {
    Sum(xs) / |xs| as real
  }

  /** `sum(1 for r in xs if r > t)`: how many entries are strictly greater than `t`. */
  function CountAbove(xs: seq<real>, t: real): (c: nat)
    ensures c <= |xs|
  {
    if xs == [] then 0 else (if xs[0] > t then 1 else 0) + CountAbove(xs[1..], t)
  }

  /** The decision taken on the rewards of one polling round. */
  function NewReplicas(rewards: seq<real>): (d: Decision)
    ensures d.Skip? <==> rewards == []
    ensures d.SetReplicas? ==> 1 <= d.replicas <= |rewards|
    ensures d.SetReplicas? && |rewards| > 1 ==> d.replicas < |rewards|
  {
    if rewards == [] then Skip
    else
      var avg := Mean(rewards);
      var topCount := CountAbove(rewards, avg);
      NotAllAboveMean(rewards);
      SetReplicas(if topCount > 1 then topCount else 1)
  }

  /** `n` copies of `t` added up: `n * t` without a product of two unknowns, which keeps
      the arithmetic below linear. */
  function Times(n: nat, t: real): real
  {
    if n == 0 then 0.0 else t + Times(n - 1, t)
  }

  lemma {:induction false} TimesIsProduct(n: nat, t: real)
    ensures Times(n, t) == n as real * t
  {
    if n > 0 {
      TimesIsProduct(n - 1, t);
    }
  }

  lemma MeanTimesCount(xs: seq<real>)
    requires |xs| > 0
    ensures Times(|xs|, Mean(xs)) == Sum(xs)
  {
    TimesIsProduct(|xs|, Mean(xs));
  }

  /** If every entry exceeds `t`, the sum exceeds `|xs|` times `t`. */
  lemma {:induction false} AllAboveExceedsSum(xs: seq<real>, t: real)
    requires |xs| > 0
    ensures CountAbove(xs, t) == |xs| ==> Sum(xs) > Times(|xs|, t)
  {
    if CountAbove(xs, t) == |xs| && |xs| > 1 {
      assert xs[0] > t;
      AllAboveExceedsSum(xs[1..], t);
    }
  }

  /** Some reward is at most the mean, so at most `|xs| - 1` are counted. */
  lemma NotAllAboveMean(xs: seq<real>)
    requires |xs| > 0
    ensures CountAbove(xs, Mean(xs)) < |xs|
  {
    MeanTimesCount(xs);
    AllAboveExceedsSum(xs, Mean(xs));
  }

  lemma {:induction false} SumOfEqual(xs: seq<real>, c: real)
    requires forall i :: 0 <= i < |xs| ==> xs[i] == c
    ensures Sum(xs) == Times(|xs|, c)
  {
    if xs != [] {
      SumOfEqual(xs[1..], c);
    }
  }

  lemma {:induction false} NoneAboveMax(xs: seq<real>, t: real)
    requires forall i :: 0 <= i < |xs| ==> xs[i] <= t
    ensures CountAbove(xs, t) == 0
  {
    if xs != [] {
      NoneAboveMax(xs[1..], t);
    }
  }

  /** Only rewards strictly above the mean are counted: when every pod reports the same
      reward, none is above the mean and one replica is asked for. */
  lemma AllEqualScalesToOne(xs: seq<real>, c: real)
    requires |xs| > 0
    requires forall i :: 0 <= i < |xs| ==> xs[i] == c
    ensures NewReplicas(xs) == SetReplicas(1)
  {
    SumOfEqual(xs, c);
    TimesIsProduct(|xs|, c);
    assert Mean(xs) == c;
    NoneAboveMax(xs, c);
  }

  /** Taking out the entry at position `j` takes its value out of the sum and out of
      the count. */
  lemma {:induction false} RemoveOne(xs: seq<real>, j: nat, t: real)
    requires j < |xs|
    ensures Sum(xs) == xs[j] + Sum(xs[..j] + xs[j + 1..])
    ensures CountAbove(xs, t) == (if xs[j] > t then 1 else 0) + CountAbove(xs[..j] + xs[j + 1..], t)
  {
    if j == 0 {
      assert xs[..0] + xs[1..] == xs[1..];
    } else {
      RemoveOne(xs[1..], j - 1, t);
      assert xs[..j] + xs[j + 1..] == [xs[0]] + (xs[1..][..j - 1] + xs[1..][j..]);
    }
  }

  /** Dropping position `j` removes one occurrence of its element. */
  lemma DropOne(b: seq<real>, j: nat)
    requires j < |b|
    ensures multiset(b[..j] + b[j + 1..]) == multiset(b) - multiset{b[j]}
  {
    assert b == b[..j] + [b[j]] + b[j + 1..];
  }

  /** Where two rearrangements of each other differ by their first element: the first
      element of `a` sits at some position `j` of `b`, and the rest of `a` is a
      rearrangement of `b` without that position. */
  lemma MatchFirst(a: seq<real>, b: seq<real>) returns (j: nat)
    requires a != [] && multiset(a) == multiset(b)
    ensures j < |b| && b[j] == a[0]
    ensures multiset(a[1..]) == multiset(b[..j] + b[j + 1..])
  {
    assert a[0] in multiset(b);
    j :| 0 <= j < |b| && b[j] == a[0];
    DropOne(b, j);
    assert multiset(a[1..]) == multiset(a) - multiset{a[0]} by {
      assert a == [a[0]] + a[1..];
    }
  }

  /** The sum and the above-threshold count depend only on the multiset of rewards. */
  lemma {:induction false} SumAndCountPermutation(a: seq<real>, b: seq<real>, t: real)
    requires multiset(a) == multiset(b)
    ensures Sum(a) == Sum(b) && CountAbove(a, t) == CountAbove(b, t)
  {
    if a == [] {
      assert |b| == |multiset(b)| == 0;
    } else {
      var j := MatchFirst(a, b);
      SumAndCountPermutation(a[1..], b[..j] + b[j + 1..], t);
      RemoveOne(b, j, t);
    }
  }

  /** The decision does not depend on the order in which the pods were polled. */
  lemma NewReplicasOrderIndependent(a: seq<real>, b: seq<real>)
    requires multiset(a) == multiset(b)
    ensures NewReplicas(a) == NewReplicas(b)
  {
    assert |a| == |multiset(a)| == |multiset(b)| == |b|;
    if a != [] {
      SumAndCountPermutation(a, b, 0.0);
      SumAndCountPermutation(a, b, Mean(a));
    }
  }

  /** Three pods at -1, -2 and -9 have mean -4; two are above it. */
  lemma TwoAboveMean()
    ensures NewReplicas([-1.0, -2.0, -9.0]) == SetReplicas(2)
  {
    assert Mean([-1.0, -2.0, -9.0]) == -4.0;
  }
}
