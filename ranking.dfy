/** Stable ordering by descending key, as Python's `list.sort(key=..., reverse=True)`
    produces it: the highest key first, and elements with equal keys in their original
    order. The ordering is computed on indices, so that it can be applied to a list of
    objects whose keys are read from the heap. */
module Ranking {

  /** The indices 0, 1, ..., n - 1 in increasing order. */
  function Range(n: nat): (r: seq<nat>)
    ensures |r| == n
    ensures forall i :: 0 <= i < n ==> r[i] == i
  {
    if n == 0 then [] else Range(n - 1) + [n - 1]
  }

  /** Every entry of `p` is an index of `keys`. */
  ghost predicate InRange(keys: seq<real>, p: seq<nat>)
  {
    forall i :: 0 <= i < |p| ==> p[i] < |keys|
  }

  /** `p` lists indices by non-increasing key, and indices with equal keys in
      increasing order. */
  ghost predicate Ordered(keys: seq<real>, p: seq<nat>)
  {
    InRange(keys, p) &&
    (forall i, j :: 0 <= i < j < |p| ==> keys[p[i]] >= keys[p[j]]) &&
    (forall i, j :: 0 <= i < j < |p| && keys[p[i]] == keys[p[j]] ==> p[i] < p[j])
  }

  /** `p` is what a stable sort by descending key makes of the positions of `keys`:
      every position exactly once, ordered as `Ordered` says. */
  ghost predicate IsStableDescRanking(keys: seq<real>, p: seq<nat>)
  {
    multiset(p) == multiset(Range(|keys|)) && Ordered(keys, p)
  }

  /** Inserts index `x` into `s` after every index whose key is at least `keys[x]`. */
  function Insert(keys: seq<real>, x: nat, s: seq<nat>): (r: seq<nat>)
    requires x < |keys|
    requires forall i :: 0 <= i < |s| ==> s[i] < |keys|
    ensures |r| == |s| + 1
    ensures forall i :: 0 <= i < |r| ==> r[i] == x || r[i] in s
  {
    if s == [] || keys[s[0]] < keys[x] then [x] + s
    else [s[0]] + Insert(keys, x, s[1..])
  }

  /** Inserting adds `x` and keeps every other entry. */
  lemma {:induction false} InsertMultiset(keys: seq<real>, x: nat, s: seq<nat>)
    requires x < |keys|
    requires forall i :: 0 <= i < |s| ==> s[i] < |keys|
    ensures multiset(Insert(keys, x, s)) == multiset(s) + multiset{x}
  {
    if !(s == [] || keys[s[0]] < keys[x]) {
      InsertMultiset(keys, x, s[1..]);
      assert s == [s[0]] + s[1..];
    }
  }

  /** Insertion sort of the indices 0 .. m - 1, inserting them in increasing order. */
  function RankPrefix(keys: seq<real>, m: nat): (r: seq<nat>)
    requires m <= |keys|
    ensures |r| == m
    ensures forall i :: 0 <= i < |r| ==> r[i] < m
  {
    if m == 0 then [] else Insert(keys, m - 1, RankPrefix(keys, m - 1))
  }

  /** The insertion sort of the first `m` indices lists each of them exactly once. */
  lemma {:induction false} RankPrefixMultiset(keys: seq<real>, m: nat)
    requires m <= |keys|
    ensures multiset(RankPrefix(keys, m)) == multiset(Range(m))
  {
    if m > 0 {
      var x: nat := m - 1;
      var s := RankPrefix(keys, x);
      assert multiset(s) == multiset(Range(x)) by {
        RankPrefixMultiset(keys, x);
      }
      assert multiset(Insert(keys, x, s)) == multiset(s) + multiset{x} by {
        InsertMultiset(keys, x, s);
      }
      calc {
        multiset(RankPrefix(keys, m));
        multiset(Insert(keys, x, s));
        multiset(Range(x)) + multiset{x};
        multiset(Range(x) + [x]);
        multiset(Range(m));
      }
    }
  }

  /** The stable descending ranking of the positions of `keys` (what it guarantees is
      proved in `RankDescIsStable`). */
  function RankDesc(keys: seq<real>): (p: seq<nat>)
    ensures |p| == |keys|
    ensures forall i :: 0 <= i < |p| ==> p[i] < |keys|
  {
    RankPrefix(keys, |keys|)
  }

  /** `RankDesc` lists every position exactly once, highest key first, and positions
      with equal keys in increasing order. */
  lemma RankDescIsStable(keys: seq<real>)
    ensures IsStableDescRanking(keys, RankDesc(keys))
  {
    RankPrefixMultiset(keys, |keys|);
    RankPrefixOrdered(keys, |keys|);
  }

  /** Putting in front of an ordered ranking an index that comes before all of its
      entries keeps it ordered. */
  lemma ConsOrdered(keys: seq<real>, a: nat, t: seq<nat>)
    requires a < |keys|
    requires Ordered(keys, t)
    requires forall m :: 0 <= m < |t| ==> keys[a] >= keys[t[m]] && (keys[a] == keys[t[m]] ==> a < t[m])
    ensures Ordered(keys, [a] + t)
  {
    var r := [a] + t;
    forall i, j | 0 <= i < j < |r|
      ensures keys[r[i]] >= keys[r[j]]
      ensures keys[r[i]] == keys[r[j]] ==> r[i] < r[j]
    {
      assert r[j] == t[j - 1];
      if i > 0 {
        assert r[i] == t[i - 1];
      }
    }
  }

  /** Inserting an index larger than every index already ranked keeps the ranking ordered. */
  lemma {:induction false} InsertOrdered(keys: seq<real>, x: nat, s: seq<nat>)
    requires x < |keys|
    requires forall i :: 0 <= i < |s| ==> s[i] < x
    requires Ordered(keys, s)
    ensures Ordered(keys, Insert(keys, x, s))
  {
    if s == [] || keys[s[0]] < keys[x] {
      forall m | 0 <= m < |s|
        ensures keys[x] >= keys[s[m]] && (keys[x] == keys[s[m]] ==> x < s[m])
      {
        assert keys[s[0]] >= keys[s[m]];
      }
      ConsOrdered(keys, x, s);
    } else {
      var t := Insert(keys, x, s[1..]);
      assert Ordered(keys, s[1..]);
      InsertOrdered(keys, x, s[1..]);
      forall m | 0 <= m < |t|
        ensures keys[s[0]] >= keys[t[m]] && (keys[s[0]] == keys[t[m]] ==> s[0] < t[m])
      {
        if t[m] != x {
          var q :| 0 <= q < |s[1..]| && s[1..][q] == t[m];
          assert s[q + 1] == t[m];
        }
      }
      ConsOrdered(keys, s[0], t);
    }
  }

  lemma {:induction false} RankPrefixOrdered(keys: seq<real>, m: nat)
    requires m <= |keys|
    ensures Ordered(keys, RankPrefix(keys, m))
  {
    if m > 0 {
      var x: nat := m - 1;
      var s := RankPrefix(keys, x);
      assert Ordered(keys, s) by {
        RankPrefixOrdered(keys, x);
      }
      assert Ordered(keys, Insert(keys, x, s)) by {
        InsertOrdered(keys, x, s);
      }
      assert RankPrefix(keys, m) == Insert(keys, x, s);
    }
  }

  /** The sequence `xs` read in the order of the positions `p`. */
  function Permute<T>(xs: seq<T>, p: seq<nat>): (r: seq<T>)
    requires forall i :: 0 <= i < |p| ==> p[i] < |xs|
    ensures |r| == |p|
  {
    seq(|p|, i requires 0 <= i < |p| => xs[p[i]])
  }

  /** Reading `xs` through a ranking with one more index inserted adds that element. */
  lemma {:induction false} PermuteInsert<T>(xs: seq<T>, keys: seq<real>, x: nat, s: seq<nat>)
    requires |keys| == |xs| && x < |keys|
    requires forall i :: 0 <= i < |s| ==> s[i] < |keys|
    ensures multiset(Permute(xs, Insert(keys, x, s))) == multiset(Permute(xs, s)) + multiset{xs[x]}
  {
    if s == [] || keys[s[0]] < keys[x] {
      assert Permute(xs, [x] + s) == [xs[x]] + Permute(xs, s);
    } else {
      var t := Insert(keys, x, s[1..]);
      assert multiset(Permute(xs, t)) == multiset(Permute(xs, s[1..])) + multiset{xs[x]} by {
        PermuteInsert(xs, keys, x, s[1..]);
      }
      assert Permute(xs, [s[0]] + t) == [xs[s[0]]] + Permute(xs, t);
      assert Permute(xs, s) == [xs[s[0]]] + Permute(xs, s[1..]);
    }
  }

  lemma {:induction false} PermuteRankPrefix<T>(xs: seq<T>, keys: seq<real>, m: nat)
    requires |keys| == |xs| && m <= |keys|
    ensures multiset(Permute(xs, RankPrefix(keys, m))) == multiset(xs[..m])
  {
    if m > 0 {
      var x: nat := m - 1;
      var s := RankPrefix(keys, x);
      assert multiset(Permute(xs, Insert(keys, x, s))) == multiset(Permute(xs, s)) + multiset{xs[x]} by {
        PermuteInsert(xs, keys, x, s);
      }
      assert multiset(Permute(xs, s)) == multiset(xs[..x]) by {
        PermuteRankPrefix(xs, keys, x);
      }
      assert xs[..m] == xs[..x] + [xs[x]] by {
        TakeOneMore(xs, x);
      }
      assert RankPrefix(keys, m) == Insert(keys, x, s);
    }
  }

  lemma TakeOneMore<T>(xs: seq<T>, m: nat)
    requires m < |xs|
    ensures xs[..m + 1] == xs[..m] + [xs[m]]
  {
  }

  /** Reading a sequence through its stable ranking rearranges it without adding,
      losing or duplicating an element. */
  lemma RankingIsPermutation<T>(xs: seq<T>, keys: seq<real>)
    requires |keys| == |xs|
    ensures multiset(Permute(xs, RankDesc(keys))) == multiset(xs)
  {
    PermuteRankPrefix(xs, keys, |keys|);
    assert xs[..|xs|] == xs;
  }
}
