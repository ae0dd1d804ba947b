/** Clusters of linked transactions, their limits, and what removals and insertions do to them. */
module PoolClusters {
  import opened PoolViews

  /** One spends the other. */
  ghost predicate Linked(v: View, t: Txid, u: Txid) {
    t in v && u in v && (u in v[t].parents || t in v[u].parents)
  }

  ghost predicate LinkClosed(v: View, C: set<Txid>) {
    forall t, u :: t in C && Linked(v, t, u) ==> u in C
  }

  /** In every closed set that holds S. */
  ghost predicate Joined(v: View, S: set<Txid>, a: Txid) {
    forall C: set<Txid> :: S <= C && LinkClosed(v, C) ==> a in C
  }

  /** Everything linked to S, directly or through others. */
  ghost function Cluster(v: View, S: set<Txid>): (K: set<Txid>)
    ensures K <= v.Keys
  {
    set a | a in v && Joined(v, S, a)
  }

  /** No cluster has more members, or weighs more, than allowed. */
  ghost predicate Limited(v: View, count: nat, bytes: nat) {
    forall t :: t in v ==> |Cluster(v, {t})| <= count && Weight(v, Cluster(v, {t})) <= bytes
  }

  lemma ClusterLeast(v: View, S: set<Txid>, K: set<Txid>)
    requires S <= K <= v.Keys && LinkClosed(v, K) && forall C: set<Txid> :: S <= C && LinkClosed(v, C) ==> K <= C
    ensures K == Cluster(v, S)
  {
  }

  lemma ClusterClosed(v: View, S: set<Txid>)
    requires S <= v.Keys
    ensures S <= Cluster(v, S) && LinkClosed(v, Cluster(v, S))
  {
    forall t, u | t in Cluster(v, S) && Linked(v, t, u) ensures u in Cluster(v, S) {
      forall C: set<Txid> | S <= C && LinkClosed(v, C) ensures u in C {
        assert t in C;
      }
    }
  }

  lemma {:induction false} WeightMonotone(v: View, A: set<Txid>, B: set<Txid>)
    requires A <= B <= v.Keys
    ensures Weight(v, A) <= Weight(v, B) && |A| <= |B|
    decreases |B|
  {
    if A != B {
      var t :| t in B && t !in A;
      WeightMonotone(v, A, B - {t});
      WeightWith(v, B - {t}, t);
      assert B - {t} + {t} == B;
    }
  }

  lemma {:induction false} WeightSame(v: View, w: View, A: set<Txid>)
    requires A <= v.Keys && A <= w.Keys && forall t :: t in A ==> v[t].size == w[t].size
    ensures Weight(v, A) == Weight(w, A)
    decreases |A|
  {
    if A != {} {
      var t :| t in A && Weight(v, A) == v[t].size + Weight(v, A - {t});
      WeightSame(v, w, A - {t});
      WeightWith(w, A - {t}, t);
      assert A - {t} + {t} == A;
    }
  }

  /** Removing transactions can only break clusters up. */
  lemma RemoveShrinks(v: View, gone: set<Txid>, S: set<Txid>)
    ensures Cluster(Remove(v, gone), S) <= Cluster(v, S)
  {
    var w := Remove(v, gone);
    forall a | a in Cluster(w, S) ensures a in Cluster(v, S) {
      forall C: set<Txid> | S <= C && LinkClosed(v, C) ensures a in C {
        assert LinkClosed(w, C) by {
          forall x, y | x in C && Linked(w, x, y) ensures y in C { assert Linked(v, x, y); }
        }
      }
    }
  }

  lemma LimitedRemove(v: View, gone: set<Txid>, count: nat, bytes: nat)
    requires Limited(v, count, bytes)
    ensures Limited(Remove(v, gone), count, bytes)
  {
    var w := Remove(v, gone);
    forall t | t in w ensures |Cluster(w, {t})| <= count && Weight(w, Cluster(w, {t})) <= bytes {
      RemoveShrinks(v, gone, {t});
      WeightMonotone(v, Cluster(w, {t}), Cluster(v, {t}));
      WeightSame(w, v, Cluster(w, {t}));
    }
  }

  /** What is linked to nothing in K stays so when a transaction that spends only from K comes in. */
  lemma InsertApart(v: View, x: Txid, e: Entry, K: set<Txid>, t: Txid)
    requires x !in v && Grounded(v) && e.parents <= K <= v.Keys && LinkClosed(v, K) && t in v && t !in K
    ensures Cluster(v[x := e], {t}) <= Cluster(v, {t})
  {
    var w := v[x := e];
    forall a | a in Cluster(w, {t}) ensures a in Cluster(v, {t}) {
      assert LinkClosed(w, v.Keys - K) by { ComplementClosed(v, x, e, K, v.Keys); }
      assert a in v.Keys - K;
      forall C: set<Txid> | {t} <= C && LinkClosed(v, C) ensures a in C {
        ComplementClosed(v, x, e, K, C);
        assert {t} <= C * v.Keys - K;
      }
    }
  }

  lemma ComplementClosed(v: View, x: Txid, e: Entry, K: set<Txid>, C: set<Txid>)
    requires x !in v && Grounded(v) && e.parents <= K <= v.Keys && LinkClosed(v, K) && LinkClosed(v, C)
    ensures LinkClosed(v[x := e], C * v.Keys - K)
  {
    var w, D := v[x := e], C * v.Keys - K;
    forall a, b | a in D && Linked(w, a, b) ensures b in D {
      if b != x { assert Linked(v, a, b) && Linked(v, b, a); }
    }
  }

  /** The newcomer's own cluster is what its parents reach, and itself. */
  lemma InsertJoins(v: View, x: Txid, e: Entry, K: set<Txid>, t: Txid)
    requires x !in v && Grounded(v) && e.parents <= K <= v.Keys && LinkClosed(v, K) && t in K + {x}
    ensures Cluster(v[x := e], {t}) <= K + {x}
  {
    var w := v[x := e];
    assert LinkClosed(w, K + {x}) by {
      forall a, b | a in K + {x} && Linked(w, a, b) ensures b in K + {x} {
        if a != x && b != x { assert Linked(v, a, b); }
        if a == x && b != x { assert x !in v[b].parents; }
      }
    }
  }

  lemma JoinedWithin(v: View, x: Txid, e: Entry, K: set<Txid>, count: nat, bytes: nat, t: Txid)
    requires x !in v && Grounded(v) && e.parents <= K <= v.Keys && LinkClosed(v, K) && t in K + {x}
    requires |K| + 1 <= count && Weight(v, K) + e.size <= bytes
    ensures |Cluster(v[x := e], {t})| <= count && Weight(v[x := e], Cluster(v[x := e], {t})) <= bytes
  {
    hide Cluster, LinkClosed, Weight;
    var w := v[x := e];
    InsertJoins(v, x, e, K, t);
    WeightMonotone(w, Cluster(w, {t}), K + {x});
    WeightWith(w, K, x);
    WeightSame(w, v, K);
  }

  lemma ApartWithin(v: View, x: Txid, e: Entry, K: set<Txid>, count: nat, bytes: nat, t: Txid)
    requires Limited(v, count, bytes) && x !in v && Grounded(v) && e.parents <= K <= v.Keys && LinkClosed(v, K) && t in v && t !in K
    ensures |Cluster(v[x := e], {t})| <= count && Weight(v[x := e], Cluster(v[x := e], {t})) <= bytes
  {
    hide LinkClosed, Weight, Joined;
    var w := v[x := e];
    InsertApart(v, x, e, K, t);
    WeightMonotone(v, Cluster(w, {t}), Cluster(v, {t}));
    WeightSame(w, v, Cluster(w, {t}));
  }

  /** Within limits before, and the newcomer's cluster within limits: within limits after. */
  lemma LimitedInsert(v: View, x: Txid, e: Entry, K: set<Txid>, count: nat, bytes: nat)
    requires Limited(v, count, bytes) && x !in v && Grounded(v) && e.parents <= K <= v.Keys && LinkClosed(v, K)
    requires |K| + 1 <= count && Weight(v, K) + e.size <= bytes
    ensures Limited(v[x := e], count, bytes)
  {
    hide Cluster, LinkClosed, Weight, Grounded;
    forall t | t in v[x := e]
      ensures |Cluster(v[x := e], {t})| <= count && Weight(v[x := e], Cluster(v[x := e], {t})) <= bytes
    {
      if t in K + {x} { JoinedWithin(v, x, e, K, count, bytes, t); } else { ApartWithin(v, x, e, K, count, bytes, t); }
    }
  }

  /** A rank below which everything a transaction spends lies. */
  ghost predicate Ranked(v: View, rank: map<Txid, nat>) {
    forall t :: t in v ==> t in rank && forall p :: p in v[t].parents ==> p in rank && rank[p] < rank[t]
  }

  ghost predicate Acyclic(v: View) {
    exists rank: map<Txid, nat> :: Ranked(v, rank)
  }

  lemma AcyclicRemove(v: View, gone: set<Txid>)
    requires Acyclic(v)
    ensures Acyclic(Remove(v, gone))
  {
    var rank: map<Txid, nat> :| Ranked(v, rank);
    assert Ranked(Remove(v, gone), rank);
  }

  lemma {:induction false} Above(rank: map<Txid, nat>, S: set<Txid>) returns (h: nat)
    requires S <= rank.Keys
    ensures forall t :: t in S ==> rank[t] < h
  {
    h := 0;
    if S != {} {
      var t :| t in S;
      h := Above(rank, S - {t});
      if h <= rank[t] { h := rank[t] + 1; }
    }
  }

  lemma AcyclicInsert(v: View, x: Txid, e: Entry)
    requires Acyclic(v) && x !in v && Grounded(v) && e.parents <= v.Keys
    ensures Acyclic(v[x := e])
  {
    var rank: map<Txid, nat> :| Ranked(v, rank);
    var h := Above(rank, e.parents);
    assert Ranked(v[x := e], rank[x := h]);
  }
}
