/** What every pool keeps, whatever is accepted, replaced, trimmed, removed or confirmed, and in whatever order. */
module PoolLaws {
  import opened PoolViews
  import opened PoolClusters
  import opened PoolWalks
  import opened PoolTables
  import opened PoolState
  import opened PoolCommit

  /** Nothing spends itself, and no cluster is over a limit. */
  ghost predicate Lawful(v: View, count: nat, bytes: nat) {
    Grounded(v) && Acyclic(v) && Limited(v, count, bytes)
  }

  /** No outpoint has two spenders. */
  ghost predicate SpentOnce(c: Contents) {
    forall a, b :: a in c.spends && b in c.spends && a.0 == b.0 ==> a.1 == b.1
  }

  /** Which transactions of the pool a list of outpoints spends. */
  ghost function Parents(v: View, ins: seq<Outpoint>): (P: set<Txid>)
    ensures P <= v.Keys
  {
    set op | op in ins && op.0 in v :: op.0
  }

  /** The cluster a spender of P would be part of is within the limits. */
  ghost predicate RoomFor(v: View, P: set<Txid>, size: nat, count: nat, bytes: nat) {
    |Cluster(v, P)| + 1 <= count && Weight(v, Cluster(v, P)) + size <= bytes
  }

  lemma GroundedRemove(v: View, gone: set<Txid>)
    requires Grounded(v)
    ensures Grounded(Remove(v, gone))
  {
  }

  lemma LawfulRemove(v: View, gone: set<Txid>, count: nat, bytes: nat)
    requires Lawful(v, count, bytes)
    ensures Lawful(Remove(v, gone), count, bytes)
  {
    GroundedRemove(v, gone);
    AcyclicRemove(v, gone);
    LimitedRemove(v, gone, count, bytes);
  }

  /** What leaves makes more room, never less. */
  lemma RoomStays(v: View, gone: set<Txid>, P: set<Txid>, size: nat, count: nat, bytes: nat)
    requires RoomFor(v, P, size, count, bytes)
    ensures RoomFor(Remove(v, gone), P, size, count, bytes)
  {
    var w := Remove(v, gone);
    RemoveShrinks(v, gone, P);
    WeightMonotone(v, Cluster(w, P), Cluster(v, P));
    WeightSame(w, v, Cluster(w, P));
  }

  lemma GroundedWith(v: View, x: Txid, e: Entry)
    requires Grounded(v) && e.parents <= v.Keys
    ensures Grounded(v[x := e])
  {
  }

  lemma LawfulEnter(v: View, x: Txid, e: Entry, count: nat, bytes: nat)
    requires Lawful(v, count, bytes) && x !in v && e.parents <= v.Keys && RoomFor(v, e.parents, e.size, count, bytes)
    ensures Lawful(v[x := e], count, bytes)
  {
    hide Acyclic, Limited, Cluster, LinkClosed, Weight;
    GroundedWith(v, x, e);
    AcyclicInsert(v, x, e);
    ClusterClosed(v, e.parents);
    LimitedInsert(v, x, e, Cluster(v, e.parents), count, bytes);
  }

  /** A newcomer's ancestors are in the cluster it joins: within its limits, few and light enough to be counted exactly. */
  lemma UpInCluster(v: View, P: set<Txid>)
    requires Grounded(v) && P <= v.Keys
    ensures Up(v, P) <= Cluster(v, P) && |Up(v, P)| <= |Cluster(v, P)| && Weight(v, Up(v, P)) <= Weight(v, Cluster(v, P))
  {
    forall a | a in Up(v, P) ensures a in Cluster(v, P) {
      forall C: set<Txid> | P <= C && LinkClosed(v, C) ensures a in C {
        assert UpClosed(v, C) by {
          forall t | t in C && t in v ensures v[t].parents <= C {
            forall q | q in v[t].parents ensures q in C { assert Linked(v, t, q); }
          }
        }
      }
    }
    WeightMonotone(v, Up(v, P), Cluster(v, P));
  }

  /** One change of a pool: transactions leave, and perhaps one enters. */
  datatype Change = Drop(gone: set<Txid>) | Enter(gone: set<Txid>, x: Txid, size: nat, fee: nat, ins: seq<Outpoint>, vals: seq<nat>)

  function Apply(c: Contents, ch: Change): Contents
  {
    match ch
    case Drop(gone) => Without(c, gone)
    case Enter(gone, x, size, fee, ins, vals) =>
      With(Without(c, gone), x, Entry(size, fee, set op | op in ins && op.0 in c.graph :: op.0), ins, vals)
  }

  /** An entry that may happen: new, within the limits, leaving together with their spenders those it conflicts with, but none it spends. */
  ghost predicate Allowed(c: Contents, ch: Change, count: nat, bytes: nat) {
    ch.Enter? ==>
      && ch.x !in c.graph && KidClosed(c.graph, ch.gone) && Parents(c.graph, ch.ins) !! ch.gone
      && (forall s :: s in c.spends && s.0 in ch.ins ==> s.1 in ch.gone)
      && RoomFor(Remove(c.graph, ch.gone), Parents(c.graph, ch.ins), ch.size, count, bytes)
  }

  lemma ChangeLawful(c: Contents, ch: Change, count: nat, bytes: nat)
    requires Lawful(c.graph, count, bytes) && Allowed(c, ch, count, bytes)
    ensures Lawful(Apply(c, ch).graph, count, bytes)
  {
    LawfulRemove(c.graph, ch.gone, count, bytes);
    if ch.Enter? {
      LawfulEnter(Remove(c.graph, ch.gone), ch.x, Entry(ch.size, ch.fee, Parents(c.graph, ch.ins)), count, bytes);
    }
  }

  /** One change keeps the laws. */
  lemma ChangeKeeps(c: Contents, ch: Change, count: nat, bytes: nat)
    requires Lawful(c.graph, count, bytes) && SpentOnce(c) && Allowed(c, ch, count, bytes)
    ensures Lawful(Apply(c, ch).graph, count, bytes) && SpentOnce(Apply(c, ch))
  {
    ChangeLawful(c, ch, count, bytes);
    if ch.Enter? {
      SpentOnceWith(Without(c, ch.gone), ch.x, Entry(ch.size, ch.fee, Parents(c.graph, ch.ins)), ch.ins, ch.vals);
    }
  }

  lemma SpentOnceWith(c: Contents, x: Txid, e: Entry, ins: seq<Outpoint>, vals: seq<nat>)
    requires SpentOnce(c) && forall s :: s in c.spends ==> s.0 !in ins
    ensures SpentOnce(With(c, x, e, ins, vals))
  {
  }

  /** A run: changes one after another, each allowed where it happens. */
  ghost predicate Runs(c: Contents, changes: seq<Change>, count: nat, bytes: nat)
    decreases |changes|
  {
    changes == [] || (Allowed(c, changes[0], count, bytes) && Runs(Apply(c, changes[0]), changes[1..], count, bytes))
  }

  function After(c: Contents, changes: seq<Change>): Contents
    decreases |changes|
  {
    if changes == [] then c else After(Apply(c, changes[0]), changes[1..])
  }

  /** Every pool a run reaches from a lawful one keeps the laws. */
  lemma {:induction false} RunsKeep(c: Contents, changes: seq<Change>, count: nat, bytes: nat)
    requires Lawful(c.graph, count, bytes) && SpentOnce(c) && Runs(c, changes, count, bytes)
    ensures Lawful(After(c, changes).graph, count, bytes) && SpentOnce(After(c, changes))
    decreases |changes|
  {
    if changes != [] {
      ChangeKeeps(c, changes[0], count, bytes);
      RunsKeep(Apply(c, changes[0]), changes[1..], count, bytes);
    }
  }

  /** A set that leaves after another has left, each with its spenders, leave together with their spenders. */
  lemma ClosedAfter(v: View, a: set<Txid>, b: set<Txid>)
    requires KidClosed(v, a) && KidClosed(Remove(v, a), b)
    ensures KidClosed(v, a + b)
  {
    forall t, u | t in a + b && Spender(v, t, u) ensures u in a + b {
      if u !in a { assert t !in a; assert Spender(Remove(v, a), t, u); }
    }
  }

  lemma DownUnion(v: View, A: set<Txid>, B: set<Txid>)
    requires A <= v.Keys && B <= v.Keys
    ensures Down(v, A + B) == Down(v, A) + Down(v, B)
  {
    DownCloses(v, A); DownCloses(v, B);
    var D := Down(v, A) + Down(v, B);
    assert KidClosed(v, D);
    forall C: set<Txid> | A + B <= C && KidClosed(v, C) ensures D <= C { }
    DownLeast(v, A + B, D);
  }

  /** The one descendant of a transaction has none itself. */
  lemma SoleChild(v: View, p: Txid, s: Txid)
    requires Grounded(v) && Acyclic(v) && p in v && p != s && Down(v, {p}) == {p, s}
    ensures KidClosed(v, {s})
  {
    var rank: map<Txid, nat> :| Ranked(v, rank);
    DownCloses(v, {p});
    NotBelow(v, rank, p, s);
    forall u ensures !Spender(v, s, u) {
      assert s in Down(v, {p});
    }
  }

  /** Whatever spends a transaction ranks above it. */
  lemma NotBelow(v: View, rank: map<Txid, nat>, p: Txid, s: Txid)
    requires Ranked(v, rank) && p in v && s in Down(v, {p})
    ensures rank[p] <= rank[s]
  {
    var C := set a | a in v && rank[p] <= rank[a];
    assert KidClosed(v, C) by {
      forall t, u | t in C && Spender(v, t, u) ensures u in C { assert rank[t] < rank[u]; }
    }
    assert {p} <= C;
    assert Beneath(v, {p}, s);
  }

  /** A pool holds as many claims, and as many outputs, as it has entries for them. */
  lemma {:induction false} SetSize<T(!new)>(s: seq<T>)
    requires NoRepeats(s)
    ensures |set x | x in s| == |s|
    decreases |s|
  {
    if s != [] {
      var r := s[..|s| - 1];
      var z := s[|s| - 1];
      SetSize(r);
      assert s == r + [z];
      assert (set x | x in s) == (set x | x in r) + {z};
    }
  }

  lemma ClaimCount(cs: seq<Claim>, ns: seq<Node>, key: Claim -> Outpoint)
    requires ClaimsLive(cs, |ns|) && Unique(cs, key) && forall c: Claim :: key(c) == (c.prev, c.index)
    ensures |Spends(cs, ns)| == |cs|
  {
    var pairs := seq(|cs|, i requires 0 <= i < |cs| => ((cs[i].prev, cs[i].index), ns[cs[i].claimer].txid));
    forall i: nat, j: nat | i < j < |pairs| ensures pairs[i] != pairs[j] { assert key(cs[i]) != key(cs[j]); }
    SetSize(pairs);
    var A := set x | x in pairs;
    forall x | x in A ensures x in Spends(cs, ns) {
      var i: nat :| i < |pairs| && pairs[i] == x;
      IsSpend(cs, ns, i);
    }
    forall x | x in Spends(cs, ns) ensures x in A {
      var i := SpendOf(cs, ns, x);
      assert pairs[i] == x;
    }
    assert A == Spends(cs, ns);
  }

  lemma OutCount(os: seq<Out>, key: Out -> Outpoint)
    requires Unique(os, key) && forall o: Out :: key(o) == (o.txid, o.index)
    ensures |OutSet(os)| == |os|
  {
    forall i: nat, j: nat | i < j < |os| ensures os[i] != os[j] { assert key(os[i]) != key(os[j]); }
    SetSize(os);
    assert OutSet(os) == set x | x in os;
  }

  /** One claimer for an outpoint, one spender. */
  lemma ClaimsSpendOnce(ns: seq<Node>, cs: seq<Claim>, os: seq<Out>, key: Claim -> Outpoint)
    requires Unique(cs, key) && forall c: Claim :: key(c) == (c.prev, c.index)
    ensures SpentOnce(Held(ns, cs, os))
  {
    forall a, b | a in Spends(cs, ns) && b in Spends(cs, ns) && a.0 == b.0 ensures a.1 == b.1 {
      var i := SpendOf(cs, ns, a);
      var j := SpendOf(cs, ns, b);
      SamePlace(cs, key, i, j);
    }
  }

  lemma SamePlace(cs: seq<Claim>, key: Claim -> Outpoint, i: nat, j: nat)
    requires Unique(cs, key) && i < |cs| && j < |cs| && key(cs[i]) == key(cs[j])
    ensures i == j
  {
  }
}
