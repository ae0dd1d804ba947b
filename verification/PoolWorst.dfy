/** The worst chunk of a pool, from its nodes' caches; the pool is not changed by the question. */
module PoolWorst {
  import opened Bytes
  import opened ChainTable
  import opened PoolViews
  import opened PoolAncestors
  import opened NodeRemoval
  import opened PoolTables
  import opened PoolState
  import opened PoolClusters
  import opened PoolLaws
  import opened PoolAdmit
  import opened Marking
  import opened ChunkCache
  import opened WorstChunk
  import opened CachedChunk
  import opened BatchRemoval
  import opened CacheMoves
  import Sums

  ghost function NamesOf(ns: seq<Node>, S: set<nat>): set<Txid>
    requires forall a :: a in S ==> a < |ns|
  {
    set a | a in S :: ns[a].txid
  }

  lemma {:induction false} NamesSize(ns: seq<Node>, S: set<nat>)
    requires Distinct(ns) && forall a :: a in S ==> a < |ns|
    ensures |NamesOf(ns, S)| == |S|
    decreases |S|
  {
    if S != {} {
      var x :| x in S;
      NamesSize(ns, S - {x});
      assert NamesOf(ns, S) == NamesOf(ns, S - {x}) + {ns[x].txid};
      forall a | a in S - {x} ensures ns[a].txid != ns[x].txid { DifferentIds(ns, a, x); }
    }
  }

  /** The slots of a link-closed set of transactions are closed under being neighbours. */
  lemma LinkedSlots(ns: seq<Node>, C: set<Txid>)
    requires Distinct(ns) && LinkClosed(ViewOf(ns), C)
    ensures DownClosed(Adj(ns), set a: nat | a < |ns| && ns[a].txid in C)
  {
    var D := set a: nat | a < |ns| && ns[a].txid in C;
    forall p: nat, c: nat | p < |Adj(ns)| && p in D && c in Adj(ns)[p] ensures c in D {
      ViewAt(ns, p); ViewAt(ns, c);
      assert Linked(ViewOf(ns), ns[p].txid, ns[c].txid);
    }
  }

  lemma NameJoined(ns: seq<Node>, i: nat, a: nat, C: set<Txid>)
    requires Distinct(ns) && i < |ns| && a in Comp(ns, i) && ns[i].txid in C && LinkClosed(ViewOf(ns), C)
    ensures ns[a].txid in C
  {
    hide LinkClosed, ViewOf, Distinct, Adj;
    LinkedSlots(ns, C);
    var D := set b: nat | b < |ns| && ns[b].txid in C;
    assert {i} <= D;
    assert Under(Adj(ns), {i}, a);
  }

  /** A cluster has no more slots than members. */
  lemma CompInCluster(ns: seq<Node>, i: nat)
    requires Distinct(ns) && i < |ns|
    ensures |Comp(ns, i)| <= |Cluster(ViewOf(ns), {ns[i].txid})|
  {
    hide LinkClosed, ViewOf, Distinct, Comp;
    var v, K, N := ViewOf(ns), Comp(ns, i), NamesOf(ns, Comp(ns, i));
    forall t | t in N ensures t in Cluster(v, {ns[i].txid}) {
      var a :| a in K && ns[a].txid == t;
      ViewAt(ns, a);
      forall C: set<Txid> | {ns[i].txid} <= C && LinkClosed(v, C) ensures t in C { NameJoined(ns, i, a, C); }
    }
    NamesSize(ns, K);
    Sums.SubsetSize(N, Cluster(v, {ns[i].txid}));
  }

  ghost predicate Weighty(v: View) {
    forall t :: t in v ==> v[t].size > 0
  }

  /** A lawful pool's clusters fit the tables of the walk. */
  lemma LawfulScorable(ns: seq<Node>, count: nat, bytes: nat)
    requires Distinct(ns) && Lawful(ViewOf(ns), count, bytes) && count <= CLUSTER_MAX && Weighty(ViewOf(ns))
    ensures Scorable(ns)
  {
    hide Comp, Cluster, Acyclic, Grounded, Weight;
    forall i: nat | i < |ns| ensures |Comp(ns, i)| <= CLUSTER_MAX && ns[i].size > 0 {
      ViewAt(ns, i);
      CompInCluster(ns, i);
    }
  }

  lemma IdsCkOnly(ns: seq<Node>, ms: seq<Node>, refs: seq<int>)
    requires CkOnly(ns, ms)
    ensures Ids(ns, refs) == Ids(ms, refs)
  {
    assert forall i: nat :: i < |ns| ==> ms[i].txid == ns[i].txid;
  }

  lemma TxidsCkOnly(ns: seq<Node>, ms: seq<Node>)
    requires CkOnly(ns, ms) && Distinct(ns)
    ensures Txids(ns) == Txids(ms) && Distinct(ms)
  {
    assert forall i: nat :: i < |ns| ==> ms[i].txid == ns[i].txid;
  }

  lemma ViewCkOnly(ns: seq<Node>, ms: seq<Node>)
    requires CkOnly(ns, ms) && Distinct(ns)
    ensures ViewOf(ns) == ViewOf(ms) && Distinct(ms)
  {
    hide ViewOf, Distinct, Txids, Ids;
    TxidsCkOnly(ns, ms);
    forall t | t in ViewOf(ns) ensures ViewOf(ns)[t] == ViewOf(ms)[t] {
      var i := SlotOf(ns, t);
      ViewAt(ns, i);
      assert ms[i] == ns[i].(ck := ms[i].ck);
      ViewAt(ms, i);
      IdsCkOnly(ns, ms, ns[i].parents);
    }
  }

  lemma RefsCkOnly(ns: seq<Node>, ms: seq<Node>)
    requires CkOnly(ns, ms) && RefsOk(ns)
    ensures RefsOk(ms)
  {
    assert forall i: nat :: i < |ns| ==> ms[i].parents == ns[i].parents;
    forall j: nat | j < |ms| ensures NoDoubles(ms, ms[j].parents) { assert NoDoubles(ns, ns[j].parents); }
  }

  lemma ExactCkOnly(ns: seq<Node>, ms: seq<Node>)
    requires CkOnly(ns, ms) && Distinct(ns) && AncExact(ns)
    ensures AncExact(ms)
  {
    hide ViewOf, Ancestors, Weight, Distinct;
    ViewCkOnly(ns, ms);
    forall i: nat | i < |ms| ensures Exact(ms, i, ms[i].ancCnt, ms[i].ancBytes) {
      assert ms[i] == ns[i].(ck := ms[i].ck);
      assert Exact(ns, i, ns[i].ancCnt, ns[i].ancBytes);
    }
  }

  lemma SpendsCkOnly(ns: seq<Node>, ms: seq<Node>, cs: seq<Claim>)
    requires CkOnly(ns, ms)
    ensures Spends(cs, ns) == Spends(cs, ms)
  {
    assert forall i: nat :: i < |ns| ==> ms[i].txid == ns[i].txid;
    forall s | s in Spends(cs, ns) ensures s in Spends(cs, ms) { var i := SpendOf(cs, ns, s); IsSpend(cs, ms, i); }
    forall s | s in Spends(cs, ms) ensures s in Spends(cs, ns) { var i := SpendOf(cs, ms, s); IsSpend(cs, ns, i); }
  }

  /** What is kept about chunks is no part of what a pool holds. */
  lemma HeldCkOnly(ns: seq<Node>, ms: seq<Node>, cs: seq<Claim>, os: seq<Out>)
    requires CkOnly(ns, ms) && InOrder(ns, cs, os)
    ensures InOrder(ms, cs, os) && Held(ms, cs, os) == Held(ns, cs, os)
  {
    hide CkOnly, Distinct, RefsOk, AncExact, ViewOf, Spends, OutSet;
    ViewCkOnly(ns, ms);
    TxidsCkOnly(ns, ms);
    RefsCkOnly(ns, ms);
    ExactCkOnly(ns, ms);
    SpendsCkOnly(ns, ms, cs);
    SameLength(ns, ms);
  }

  lemma SameLength(ns: seq<Node>, ms: seq<Node>)
    requires CkOnly(ns, ms)
    ensures |ns| == |ms|
  {
  }

  /** The worst chunk of a lawful pool: what a full walk finds; nothing the pool holds changes. */
  method WorstOf(p: Pool, last: Linearizer, excl: seq<Txid>, top0: nat, ghost count: nat, ghost bytes: nat)
    returns (r: Option<Worst>, top: nat)
    requires p.Valid() && Lawful(p.Now().graph, count, bytes) && count <= CLUSTER_MAX && Weighty(p.Now().graph)
    requires Sensible(last) && CacheOk(p.nodes.Entries(), last, top0)
    modifies p.nodes.entries
    ensures p.Valid() && p.Now() == old(p.Now()) && CacheOk(p.nodes.Entries(), last, top)
    ensures CkOnly(old(p.nodes.Entries()), p.nodes.Entries())
    ensures Scorable(old(p.nodes.Entries())) && r == Answer(old(p.nodes.Entries()), last, set x | x in excl)
  {
    hide Table.Valid, Table.Entries, InOrder, Held, Unique, Keyed, ClaimKeyed, OutKeyed, Lawful, Weighty, Scorable, Sensible, CacheOk, CkOnly,
      Answer, ViewOf, Distinct;
    ghost var ns := p.nodes.Entries();
    Opened(p);
    LawfulScorable(ns, count, bytes);
    r, top := CachedWorst(p.nodes, last, excl, top0);
    HeldCkOnly(ns, p.nodes.Entries(), p.claims.Entries(), p.outs.Entries());
  }

  /** One change of the table: a newcomer, one gone, many gone at once, a cluster walked again. */
  datatype TableChange = Came(nd: Node) | OneLeft(ci: nat) | ManyLeft(mark: seq<bool>) | Walked(i: nat)

  ghost predicate Changes(ns: seq<Node>, rs: seq<Node>, last: Linearizer, top: nat, ch: TableChange) {
    match ch
    case Came(nd) => RefsOk(ns) && nd.ck == Stale && (forall k: nat :: k < |nd.parents| ==> 0 <= nd.parents[k] < |ns|) && rs == ns + [nd]
    case OneLeft(ci) => RefsOk(ns) && ci < |ns| && Removed(ns, rs, SwapFrom(|ns|, ci)) && StaleOne(ns, rs, ci)
    case ManyLeft(mark) => RefsOk(ns) && |mark| == |ns| && Removed(ns, rs, KeptFrom(mark)) && StaleMany(ns, rs, mark)
    case Walked(i) => i < |ns| && Renewed(ns, rs, last, i, top + 1)
  }

  /** The ids given out after some changes. */
  function IdsUsed(changes: seq<TableChange>): nat {
    if changes == [] then 0 else IdsUsed(changes[..|changes| - 1]) + if changes[|changes| - 1].Walked? then 1 else 0
  }

  /** In every table that changes like these reach from an empty one, every cluster without a stale member keeps the truth. */
  lemma {:induction false} RunsKeepCache(tables: seq<seq<Node>>, changes: seq<TableChange>, last: Linearizer)
    requires |tables| == |changes| + 1 && tables[0] == []
    requires forall k: nat :: k < |changes| ==> Changes(tables[k], tables[k + 1], last, IdsUsed(changes[..k]), changes[k])
    ensures CacheOk(tables[|changes|], last, IdsUsed(changes))
    decreases |changes|
  {
    hide CacheOk, Renewed, Removed, StaleOne, StaleMany, RefsOk;
    var n := |changes|;
    if n == 0 {
      NothingKept(last);
    } else {
      forall k: nat | k < n - 1 ensures changes[..n - 1][..k] == changes[..k] { }
      RunsKeepCache(tables[..n], changes[..n - 1], last);
      ChangeKeepsCache(tables[n - 1], tables[n], last, IdsUsed(changes[..n - 1]), changes[n - 1]);
    }
  }

  lemma ChangeKeepsCache(ns: seq<Node>, rs: seq<Node>, last: Linearizer, top: nat, ch: TableChange)
    requires CacheOk(ns, last, top) && Changes(ns, rs, last, top, ch)
    ensures CacheOk(rs, last, if ch.Walked? then top + 1 else top)
  {
    hide CacheOk, Renewed, StaleOne, StaleMany, Moved, RefsOk;
    match ch
    case Came(nd) => NewcomerKeeps(ns, nd, last, top);
    case OneLeft(ci) => OneKeeps(ns, rs, ci, last, top);
    case ManyLeft(mark) => ManyKeep(ns, rs, mark, last, top);
    case Walked(i) => RenewalKeeps(ns, rs, last, top, i);
  }

  lemma NothingKept(last: Linearizer)
    ensures CacheOk([], last, 0)
  {
  }
}
