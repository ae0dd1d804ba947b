/** What the evictor picks: with the node's own linearizer, the worst chunk is the least paying set of transactions that can leave alone. */
module Eviction {
  import opened Bytes
  import opened PoolViews
  import opened PoolClusters
  import opened ChainTable
  import opened PoolState
  import opened PoolLaws
  import opened PoolAncestors
  import opened ClusterWalk
  import opened PoolWalks
  import opened PoolAccept
  import opened PoolAdmit
  import opened PoolWorst
  import opened ClusterOrder
  import opened ChunkCache
  import opened WorstChunk
  import Sums
  import Clusters
  import DiagramOrder
  import Last = LastChunk

  function FeesOf(ns: seq<Node>): (p: seq<int>)
    ensures |p| == |ns| && forall i: nat :: i < |ns| ==> p[i] == ns[i].fee
  {
    seq(|ns|, i requires 0 <= i < |ns| => ns[i].fee)
  }

  function SizesOf(ns: seq<Node>): (p: seq<int>)
    ensures |p| == |ns| && forall i: nat :: i < |ns| ==> p[i] == ns[i].size
  {
    seq(|ns|, i requires 0 <= i < |ns| => ns[i].size)
  }

  function FeeOf(ns: seq<Node>, D: set<nat>): int { Sums.Sum(FeesOf(ns), D) }

  function SizeOf(ns: seq<Node>, D: set<nat>): int { Sums.Sum(SizesOf(ns), D) }

  /** With a slot, every slot that spends it: what can leave and strand nothing. */
  ghost predicate LeavesAlone(ns: seq<Node>, D: set<nat>) {
    D <= Sums.Below(|ns|) && forall a: nat, b: nat :: a in D && b < |ns| && a in ns[b].parents ==> b in D
  }

  ghost predicate RanksTable(ns: seq<Node>, rank: seq<nat>) {
    |rank| == |ns| && forall a: nat, b: nat :: a < |ns| && b < |ns| && a in ns[b].parents ==> rank[a] < rank[b]
  }

  ghost predicate RankedTable(ns: seq<Node>) {
    exists rank: seq<nat> :: RanksTable(ns, rank)
  }

  /** A linearizer that answers as the node's own does. */
  ghost predicate Own(last: Linearizer) {
    forall q: seq<Item> :: Last.Answers(q, last(q))
  }

  /** The node's own linearizer is one the pool can work with. */
  lemma OwnIsSensible(last: Linearizer)
    requires Own(last)
    ensures Sensible(last)
  {
    hide Last.Cheapest, Last.Ranked;
    forall q: seq<Item> | last(q).Some?
      ensures forall k: nat :: k < |last(q).value.places| ==> last(q).value.places[k] < |q|
      ensures (forall k: nat :: k < |q| ==> q[k].size > 0) ==> last(q).value.size > 0
    {
      assert Last.Answers(q, last(q));
    }
  }

  /** A pool without cycles has a table without cycles. */
  lemma AcyclicRanked(ns: seq<Node>)
    requires Distinct(ns) && Acyclic(ViewOf(ns))
    ensures RankedTable(ns)
  {
    hide ViewOf, Distinct;
    var v := ViewOf(ns);
    var rank: map<Txid, nat> :| PoolClusters.Ranked(v, rank);
    forall i: nat | i < |ns| ensures ns[i].txid in rank && forall p :: p in Ids(ns, ns[i].parents) ==> p in rank && rank[p] < rank[ns[i].txid] { ViewAt(ns, i); }
    var byslot := seq(|ns|, i requires 0 <= i < |ns| => rank[ns[i].txid]);
    forall a: nat, b: nat | a < |ns| && b < |ns| && a in ns[b].parents ensures byslot[a] < byslot[b] {
      assert ns[a].txid in Ids(ns, ns[b].parents);
    }
    assert RanksTable(ns, byslot);
  }

  lemma PictureRanked(ns: seq<Node>, mem: seq<nat>)
    requires RankedTable(ns) && forall k: nat :: k < |mem| ==> mem[k] < |ns|
    ensures Last.Ranked(Picture(ns, mem))
  {
    var rank: seq<nat> :| RanksTable(ns, rank);
    var byplace := seq(|mem|, k requires 0 <= k < |mem| => rank[mem[k]]);
    assert Last.Ranks(Picture(ns, mem), byplace);
  }

  /** The places of some slots in a list. */
  ghost function PlacesOf(mem: seq<nat>, D: set<nat>): (S: set<nat>)
    ensures forall k: nat :: k in S <==> k < |mem| && mem[k] in D
  {
    set k: nat | k < |mem| && mem[k] in D
  }

  lemma {:induction false} PlacesSumTo(p: seq<int>, pm: seq<int>, mem: seq<nat>, D: set<nat>, k: nat)
    requires Apart(mem) && |pm| == |mem| && k <= |mem|
    requires forall j: nat :: j < |mem| ==> mem[j] < |p| && pm[j] == p[mem[j]]
    ensures Sums.SumTo(pm, PlacesOf(mem, D), k) == Sums.Sum(p, D * SetOf(mem[..k]))
  {
    if k == 0 {
      Sums.EmptySum(p, |p|);
      assert D * SetOf(mem[..0]) == {};
    } else {
      PlacesSumTo(p, pm, mem, D, k - 1);
      var x, A, B := mem[k - 1], D * SetOf(mem[..k - 1]), D * SetOf(mem[..k]);
      assert mem[..k] == mem[..k - 1] + [x];
      assert x !in A;
      if x in D {
        Sums.SumSplit(p, {x}, B);
        DiagramOrder.OneSum(p, x, |p|);
        assert B * {x} == {x} && B - {x} == A;
      } else {
        assert A == B;
      }
    }
  }

  /** What some members of a list pay and weigh is what their places do. */
  lemma PlacesSum(ns: seq<Node>, mem: seq<nat>, D: set<nat>)
    requires Apart(mem) && D <= SetOf(mem) && forall k: nat :: k < |mem| ==> mem[k] < |ns|
    ensures FeeOf(ns, D) == Clusters.Fee(Last.Drawn(Picture(ns, mem)), PlacesOf(mem, D))
    ensures SizeOf(ns, D) == Clusters.Weight(Last.Drawn(Picture(ns, mem)), PlacesOf(mem, D))
  {
    var cl := Last.Drawn(Picture(ns, mem));
    assert mem[..|mem|] == mem && D * SetOf(mem) == D;
    PlacesSumTo(FeesOf(ns), Clusters.Fees(cl), mem, D, |mem|);
    PlacesSumTo(SizesOf(ns), Clusters.Weights(cl), mem, D, |mem|);
  }

  lemma PlacesClosed(ns: seq<Node>, mem: seq<nat>, D: set<nat>)
    requires LeavesAlone(ns, D) && forall k: nat :: k < |mem| ==> mem[k] < |ns|
    ensures Last.SpendClosed(Picture(ns, mem), PlacesOf(mem, D))
  {
  }

  /** A cluster's list is one the node's own linearizer answers with the least paying chunk. */
  lemma ClusterAnswered(ns: seq<Node>, last: Linearizer, i: nat)
    requires Own(last) && Scorable(ns) && RankedTable(ns) && i < |ns|
    ensures LastOf(ns, last, i).Some? && Last.Cheapest(Picture(ns, Listed(ns, i)), LastOf(ns, last, i).value)
    ensures LastOf(ns, last, i).value.size > 0
  {
    hide Comp, Listed, Last.Cheapest, RankedTable, Last.Ranked;
    var mem := Listed(ns, i);
    var q := Picture(ns, mem);
    CompIs(ns, i);
    ApartSize(mem);
    PictureRanked(ns, mem);
    assert i in SetOf(mem);
    assert Last.Answers(q, last(q));
  }

  /** Nothing of a cluster that can leave alone pays less than its last chunk. */
  lemma ClusterCheapest(ns: seq<Node>, last: Linearizer, i: nat, D: set<nat>)
    requires Own(last) && Scorable(ns) && RankedTable(ns) && i < |ns|
    requires D != {} && D <= Comp(ns, i) && LeavesAlone(ns, D)
    ensures LastOf(ns, last, i).Some?
    ensures LastOf(ns, last, i).value.fee * SizeOf(ns, D) <= FeeOf(ns, D) * LastOf(ns, last, i).value.size
  {
    hide Comp, Listed, RankedTable, LeavesAlone, FeeOf, SizeOf, Own, Scorable;
    ClusterAnswered(ns, last, i);
    var mem := Listed(ns, i);
    var S := PlacesOf(mem, D);
    PlacesSum(ns, mem, D);
    PlacesClosed(ns, mem, D);
    var x :| x in D;
    assert x in SetOf(mem);
    var k: nat :| k < |mem| && mem[k] == x;
    assert k in S;
  }

  lemma Through(bf: nat, bs: nat, cf: nat, cs: nat, f: nat, w: nat)
    requires bf * cs <= cf * bs && cf * w <= f * cs && cs > 0
    ensures bf * w <= f * bs
  {
    Scale(bf * cs, cf * bs, w);
    Scale(cf * w, f * cs, bs);
    Swap(bf, w, cs); Swap(cf, bs, w); Swap(f, bs, cs);
    Unscale(bf * w, f * bs, cs);
  }

  /** The worst cluster's chunk pays no more for its weight than D. */
  ghost predicate NotUnderpaid(ns: seq<Node>, last: Linearizer, D: set<nat>) {
    var b := Best(ns, last, {}, |ns|);
    b.Some? && LastOf(ns, last, b.value).value.fee * SizeOf(ns, D) <= FeeOf(ns, D) * LastOf(ns, last, b.value).value.size
  }

  /** The worst cluster's chunk pays no more than anything of one cluster that can leave alone. */
  lemma BestCheapest(ns: seq<Node>, last: Linearizer, i: nat, D: set<nat>)
    requires Own(last) && Sensible(last) && Scorable(ns) && RankedTable(ns) && i < |ns|
    requires D != {} && D <= Comp(ns, i) && LeavesAlone(ns, D)
    ensures NotUnderpaid(ns, last, D)
  {
    hide Comp, Listed, LastOf, RankedTable, LeavesAlone, FeeOf, SizeOf, Own, Scorable, Sensible, Best, Last.Cheapest;
    CompIs(ns, i);
    var s := Least(Comp(ns, i));
    SameComp(ns, i, s);
    ClusterAnswered(ns, last, s);
    ClusterCheapest(ns, last, s, D);
    BestCovers(ns, last, {}, |ns|, s);
    Amounts(ns, D);
    var b, c := LastOf(ns, last, Best(ns, last, {}, |ns|).value).value, LastOf(ns, last, s).value;
    Through(b.fee, b.size, c.fee, c.size, FeeOf(ns, D), SizeOf(ns, D));
  }

  lemma Amounts(ns: seq<Node>, D: set<nat>)
    ensures FeeOf(ns, D) >= 0 && SizeOf(ns, D) >= 0
  {
    Sums.SumToMonotone(FeesOf(ns), D, |ns|);
    Sums.SumToMonotone(SizesOf(ns), D, |ns|);
  }

  /** What can leave alone, split along a cluster, leaves alone in both parts. */
  lemma SplitAlone(ns: seq<Node>, i: nat, D: set<nat>)
    requires LeavesAlone(ns, D) && i < |ns|
    ensures LeavesAlone(ns, D * Comp(ns, i)) && LeavesAlone(ns, D - Comp(ns, i))
    ensures FeeOf(ns, D) == FeeOf(ns, D * Comp(ns, i)) + FeeOf(ns, D - Comp(ns, i))
    ensures SizeOf(ns, D) == SizeOf(ns, D * Comp(ns, i)) + SizeOf(ns, D - Comp(ns, i))
  {
    hide Comp;
    var K, adj := Comp(ns, i), Adj(ns);
    CompIs(ns, i);
    forall a: nat, b: nat | a in D && b < |ns| && a in ns[b].parents ensures a in K <==> b in K {
      assert b in adj[a] && a in adj[b];
    }
    Sums.SumSplit(FeesOf(ns), K, D);
    Sums.SumSplit(SizesOf(ns), K, D);
  }

  lemma {:induction false} NothingPaysLess(ns: seq<Node>, last: Linearizer, D: set<nat>)
    requires Own(last) && Sensible(last) && Scorable(ns) && RankedTable(ns) && D != {} && LeavesAlone(ns, D)
    ensures NotUnderpaid(ns, last, D)
    decreases D
  {
    hide Comp, NotUnderpaid, RankedTable, FeeOf, SizeOf, Own, Scorable, Sensible;
    var i :| i in D;
    CompIs(ns, i);
    SplitAlone(ns, i, D);
    BestCheapest(ns, last, i, D * Comp(ns, i));
    if D - Comp(ns, i) == {} {
      assert D * Comp(ns, i) == D;
    } else {
      NothingPaysLess(ns, last, D - Comp(ns, i));
      BothPay(ns, last, D, D * Comp(ns, i), D - Comp(ns, i));
    }
  }

  lemma BothPay(ns: seq<Node>, last: Linearizer, D: set<nat>, A: set<nat>, B: set<nat>)
    requires NotUnderpaid(ns, last, A) && NotUnderpaid(ns, last, B)
    requires FeeOf(ns, D) == FeeOf(ns, A) + FeeOf(ns, B) && SizeOf(ns, D) == SizeOf(ns, A) + SizeOf(ns, B)
    ensures NotUnderpaid(ns, last, D)
  {
    hide FeeOf, SizeOf, Best, LastOf;
    var c := LastOf(ns, last, Best(ns, last, {}, |ns|).value).value;
    Together(c.fee, c.size, FeeOf(ns, A), SizeOf(ns, A), FeeOf(ns, B), SizeOf(ns, B));
  }

  lemma Together(cf: int, cs: int, f: int, w: int, g: int, v: int)
    requires cf * w <= f * cs && cf * v <= g * cs
    ensures cf * (w + v) <= (f + g) * cs
  {
  }

  /** The chunk can leave alone, is what its figures say, and nothing else that can leave alone pays less for its weight. */
  ghost predicate LeastPaying(ns: seq<Node>, w: Worst) {
    var W := SetOf(w.slots);
    && W != {} && Apart(w.slots) && LeavesAlone(ns, W) && w.fee == FeeOf(ns, W) && w.size == SizeOf(ns, W) && w.size > 0
    && forall D: set<nat> :: D != {} && LeavesAlone(ns, D) ==> w.fee * SizeOf(ns, D) <= FeeOf(ns, D) * w.size
  }

  lemma SlotsAlone(ns: seq<Node>, i: nat, places: seq<nat>, slots: seq<nat>)
    requires i < |ns| && |slots| == |places| && Apart(places)
    requires forall k: nat :: k < |places| ==> places[k] < |Listed(ns, i)| && slots[k] == Listed(ns, i)[places[k]]
    requires Last.SpendClosed(Picture(ns, Listed(ns, i)), Clusters.Members(places))
    ensures Apart(slots) && LeavesAlone(ns, SetOf(slots)) && SetOf(slots) <= SetOf(Listed(ns, i))
    ensures PlacesOf(Listed(ns, i), SetOf(slots)) == Clusters.Members(places)
  {
    hide Listed, Comp;
    var mem, W, K := Listed(ns, i), SetOf(slots), Comp(ns, i);
    CompIs(ns, i);
    forall a: nat, b: nat | a in W && b < |ns| && a in ns[b].parents ensures b in W {
      var k: nat :| k < |slots| && slots[k] == a;
      assert a in SetOf(mem) && b in Adj(ns)[a];
      assert b in SetOf(mem);
      var m: nat :| m < |mem| && mem[m] == b;
      assert places[k] in Picture(ns, mem)[m].parents;
      assert places[k] in Clusters.Members(places);
      assert m in Clusters.Members(places);
      var t: nat :| t < |places| && places[t] == m;
      assert slots[t] == b;
    }
    forall k: nat | k in PlacesOf(mem, W) ensures k in Clusters.Members(places) {
      var t: nat :| t < |slots| && slots[t] == mem[k];
      assert places[t] == k;
    }
    forall k: nat | k in Clusters.Members(places) ensures k in PlacesOf(mem, W) {
      var t: nat :| t < |places| && places[t] == k;
      assert slots[t] in W;
    }
  }

  /** The worst chunk of a table is the least paying of all that can leave alone. */
  lemma WorstIsLeastPaying(ns: seq<Node>, last: Linearizer)
    requires Own(last) && Scorable(ns) && RankedTable(ns) && ns != []
    ensures Sensible(last) && WorstChunk.Answer(ns, last, {}).Some? && LeastPaying(ns, WorstChunk.Answer(ns, last, {}).value)
  {
    hide Comp, Listed, RankedTable, LeavesAlone, FeeOf, SizeOf, Own, Scorable, Sensible, Best, Last.Drawn, Picture, Last.SpendClosed;
    OwnIsSensible(last);
    AllAlone(ns);
    NothingPaysLess(ns, last, Sums.Below(|ns|));
    var i := Best(ns, last, {}, |ns|).value;
    ClusterAnswered(ns, last, i);
    var c, mem := LastOf(ns, last, i).value, Listed(ns, i);
    Weighs(ns, last, i);
    var w := Named(mem, c);
    SlotsAlone(ns, i, c.places, w.slots);
    PlacesSum(ns, mem, SetOf(w.slots));
    var x :| x in Clusters.Members(c.places);
    assert mem[x] in SetOf(w.slots);
    forall D: set<nat> | D != {} && LeavesAlone(ns, D) ensures w.fee * SizeOf(ns, D) <= FeeOf(ns, D) * w.size {
      NothingPaysLess(ns, last, D);
    }
  }

  lemma AllAlone(ns: seq<Node>)
    ensures LeavesAlone(ns, Sums.Below(|ns|)) && (ns != [] ==> 0 in Sums.Below(|ns|))
  {
  }

  /** The worst chunk of a lawful pool, asked of the pool as it stands. */
  method PickWorst(p: Pool, last: Linearizer, top0: nat, ghost count: nat, ghost bytes: nat) returns (r: Option<Worst>, top: nat)
    requires p.Valid() && Lawful(p.Now().graph, count, bytes) && count <= CLUSTER_MAX && Weighty(p.Now().graph)
    requires Own(last) && CacheOk(p.nodes.Entries(), last, top0)
    modifies p.nodes.entries
    ensures p.Valid() && p.Now() == old(p.Now()) && CacheOk(p.nodes.Entries(), last, top)
    ensures CkOnly(old(p.nodes.Entries()), p.nodes.Entries())
    ensures r.None? <==> old(p.nodes.Entries()) == []
    ensures r.Some? ==> LeastPaying(old(p.nodes.Entries()), r.value)
  {
    hide Table.Valid, Table.Entries, Scorable, Sensible, CacheOk, WorstChunk.Answer, LeastPaying, Own, RankedTable;
    ghost var ns := p.nodes.Entries();
    OwnIsSensible(last);
    Opened(p);
    AcyclicRanked(ns);
    r, top := WorstOf(p, last, [], top0, count, bytes);
    if ns == [] { NoneWorst(ns, last); } else { WorstIsLeastPaying(ns, last); }
    assert (set x: Txid | x in []) == {};
  }

  lemma NoneWorst(ns: seq<Node>, last: Linearizer)
    requires Sensible(last) && Scorable(ns) && ns == []
    ensures WorstChunk.Answer(ns, last, {}).None?
  {
  }

  // ---- by txid ----

  /** What W pays and weighs, and that nothing else that can leave alone pays less for its weight. */
  ghost predicate CheapestOf(v: View, W: set<Txid>, fee: nat, size: nat) {
    && W != {} && W <= v.Keys && KidClosed(v, W) && fee == FeeSum(v, W) && size == Weight(v, W) && size > 0
    && forall D: set<Txid> :: D != {} && D <= v.Keys && KidClosed(v, D) ==> fee * Weight(v, D) <= FeeSum(v, D) * size
  }

  /** The slots of some transactions. */
  ghost function SlotsOf(ns: seq<Node>, D: set<Txid>): (S: set<nat>)
    ensures forall i: nat :: i in S <==> i < |ns| && ns[i].txid in D
  {
    set i: nat | i < |ns| && ns[i].txid in D
  }

  /** Those of D among the first k nodes. */
  ghost function AmongFirst(ns: seq<Node>, D: set<Txid>, k: nat): set<Txid>
    requires k <= |ns|
  {
    D * Txids(ns[..k])
  }

  lemma AmongNext(ns: seq<Node>, D: set<Txid>, k: nat)
    requires Distinct(ns) && k < |ns|
    ensures AmongFirst(ns, D, k + 1) == AmongFirst(ns, D, k) + if ns[k].txid in D then {ns[k].txid} else {}
    ensures ns[k].txid !in AmongFirst(ns, D, k)
  {
    hide Txids;
    TxidsNext(ns, k);
  }

  lemma {:induction false} SumIsWeight(ns: seq<Node>, w: View, p: seq<int>, D: set<Txid>, k: nat)
    requires Distinct(ns) && |p| == |ns| && k <= |ns| && forall i: nat :: i < |ns| ==> ns[i].txid in w && p[i] == w[ns[i].txid].size
    ensures AmongFirst(ns, D, k) <= w.Keys && Sums.SumTo(p, SlotsOf(ns, D), k) == Weight(w, AmongFirst(ns, D, k))
  {
    hide Weight, AmongFirst, Distinct;
    if k == 0 {
      NoneAmong(ns, D);
      NoWeightIn(w);
    } else {
      SumIsWeight(ns, w, p, D, k - 1);
      AmongNext(ns, D, k - 1);
      if ns[k - 1].txid in D {
        WeightWith(w, AmongFirst(ns, D, k - 1), ns[k - 1].txid);
      } else {
        assert AmongFirst(ns, D, k) == AmongFirst(ns, D, k - 1);
      }
    }
  }

  lemma NoneAmong(ns: seq<Node>, D: set<Txid>)
    ensures AmongFirst(ns, D, 0) == {}
  {
    NoTxids(ns);
  }

  lemma NoTxids(ns: seq<Node>)
    ensures Txids(ns[..0]) == {}
  {
  }

  lemma TxidsNext(ns: seq<Node>, k: nat)
    requires Distinct(ns) && k < |ns|
    ensures Txids(ns[..k + 1]) == Txids(ns[..k]) + {ns[k].txid} && ns[k].txid !in Txids(ns[..k])
  {
    var a, b := ns[..k], ns[..k + 1];
    forall t | t in Txids(b) ensures t in Txids(a) + {ns[k].txid} {
      var i := SlotOf(b, t);
      if i < k { assert a[i].txid == t; }
    }
    forall t | t in Txids(a) ensures t in Txids(b) && t != ns[k].txid {
      var i := SlotOf(a, t);
      assert b[i].txid == t;
    }
    assert b[k].txid == ns[k].txid;
  }

  /** What transactions pay and weigh by txid is what their slots do. */
  lemma SumsByTxid(ns: seq<Node>, D: set<Txid>)
    requires Distinct(ns) && D <= ViewOf(ns).Keys
    ensures FeeOf(ns, SlotsOf(ns, D)) == FeeSum(ViewOf(ns), D) && SizeOf(ns, SlotsOf(ns, D)) == Weight(ViewOf(ns), D)
  {
    hide ViewOf, Weight;
    var v := ViewOf(ns);
    forall i: nat | i < |ns| ensures ns[i].txid in v && v[ns[i].txid].size == ns[i].size && v[ns[i].txid].fee == ns[i].fee { ViewAt(ns, i); }
    SumIsWeight(ns, v, SizesOf(ns), D, |ns|);
    SumIsWeight(ns, Priced(v), FeesOf(ns), D, |ns|);
    assert ns[..|ns|] == ns && D * Txids(ns) == D && D * v.Keys == D;
  }

  lemma ClosedSlots(ns: seq<Node>, D: set<Txid>)
    requires Distinct(ns) && D <= ViewOf(ns).Keys
    ensures LeavesAlone(ns, SlotsOf(ns, D)) <==> KidClosed(ViewOf(ns), D)
    ensures D != {} <==> SlotsOf(ns, D) != {}
  {
    hide ViewOf;
    var v, S := ViewOf(ns), SlotsOf(ns, D);
    if KidClosed(v, D) {
      forall a: nat, b: nat | a in S && b < |ns| && a in ns[b].parents ensures b in S {
        ViewAt(ns, b);
        assert Spender(v, ns[a].txid, ns[b].txid);
      }
    }
    if LeavesAlone(ns, S) {
      forall t, u | t in D && Spender(v, t, u) ensures u in D {
        var b := SlotOf(ns, u);
        ViewAt(ns, b);
        var k: nat :| k < |ns[b].parents| && 0 <= ns[b].parents[k] < |ns| && ns[ns[b].parents[k]].txid == t;
        assert ns[b].parents[k] in ns[b].parents;
        assert b in S;
      }
    }
    forall t | t in D ensures SlotOf(ns, t) in S { }
  }

  /** The worst chunk, by txid. */
  lemma LeastByTxid(ns: seq<Node>, w: Worst)
    requires Distinct(ns) && LeastPaying(ns, w)
    ensures (forall k: nat :: k < |w.slots| ==> w.slots[k] < |ns|)
    ensures CheapestOf(ViewOf(ns), IdSet(Names(ns, w.slots)), w.fee, w.size)
  {
    hide ViewOf, FeeOf, SizeOf, FeeSum, LeavesAlone, KidClosed, Weight;
    var v := ViewOf(ns);
    SlotsLive(ns, w);
    var W := IdSet(Names(ns, w.slots));
    SlotsBack(ns, w.slots, W);
    SumsByTxid(ns, W);
    ClosedSlots(ns, W);
    forall D: set<Txid> | D != {} && D <= v.Keys && KidClosed(v, D) ensures w.fee * Weight(v, D) <= FeeSum(v, D) * w.size {
      SumsByTxid(ns, D);
      ClosedSlots(ns, D);
    }
  }

  lemma SlotsLive(ns: seq<Node>, w: Worst)
    requires LeastPaying(ns, w)
    ensures forall k: nat :: k < |w.slots| ==> w.slots[k] < |ns|
  {
    forall k: nat | k < |w.slots| ensures w.slots[k] < |ns| { assert w.slots[k] in SetOf(w.slots); }
  }

  lemma SlotsBack(ns: seq<Node>, slots: seq<nat>, W: set<Txid>)
    requires Distinct(ns) && (forall k: nat :: k < |slots| ==> slots[k] < |ns|) && W == IdSet(Names(ns, slots))
    ensures SlotsOf(ns, W) == SetOf(slots) && W <= ViewOf(ns).Keys
  {
    hide ViewOf;
    var ids := Names(ns, slots);
    forall i: nat | i in SlotsOf(ns, W) ensures i in SetOf(slots) {
      var k: nat :| k < |ids| && ids[k] == ns[i].txid;
      Differ(ns, slots[k], i);
    }
    forall i: nat | i in SetOf(slots) ensures i in SlotsOf(ns, W) {
      var k: nat :| k < |slots| && slots[k] == i;
      assert ids[k] in ids;
    }
    forall t | t in W ensures t in Txids(ns) { var k: nat :| k < |ids| && ids[k] == t; }
  }
}
