/** The worst chunk of every cluster, kept at its members: when what is kept is what a fresh walk would find. */
module ChunkCache {
  import opened Bytes
  import opened PoolViews
  import opened Marking
  import opened ClusterOrder

  /** What the linearizer is handed of a member: its place in the list stands for its slot. */
  datatype Item = Item(txid: Txid, size: nat, fee: nat, parents: set<nat>)

  /** A cluster's last chunk: what it pays and weighs, and who is in it, by their places. */
  datatype Chunk = Chunk(fee: nat, size: nat, places: seq<nat>)

  type Linearizer = seq<Item> -> Option<Chunk>

  function Live(refs: seq<int>, n: nat): (r: seq<nat>)
    ensures forall x: nat :: x in r <==> x < n && x in refs
    decreases |refs|
  {
    if refs == [] then []
    else
      var p := refs[|refs| - 1];
      assert refs == refs[..|refs| - 1] + [p];
      if 0 <= p < n then Live(refs[..|refs| - 1], n) + [p] else Live(refs[..|refs| - 1], n)
  }

  /** The slots below n that have a for a parent, the highest first. */
  function KidsFrom(ns: seq<Node>, a: nat, n: nat): (r: seq<nat>)
    requires n <= |ns|
    ensures forall x: nat :: x in r <==> x < n && a in ns[x].parents
    ensures forall i: nat, j: nat :: i < j < |r| ==> r[i] > r[j]
  {
    if n == 0 then []
    else
      var rest := KidsFrom(ns, a, n - 1);
      assert forall j: nat :: j < |rest| ==> rest[j] in rest;
      if a in ns[n - 1].parents then [n - 1] + rest else rest
  }

  /** The neighbours of a slot in the order a walk meets them: its parents as listed, then its children. */
  function Near(ns: seq<Node>, a: nat): (r: seq<nat>)
    requires a < |ns|
    ensures forall x: nat :: x in r <==> x < |ns| && (x in ns[a].parents || a in ns[x].parents)
  {
    Live(ns[a].parents, |ns|) + KidsFrom(ns, a, |ns|)
  }

  function Adj(ns: seq<Node>): (r: seq<seq<nat>>)
    ensures |r| == |ns| && forall a: nat :: a < |ns| ==> r[a] == Near(ns, a)
  {
    seq(|ns|, a requires 0 <= a < |ns| => Near(ns, a))
  }

  lemma AdjFits(ns: seq<Node>)
    ensures KidsFit(Adj(ns))
    ensures forall a: nat, b: nat {:trigger b in Adj(ns)[a]} :: a < |ns| && b < |ns| ==> (b in Adj(ns)[a] <==> a in Adj(ns)[b])
  {
  }

  /** The slots of a cluster. */
  ghost function Comp(ns: seq<Node>, i: nat): (r: set<nat>)
    ensures forall a :: a in r ==> a < |ns|
  {
    Marking.Below(Adj(ns), {i})
  }

  lemma CompIs(ns: seq<Node>, i: nat)
    requires i < |ns|
    ensures i in Comp(ns, i) && DownClosed(Adj(ns), Comp(ns, i))
  {
    var adj, K := Adj(ns), Comp(ns, i);
    forall p: nat, c: nat | p < |adj| && p in K && c in adj[p] ensures c in K {
      AdjFits(ns);
      forall C: set<nat> | {i} <= C && DownClosed(adj, C) ensures c in C { assert p in C; }
    }
  }

  /** A cluster is the same from any of its members. */
  lemma SameComp(ns: seq<Node>, i: nat, j: nat)
    requires i < |ns| && j in Comp(ns, i)
    ensures Comp(ns, j) == Comp(ns, i)
  {
    var adj := Adj(ns);
    CompIs(ns, i); CompIs(ns, j);
    assert Comp(ns, j) <= Comp(ns, i);
    assert i in Comp(ns, j) by {
      AdjFits(ns);
      var D := Comp(ns, i) - Comp(ns, j);
      assert DownClosed(adj, D);
      assert {i} <= D ==> j in D;
    }
    assert Comp(ns, i) <= Comp(ns, j);
  }

  ghost function Least(K: set<nat>): (m: nat)
    requires K != {}
    ensures m in K && forall a: nat :: a in K ==> m <= a
    decreases |K|
  {
    var x :| x in K;
    if K - {x} == {} then assert K == {x}; x
    else
      var m := Least(K - {x});
      assert forall a: nat :: a in K ==> a == x || a in K - {x};
      if m < x then m else x
  }

  function Picture(ns: seq<Node>, mem: seq<nat>): (r: seq<Item>)
    requires forall k: nat :: k < |mem| ==> mem[k] < |ns|
  {
    seq(|mem|, m requires 0 <= m < |mem| =>
      Item(ns[mem[m]].txid, ns[mem[m]].size, ns[mem[m]].fee, set k: nat | k < |mem| && mem[k] in ns[mem[m]].parents))
  }

  /** A cluster's members from its lowest slot, in walk order. */
  ghost function Listed(ns: seq<Node>, i: nat): (mem: seq<nat>)
    requires i < |ns|
    ensures SetOf(mem) == Comp(ns, i) && Apart(mem) && forall k: nat :: k < |mem| ==> mem[k] < |ns|
  {
    CompIs(ns, i);
    AdjFits(ns);
    var s := Least(Comp(ns, i));
    MembersAre(Adj(ns), s);
    SameComp(ns, i, s);
    var mem := Members(Adj(ns), s);
    assert forall k: nat :: k < |mem| ==> mem[k] in SetOf(mem);
    mem
  }

  ghost function LastOf(ns: seq<Node>, last: Linearizer, i: nat): Option<Chunk>
    requires i < |ns|
  {
    var mem := Listed(ns, i);
    last(Picture(ns, mem))
  }

  /** The slots of a chunk. */
  predicate InChunk(mem: seq<nat>, c: Chunk, j: nat) {
    exists q: nat :: q < |c.places| && c.places[q] < |mem| && mem[c.places[q]] == j
  }

  /** What a member of a cluster is to keep. */
  function Keeps(cid: nat, r: Option<Chunk>, mem: seq<nat>, j: nat): Cache {
    if r.None? then Fresh(cid, None, false) else Fresh(cid, Some((r.value.fee, r.value.size)), InChunk(mem, r.value, j))
  }

  ghost predicate Settled(ns: seq<Node>, i: nat)
    requires i < |ns|
  {
    forall j :: j in Comp(ns, i) ==> ns[j].ck.Fresh?
  }

  /** Every member keeps what a fresh walk would find. */
  ghost predicate TrueAt(ns: seq<Node>, last: Linearizer, i: nat)
    requires i < |ns|
  {
    && ns[i].ck.Fresh?
    && forall j :: j in Comp(ns, i) ==> ns[j].ck == Keeps(ns[i].ck.cid, LastOf(ns, last, i), Listed(ns, i), j)
  }

  ghost predicate SameId(ns: seq<Node>, i: nat, j: nat)
    requires i < |ns| && j < |ns|
  {
    Settled(ns, i) && Settled(ns, j) && ns[i].ck.Fresh? && ns[j].ck.Fresh? && ns[i].ck.cid == ns[j].ck.cid
  }

  /** A cluster without a stale member keeps the truth, and has an id of its own. */
  ghost predicate CacheOk(ns: seq<Node>, last: Linearizer, top: nat) {
    && (forall i: nat :: i < |ns| && Settled(ns, i) ==> TrueAt(ns, last, i))
    && (forall i: nat, j: nat :: i < |ns| && j < |ns| && SameId(ns, i, j) ==> Comp(ns, i) == Comp(ns, j))
    && (forall i: nat :: i < |ns| && ns[i].ck.Fresh? ==> ns[i].ck.cid <= top)
  }
}
