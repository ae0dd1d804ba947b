/** The worst chunk of the pool: by walking every cluster, and from what the nodes keep. The answers are the same. */
module WorstChunk {
  import opened Bytes
  import opened PoolViews
  import opened Marking
  import opened ClusterOrder
  import opened ChunkCache
  import Sums

  const CLUSTER_MAX := 64

  /** Only what is kept about chunks differs. */
  ghost predicate CkOnly(ns: seq<Node>, ms: seq<Node>) {
    |ns| == |ms| && forall i: nat :: i < |ns| ==> ms[i] == ns[i].(ck := ms[i].ck)
  }

  lemma {:induction false} KidsCkOnly(ns: seq<Node>, ms: seq<Node>, a: nat, n: nat)
    requires CkOnly(ns, ms) && n <= |ns|
    ensures KidsFrom(ns, a, n) == KidsFrom(ms, a, n)
  {
    if n > 0 {
      KidsCkOnly(ns, ms, a, n - 1);
      assert ms[n - 1].parents == ns[n - 1].parents;
    }
  }

  lemma AdjCkOnly(ns: seq<Node>, ms: seq<Node>)
    requires CkOnly(ns, ms)
    ensures Adj(ns) == Adj(ms)
  {
    hide Live, KidsFrom;
    forall a: nat | a < |ns| ensures Near(ns, a) == Near(ms, a) {
      assert ms[a].parents == ns[a].parents;
      KidsCkOnly(ns, ms, a, |ns|);
    }
  }

  /** Clusters, their order and their chunks do not depend on what is kept. */
  lemma SameClusters(ns: seq<Node>, ms: seq<Node>, last: Linearizer, i: nat)
    requires CkOnly(ns, ms) && i < |ns|
    ensures Comp(ns, i) == Comp(ms, i) && Listed(ns, i) == Listed(ms, i) && LastOf(ns, last, i) == LastOf(ms, last, i)
  {
    hide Members, Adj;
    AdjCkOnly(ns, ms);
    var mem := Listed(ns, i);
    assert Picture(ns, mem) == Picture(ms, mem);
  }

  /** A walk never meets its tables' bounds in a cluster that fits them. */
  lemma WalkFits(adj: seq<seq<nat>>, s: nat, out: seq<nat>, stack: seq<nat>, mark: set<nat>)
    requires Going(adj, s, out, stack, mark) && s < |adj| && |Marking.Below(adj, {s})| <= CLUSTER_MAX
    ensures |out| + |stack| <= CLUSTER_MAX
  {
    hide Walking;
    assert mark <= Marking.Below(adj, {s});
    Sums.SubsetSize(mark, Marking.Below(adj, {s}));
    ApartSize(out + stack);
  }

  lemma {:induction false} ApartSize(s: seq<nat>)
    requires Apart(s)
    ensures |SetOf(s)| == |s|
    decreases |s|
  {
    if s != [] {
      var r, z := s[..|s| - 1], s[|s| - 1];
      ApartSize(r);
      assert s == r + [z];
      assert SetOf(s) == SetOf(r) + {z};
    }
  }

  /** The neighbours of a slot pushed, those not yet marked. */
  method PushAll(ys: seq<nat>, stack0: seq<nat>, mark0: set<nat>) returns (stack: seq<nat>, mark: set<nat>)
    ensures (stack, mark) == PushNew(ys, stack0, mark0)
  {
    stack, mark := stack0, mark0;
    for k := 0 to |ys|
      invariant (stack, mark) == PushNew(ys[..k], stack0, mark0)
    {
      assert ys[..k + 1][..k] == ys[..k];
      if ys[k] !in mark {
        stack, mark := stack + [ys[k]], mark + {ys[k]};
      }
    }
    assert ys[..|ys|] == ys;
  }

  /** A cluster's members by a walk from one of them; the tables have room for all. */
  method Gather(adj: seq<seq<nat>>, s: nat) returns (mem: seq<nat>)
    requires KidsFit(adj) && s < |adj| && |Marking.Below(adj, {s})| <= CLUSTER_MAX
    ensures mem == Members(adj, s) && |mem| <= CLUSTER_MAX
  {
    hide Going, PushNew, Only, Walking;
    mem := [];
    var stack, mark := [s], {s};
    StartGoing(adj, s);
    while |stack| > 0
      invariant Going(adj, s, mem, stack, mark) && Ready(adj, stack, mark) && Members(adj, s) == Walk(adj, mem, stack, mark)
      decreases 2 * |Sums.Below(|adj|) - mark| + |stack|
    {
      WalkFits(adj, s, mem, stack, mark);
      assert |mem| < CLUSTER_MAX;
      var cur := stack[|stack| - 1];
      StepReady(adj, stack, mark);
      StepGoing(adj, s, mem, stack, mark);
      mem := mem + [cur];
      stack, mark := PushAll(adj[cur], stack[..|stack| - 1], mark);
    }
    WalkFits(adj, s, mem, stack, mark);
  }

  /** Chunks name places of the list they were made from, and weigh something when their members do. */
  ghost predicate Sensible(last: Linearizer) {
    forall q: seq<Item> :: last(q).Some? ==>
      && (forall k: nat :: k < |last(q).value.places| ==> last(q).value.places[k] < |q|)
      && ((forall k: nat :: k < |q| ==> q[k].size > 0) ==> last(q).value.size > 0)
  }

  /** A pool whose clusters fit the tables and whose transactions all weigh something. */
  ghost predicate Scorable(ns: seq<Node>) {
    forall i: nat :: i < |ns| ==> |Comp(ns, i)| <= CLUSTER_MAX && ns[i].size > 0
  }

  /** Pays less for its weight. */
  predicate Worse(c: Chunk, b: Chunk) {
    c.fee * b.size < b.fee * c.size
  }

  ghost predicate Excluded(ns: seq<Node>, last: Linearizer, excl: set<Txid>, i: nat)
    requires i < |ns| && LastOf(ns, last, i).Some?
  {
    exists j: nat :: j < |ns| && InChunk(Listed(ns, i), LastOf(ns, last, i).value, j) && ns[j].txid in excl
  }

  /** A cluster's chunk, if it has one and nothing of it is about to leave. */
  ghost predicate Counts(ns: seq<Node>, last: Linearizer, excl: set<Txid>, i: nat)
    requires i < |ns|
  {
    LastOf(ns, last, i).Some? && !Excluded(ns, last, excl, i)
  }

  ghost predicate First(ns: seq<Node>, i: nat)
    requires i < |ns|
  {
    i in Comp(ns, i) && forall j: nat :: j in Comp(ns, i) ==> i <= j
  }

  /** The first strictly worst cluster, by its lowest slot, among those whose lowest slot is below n. */
  ghost function Best(ns: seq<Node>, last: Linearizer, excl: set<Txid>, n: nat): (r: Option<nat>)
    requires n <= |ns|
    ensures r.Some? ==> r.value < n && First(ns, r.value) && Counts(ns, last, excl, r.value)
  {
    if n == 0 then None
    else
      var b := Best(ns, last, excl, n - 1);
      if First(ns, n - 1) && Counts(ns, last, excl, n - 1)
         && (b.None? || Worse(LastOf(ns, last, n - 1).value, LastOf(ns, last, b.value).value))
      then Some(n - 1) else b
  }

  lemma WorseChain(m: Chunk, b: Chunk, c: Chunk)
    requires !Worse(m, b) && Worse(c, b) && b.size > 0
    ensures !Worse(m, c)
  {
    var mf, ms, bf, bs, cf, cs := m.fee, m.size, b.fee, b.size, c.fee, c.size;
    Scale(bf * ms, mf * bs, cs);
    Scale(cf * bs, bf * cs, ms);
    assert (cf * ms) * bs == (cf * bs) * ms && (bf * ms) * cs == (bf * cs) * ms && (mf * bs) * cs == (mf * cs) * bs by {
      Swap(cf, ms, bs); Swap(bf, ms, cs); Swap(mf, bs, cs);
    }
    Unscale(cf * ms, mf * cs, bs);
  }

  lemma Swap(a: nat, b: nat, c: nat)
    ensures (a * b) * c == (a * c) * b
  {
  }

  lemma Scale(a: nat, b: nat, c: nat)
    requires a <= b
    ensures a * c <= b * c
  {
  }

  lemma Unscale(a: nat, b: nat, c: nat)
    requires a * c <= b * c && c > 0
    ensures a <= b
  {
  }

  lemma Weighs(ns: seq<Node>, last: Linearizer, i: nat)
    requires Sensible(last) && Scorable(ns) && i < |ns| && LastOf(ns, last, i).Some?
    ensures LastOf(ns, last, i).value.size > 0
    ensures forall k: nat :: k < |LastOf(ns, last, i).value.places| ==> LastOf(ns, last, i).value.places[k] < |Listed(ns, i)|
  {
    hide Listed, Comp;
    var q := Picture(ns, Listed(ns, i));
    assert forall k: nat :: k < |q| ==> q[k].size > 0;
  }

  /** No cluster that counts is worse than the best so far. */
  lemma {:induction false} BestCovers(ns: seq<Node>, last: Linearizer, excl: set<Txid>, n: nat, m: nat)
    requires Sensible(last) && Scorable(ns) && m < n <= |ns| && First(ns, m) && Counts(ns, last, excl, m)
    ensures Best(ns, last, excl, n).Some?
    ensures !Worse(LastOf(ns, last, m).value, LastOf(ns, last, Best(ns, last, excl, n).value).value)
    decreases n
  {
    hide First, Excluded, LastOf, Sensible, Scorable;
    if m < n - 1 {
      BestCovers(ns, last, excl, n - 1, m);
      var b := Best(ns, last, excl, n - 1).value;
      Weighs(ns, last, b);
      if Best(ns, last, excl, n) == Some(n - 1) {
        WorseChain(LastOf(ns, last, m).value, LastOf(ns, last, b).value, LastOf(ns, last, n - 1).value);
      }
    }
  }

  /** A chunk as the evictor is handed it: the slots, what they pay, what they weigh. */
  datatype Worst = Worst(slots: seq<nat>, fee: nat, size: nat)

  function ChunkSlots(mem: seq<nat>, c: Chunk): (r: seq<nat>)
    requires forall k: nat :: k < |c.places| ==> c.places[k] < |mem|
    ensures |r| == |c.places| && forall k: nat :: k < |r| ==> r[k] == mem[c.places[k]]
  {
    seq(|c.places|, k requires 0 <= k < |c.places| => mem[c.places[k]])
  }

  function Named(mem: seq<nat>, c: Chunk): Worst
    requires forall k: nat :: k < |c.places| ==> c.places[k] < |mem|
  {
    Worst(ChunkSlots(mem, c), c.fee, c.size)
  }

  ghost function AnswerOf(ns: seq<Node>, last: Linearizer, b: Option<nat>): Option<Worst>
    requires Sensible(last) && Scorable(ns) && (b.Some? ==> b.value < |ns| && LastOf(ns, last, b.value).Some?)
  {
    if b.None? then None
    else
      Weighs(ns, last, b.value);
      Some(Named(Listed(ns, b.value), LastOf(ns, last, b.value).value))
  }

  /** The worst chunk of the pool: what a full walk finds. */
  ghost function Answer(ns: seq<Node>, last: Linearizer, excl: set<Txid>): Option<Worst>
    requires Sensible(last) && Scorable(ns)
  {
    AnswerOf(ns, last, Best(ns, last, excl, |ns|))
  }

  /** Nothing that is about to leave is in the worst chunk. */
  lemma AnswerSpares(ns: seq<Node>, last: Linearizer, excl: set<Txid>, k: nat)
    requires Sensible(last) && Scorable(ns) && Answer(ns, last, excl).Some? && k < |Answer(ns, last, excl).value.slots|
    ensures Answer(ns, last, excl).value.slots[k] < |ns| ==> ns[Answer(ns, last, excl).value.slots[k]].txid !in excl
  {
    hide Listed, Sensible, Scorable, First;
    var b := Best(ns, last, excl, |ns|).value;
    Weighs(ns, last, b);
    var mem, c := Listed(ns, b), LastOf(ns, last, b).value;
    var j := mem[c.places[k]];
    assert InChunk(mem, c, j);
  }

  /** The clusters of the first i slots, and nothing else, have been seen. */
  ghost predicate Visited(ns: seq<Node>, seen: set<nat>, i: nat)
    requires i <= |ns|
  {
    && (forall x: nat, j: nat :: j < i && x in Comp(ns, j) ==> x in seen)
    && (forall x: nat :: x in seen ==> SeenFrom(ns, i, x))
  }

  ghost predicate SeenFrom(ns: seq<Node>, i: nat, x: nat)
    requires i <= |ns|
  {
    exists j: nat :: j < i && x in Comp(ns, j)
  }

  /** A slot not seen is the lowest of its cluster. */
  lemma FirstUnseen(ns: seq<Node>, seen: set<nat>, i: nat)
    requires i < |ns| && Visited(ns, seen, i)
    ensures i !in seen <==> First(ns, i)
  {
    CompIs(ns, i);
    if i in seen {
      assert SeenFrom(ns, i, i);
      var j: nat :| j < i && i in Comp(ns, j);
      SameComp(ns, j, i);
      CompIs(ns, j);
    } else {
      forall j: nat | j in Comp(ns, i) ensures i <= j {
        SameComp(ns, i, j);
        assert i in Comp(ns, j);
      }
    }
  }

  lemma VisitNext(ns: seq<Node>, seen: set<nat>, i: nat)
    requires i < |ns| && Visited(ns, seen, i)
    ensures i in seen ==> Visited(ns, seen, i + 1)
    ensures Visited(ns, seen + Comp(ns, i), i + 1)
  {
    hide Comp;
    forall x: nat | x in seen + Comp(ns, i) ensures SeenFrom(ns, i + 1, x) {
      if x in seen {
        assert SeenFrom(ns, i, x);
        var j: nat :| j < i && x in Comp(ns, j);
      }
    }
    if i in seen {
      assert SeenFrom(ns, i, i);
      var j: nat :| j < i && i in Comp(ns, j);
      SameComp(ns, j, i);
      assert seen + Comp(ns, i) == seen;
    }
  }

  lemma FirstListed(ns: seq<Node>, i: nat)
    requires i < |ns| && First(ns, i)
    ensures KidsFit(Adj(ns)) && Listed(ns, i) == Members(Adj(ns), i)
  {
    AdjFits(ns);
    assert Least(Comp(ns, i)) == i;
  }

  /** Does a chunk hold one of those about to leave? */
  method Hits(ns: seq<Node>, mem: seq<nat>, c: Chunk, excl: seq<Txid>) returns (hit: bool)
    requires (forall k: nat :: k < |mem| ==> mem[k] < |ns|) && forall k: nat :: k < |c.places| ==> c.places[k] < |mem|
    ensures hit <==> exists j: nat :: j < |ns| && InChunk(mem, c, j) && ns[j].txid in set t | t in excl
  {
    hit := false;
    for q := 0 to |c.places|
      invariant !hit && forall k: nat :: k < q ==> ns[mem[c.places[k]]].txid !in excl
    {
      if ns[mem[c.places[q]]].txid in excl {
        assert InChunk(mem, c, mem[c.places[q]]);
        return true;
      }
    }
  }

  /** One cluster walked from its lowest slot: its members, and its chunk if that counts. */
  method Score(ns: seq<Node>, adj: seq<seq<nat>>, last: Linearizer, excl: seq<Txid>, i: nat) returns (mem: seq<nat>, c: Option<Chunk>)
    requires adj == Adj(ns) && Sensible(last) && Scorable(ns) && i < |ns| && First(ns, i)
    ensures mem == Listed(ns, i) && SetOf(mem) == Comp(ns, i)
    ensures c.Some? <==> Counts(ns, last, (set t | t in excl), i)
    ensures c.Some? ==> c == LastOf(ns, last, i) && forall k: nat :: k < |c.value.places| ==> c.value.places[k] < |mem|
  {
    hide Adj, Comp, Listed, LastOf, First, Sensible, Scorable, Excluded, Picture, InChunk;
    FirstListed(ns, i);
    FitsTables(ns, i);
    mem := Gather(adj, i);
    ListedIs(ns, i);
    c := last(Picture(ns, mem));
    LastIs(ns, last, i);
    if c.Some? {
      Weighs(ns, last, i);
      var hit := Hits(ns, mem, c.value, excl);
      ExcludedIs(ns, last, (set t | t in excl), i);
      if hit { c := None; }
    }
  }

  /** The worst chunk by walking every cluster once, from its lowest slot. */
  method ScanWorst(ns: seq<Node>, last: Linearizer, excl: seq<Txid>) returns (r: Option<Worst>)
    requires Sensible(last) && Scorable(ns)
    ensures r == Answer(ns, last, set t | t in excl)
  {
    hide Adj, Comp, Listed, LastOf, First, Sensible, Scorable, Visited, Excluded;
    var adj := Adj(ns);
    var seen: set<nat> := {};
    r := None;
    ghost var E := set t | t in excl;
    NothingVisited(ns);
    for i := 0 to |ns|
      invariant Visited(ns, seen, i)
      invariant r == AnswerOf(ns, last, Best(ns, last, E, i))
    {
      FirstUnseen(ns, seen, i);
      VisitNext(ns, seen, i);
      if i !in seen {
        var mem, c := Score(ns, adj, last, excl, i);
        seen := seen + SetOf(mem);
        if c.Some? && (r.None? || c.value.fee * r.value.size < r.value.fee * c.value.size) {
          r := Some(Named(mem, c.value));
        }
      }
    }
  }

  lemma NothingVisited(ns: seq<Node>)
    ensures Visited(ns, {}, 0)
  {
  }

  lemma FitsTables(ns: seq<Node>, i: nat)
    requires Scorable(ns) && i < |ns|
    ensures |Marking.Below(Adj(ns), {i})| <= CLUSTER_MAX
  {
    assert |Comp(ns, i)| <= CLUSTER_MAX;
  }

  lemma ListedIs(ns: seq<Node>, i: nat)
    requires i < |ns|
    ensures SetOf(Listed(ns, i)) == Comp(ns, i) && forall k: nat :: k < |Listed(ns, i)| ==> Listed(ns, i)[k] < |ns|
  {
  }

  lemma LastIs(ns: seq<Node>, last: Linearizer, i: nat)
    requires i < |ns|
    ensures LastOf(ns, last, i) == last(Picture(ns, Listed(ns, i)))
  {
  }

  lemma ExcludedIs(ns: seq<Node>, last: Linearizer, excl: set<Txid>, i: nat)
    requires i < |ns| && LastOf(ns, last, i).Some?
    ensures Excluded(ns, last, excl, i) <==>
      exists j: nat :: j < |ns| && InChunk(Listed(ns, i), LastOf(ns, last, i).value, j) && ns[j].txid in excl
  {
  }
}
