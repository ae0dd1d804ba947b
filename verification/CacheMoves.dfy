/** Nodes move, leave and come in: what the caches still say is still true. */
module CacheMoves {
  import opened ChainTable
  import opened PoolViews
  import opened PoolAncestors
  import opened NodeRemoval
  import opened BatchRemoval
  import opened Marking
  import opened ClusterOrder
  import opened ChunkCache

  ghost predicate SameNode(a: Node, b: Node) {
    a.txid == b.txid && a.size == b.size && a.fee == b.fee && a.ck == b.ck
  }

  ghost predicate Rising(from: seq<nat>, K: set<nat>) {
    forall i: nat, j: nat :: i in K && j in K && i < j ==> At(from, i) < At(from, j)
  }

  /** A closed part K of a table that is found, renamed but in the same order, in another. */
  ghost predicate Carried(rs: seq<Node>, ns: seq<Node>, from: seq<nat>, K: set<nat>) {
    && Renames(Adj(rs), Adj(ns), from, K)
    && Rising(from, K)
    && (forall a: nat :: a in K ==> At(from, a) < |ns| && SameNode(rs[a], ns[At(from, a)]))
    && (forall a: nat, b: nat :: a in K && b in K ==> (b in rs[a].parents <==> At(from, b) in ns[At(from, a)].parents))
  }

  lemma ImageClosed(rs: seq<Node>, ns: seq<Node>, from: seq<nat>, K: set<nat>)
    requires Carried(rs, ns, from, K)
    ensures DownClosed(Adj(ns), ViaSet(from, K))
  {
    hide Adj;
    var adj, bdj, B := Adj(rs), Adj(ns), ViaSet(from, K);
    forall p: nat, c: nat | p < |bdj| && p in B && c in bdj[p] ensures c in B {
      var a :| a in K && At(from, a) == p;
      var k: nat :| k < |bdj[p]| && bdj[p][k] == c;
      assert bdj[p] == Via(from, adj[a]);
      assert adj[a][k] in adj[a];
      assert At(from, adj[a][k]) == c;
    }
  }

  lemma ImageWithin(rs: seq<Node>, ns: seq<Node>, from: seq<nat>, K: set<nat>, i: nat, C: set<nat>)
    requires Carried(rs, ns, from, K) && i in K && K == Comp(rs, i) && At(from, i) in C && DownClosed(Adj(ns), C)
    ensures ViaSet(from, K) <= C
  {
    hide Adj;
    PreimageClosed(rs, ns, from, K, C);
    var D := set a | a in K && At(from, a) in C;
    assert {i} <= D;
    forall b | b in ViaSet(from, K) ensures b in C {
      var a :| a in K && At(from, a) == b;
      assert Under(Adj(rs), {i}, a);
      assert a in D;
    }
  }

  lemma ImageIsComp(rs: seq<Node>, ns: seq<Node>, from: seq<nat>, K: set<nat>, i: nat)
    requires Carried(rs, ns, from, K) && i < |rs| && K == Comp(rs, i)
    ensures i in K && At(from, i) < |ns| && Comp(ns, At(from, i)) == ViaSet(from, K)
  {
    hide Renames, DownClosed;
    CompIs(rs, i);
    ImageClosed(rs, ns, from, K);
    forall C: set<nat> | {At(from, i)} <= C && DownClosed(Adj(ns), C) ensures ViaSet(from, K) <= C {
      ImageWithin(rs, ns, from, K, i, C);
    }
    BelowLeast(Adj(ns), {At(from, i)}, ViaSet(from, K));
  }

  lemma PreimageClosed(rs: seq<Node>, ns: seq<Node>, from: seq<nat>, K: set<nat>, C: set<nat>)
    requires Carried(rs, ns, from, K) && DownClosed(Adj(ns), C)
    ensures DownClosed(Adj(rs), set a | a in K && At(from, a) in C)
  {
    var adj, bdj := Adj(rs), Adj(ns);
    var D := set a | a in K && At(from, a) in C;
    forall p: nat, c: nat | p < |adj| && p in D && c in adj[p] ensures c in D {
      assert AllIn(adj[p], K) && bdj[At(from, p)] == Via(from, adj[p]);
      var k: nat :| k < |adj[p]| && adj[p][k] == c;
      assert Via(from, adj[p])[k] == At(from, c);
      assert At(from, c) in bdj[At(from, p)];
    }
  }

  lemma PictureCarried(rs: seq<Node>, ns: seq<Node>, from: seq<nat>, K: set<nat>, mem: seq<nat>)
    requires Carried(rs, ns, from, K) && AllIn(mem, K) && forall k: nat :: k < |mem| ==> mem[k] < |rs|
    ensures forall k: nat :: k < |mem| ==> Via(from, mem)[k] < |ns|
    ensures Picture(ns, Via(from, mem)) == Picture(rs, mem)
  {
    hide Renames;
    var wem := Via(from, mem);
    forall k: nat | k < |mem| ensures wem[k] < |ns| { assert mem[k] in mem; }
    var p, q := Picture(ns, wem), Picture(rs, mem);
    forall m: nat | m < |mem| ensures p[m] == q[m] {
      assert mem[m] in mem && mem[m] in K;
      assert SameNode(rs[mem[m]], ns[At(from, mem[m])]);
      forall k: nat | k < |mem| ensures mem[k] in rs[mem[m]].parents <==> wem[k] in ns[wem[m]].parents {
        assert mem[k] in mem && mem[k] in K;
      }
      assert p[m].parents == q[m].parents;
    }
    assert p == q;
  }

  lemma LeastCarried(from: seq<nat>, K: set<nat>)
    requires K != {} && Rising(from, K)
    ensures ViaSet(from, K) != {} && Least(ViaSet(from, K)) == At(from, Least(K))
  {
    var m := Least(K);
    assert At(from, m) in ViaSet(from, K);
    forall b | b in ViaSet(from, K) ensures At(from, m) <= b {
      var a :| a in K && At(from, a) == b;
    }
  }

  /** A carried cluster is listed in the same order. */
  lemma ListedCarried(rs: seq<Node>, ns: seq<Node>, from: seq<nat>, K: set<nat>, i: nat)
    requires Carried(rs, ns, from, K) && i < |rs| && K == Comp(rs, i)
    ensures At(from, i) < |ns| && Listed(ns, At(from, i)) == Via(from, Listed(rs, i)) && AllIn(Listed(rs, i), K)
  {
    hide Renames;
    ImageIsComp(rs, ns, from, K, i);
    LeastCarried(from, K);
    MembersRename(Adj(rs), Adj(ns), from, K, Least(K));
  }

  lemma InChunkCarried(from: seq<nat>, K: set<nat>, mem: seq<nat>, c: Chunk, j: nat)
    requires OneToOne(from, K) && AllIn(mem, K) && j in K
    ensures InChunk(Via(from, mem), c, At(from, j)) <==> InChunk(mem, c, j)
  {
    forall q: nat | q < |c.places| && c.places[q] < |mem| ensures Via(from, mem)[c.places[q]] == At(from, j) <==> mem[c.places[q]] == j {
      assert mem[c.places[q]] in mem;
    }
  }

  /** What is true of a cluster is true of it where it was carried from. */
  lemma TrueCarried(rs: seq<Node>, ns: seq<Node>, last: Linearizer, from: seq<nat>, K: set<nat>, i: nat)
    requires Carried(rs, ns, from, K) && i < |rs| && K == Comp(rs, i)
    requires At(from, i) < |ns| && TrueAt(ns, last, At(from, i))
    ensures TrueAt(rs, last, i)
  {
    hide Renames, Listed, Comp, Picture, InChunk;
    ImageIsComp(rs, ns, from, K, i);
    ListedCarried(rs, ns, from, K, i);
    var mem := Listed(rs, i);
    PictureCarried(rs, ns, from, K, mem);
    CarriedApart(rs, ns, from, K);
    assert LastOf(rs, last, i) == LastOf(ns, last, At(from, i));
    var r := LastOf(rs, last, i);
    forall j | j in K ensures rs[j].ck == Keeps(rs[i].ck.cid, r, mem, j) {
      assert At(from, j) in Comp(ns, At(from, i));
      if r.Some? { InChunkCarried(from, K, mem, r.value, j); }
    }
  }

  lemma CarriedApart(rs: seq<Node>, ns: seq<Node>, from: seq<nat>, K: set<nat>)
    requires Carried(rs, ns, from, K)
    ensures OneToOne(from, K)
  {
  }

  /** The nodes at from[..] moved, and every one that has lost a neighbour, or its place in the order, gone stale. */
  ghost predicate StaleMove(ns: seq<Node>, rs: seq<Node>, from: seq<nat>) {
    && Moved(ns, rs, from) && RefsOk(ns) && RefsOk(rs)
    && (forall j: nat :: j < |rs| && rs[j].ck.Fresh? ==> rs[j].ck == ns[from[j]].ck && Unhurt(ns, from, from[j]))
    && (forall i: nat, j: nat :: i < j < |rs| && rs[i].ck.Fresh? && rs[j].ck.Fresh? ==> from[i] < from[j])
  }

  /** No neighbour of slot p has left. */
  ghost predicate Unhurt(ns: seq<Node>, from: seq<nat>, p: nat)
    requires p < |ns|
  {
    forall g: nat :: g < |ns| && (g in ns[p].parents || p in ns[g].parents) ==> g in from
  }

  lemma ParentMoved(ns: seq<Node>, rs: seq<Node>, from: seq<nat>, x: nat, a: nat)
    requires Moved(ns, rs, from) && x < |rs| && a < |rs|
    ensures a in rs[x].parents <==> from[a] in ns[from[x]].parents
  {
    assert NodeMoved(ns[from[x]], rs[x], from, |ns|);
    var p, q := ns[from[x]].parents, rs[x].parents;
    if a in q {
      var k: nat :| k < |q| && q[k] == a;
      assert RefMoved(p[k], q[k], from, |ns|);
    }
    if from[a] in p {
      var k: nat :| k < |p| && p[k] == from[a];
      assert RefMoved(p[k], q[k], from, |ns|);
      assert q[k] == a;
    }
  }

  lemma {:induction false} LiveMoved(p: seq<int>, q: seq<int>, from: seq<nat>, n: nat)
    requires |p| == |q| && forall k: nat :: k < |p| ==> RefMoved(p[k], q[k], from, n) && (0 <= p[k] < n ==> p[k] in from)
    ensures Live(p, n) == Via(from, Live(q, |from|))
    decreases |p|
  {
    if p != [] {
      var k := |p| - 1;
      LiveMoved(p[..k], q[..k], from, n);
      assert RefMoved(p[k], q[k], from, n);
      var L := Live(q[..k], |from|);
      if 0 <= p[k] < n { ViaWith(from, L, q[k]); }
    }
  }

  ghost predicate Falling(s: seq<nat>) {
    forall i: nat, j: nat :: i < j < |s| ==> s[i] > s[j]
  }

  /** Two falling lists of the same numbers are the same list. */
  lemma {:induction false} FallingSame(s: seq<nat>, t: seq<nat>)
    requires Falling(s) && Falling(t) && forall x: nat :: x in s <==> x in t
    ensures s == t
    decreases |s|
  {
    if s == [] {
      HeadIn(t);
    } else {
      assert s[0] in t && t != [];
      FirstIsMost(s, t[0]); FirstIsMost(t, s[0]);
      assert s[0] == t[0];
      RestOf(s); RestOf(t);
      FallingSame(s[1..], t[1..]);
    }
  }

  lemma HeadIn(t: seq<nat>)
    ensures t == [] || t[0] in t
  {
  }

  lemma FirstIsMost(s: seq<nat>, x: nat)
    requires Falling(s) && x in s
    ensures s[0] >= x
  {
  }

  lemma RestOf(s: seq<nat>)
    requires Falling(s) && s != []
    ensures Falling(s[1..]) && forall x: nat :: x in s[1..] <==> x in s && x != s[0]
  {
    forall x: nat | x in s && x != s[0] ensures x in s[1..] {
      var k: nat :| k < |s| && s[k] == x;
      assert s[1..][k - 1] == x;
    }
  }

  lemma KidCame(ns: seq<Node>, rs: seq<Node>, from: seq<nat>, a: nat, x: nat)
    requires Moved(ns, rs, from) && a < |rs| && Unhurt(ns, from, from[a]) && x in KidsFrom(ns, from[a], |ns|)
    ensures x in Via(from, KidsFrom(rs, a, |rs|))
  {
    hide Moved, KidsFrom, Via;
    MovedShape(ns, rs, from);
    assert x in from;
    var j: nat :| j < |from| && from[j] == x;
    ParentMoved(ns, rs, from, j, a);
    var t := KidsFrom(rs, a, |rs|);
    var k: nat :| k < |t| && t[k] == j;
    assert Via(from, t)[k] == x;
  }

  lemma KidWent(ns: seq<Node>, rs: seq<Node>, from: seq<nat>, a: nat, x: nat)
    requires Moved(ns, rs, from) && a < |rs| && x in Via(from, KidsFrom(rs, a, |rs|))
    ensures from[a] < |ns| && x in KidsFrom(ns, from[a], |ns|)
  {
    hide Moved, KidsFrom, Via;
    MovedShape(ns, rs, from);
    var t := KidsFrom(rs, a, |rs|);
    var k: nat :| k < |t| && Via(from, t)[k] == x;
    assert t[k] in t;
    ParentMoved(ns, rs, from, t[k], a);
  }

  lemma FallingVia(from: seq<nat>, K: set<nat>, t: seq<nat>)
    requires Falling(t) && AllIn(t, K) && Rising(from, K)
    ensures Falling(Via(from, t))
  {
    var u := Via(from, t);
    forall i: nat, j: nat | i < j < |u| ensures u[i] > u[j] {
      assert t[i] in t && t[j] in t && t[i] > t[j];
    }
  }

  /** The children of a node that has lost no neighbour: the same, in the same order. */
  lemma KidsMoved(ns: seq<Node>, rs: seq<Node>, from: seq<nat>, K: set<nat>, a: nat)
    requires Moved(ns, rs, from) && a < |rs| && Unhurt(ns, from, from[a]) && AllIn(KidsFrom(rs, a, |rs|), K) && Rising(from, K)
    ensures KidsFrom(ns, from[a], |ns|) == Via(from, KidsFrom(rs, a, |rs|))
  {
    hide Moved, KidsFrom, Via, Unhurt, Rising, AllIn;
    MovedShape(ns, rs, from);
    var s, t := KidsFrom(ns, from[a], |ns|), KidsFrom(rs, a, |rs|);
    forall x: nat | x in s ensures x in Via(from, t) { KidCame(ns, rs, from, a, x); }
    forall x: nat | x in Via(from, t) ensures x in s { KidWent(ns, rs, from, a, x); }
    FallingVia(from, K, t);
    FallingSame(s, Via(from, t));
  }

  lemma ParentsMoved(ns: seq<Node>, rs: seq<Node>, from: seq<nat>, a: nat)
    requires Moved(ns, rs, from) && a < |rs| && Unhurt(ns, from, from[a])
    ensures Live(ns[from[a]].parents, |ns|) == Via(from, Live(rs[a].parents, |rs|))
  {
    hide Live, Via;
    var p, q := ns[from[a]].parents, rs[a].parents;
    assert NodeMoved(ns[from[a]], rs[a], from, |ns|);
    forall k: nat | k < |p| ensures RefMoved(p[k], q[k], from, |ns|) && (0 <= p[k] < |ns| ==> p[k] in from) {
      assert p[k] in p;
    }
    LiveMoved(p, q, from, |ns|);
  }

  lemma ViaJoin(from: seq<nat>, s: seq<nat>, t: seq<nat>)
    ensures Via(from, s + t) == Via(from, s) + Via(from, t)
  {
  }

  lemma KidsNear(rs: seq<Node>, a: nat, K: set<nat>)
    requires a < |rs| && AllIn(Near(rs, a), K)
    ensures AllIn(KidsFrom(rs, a, |rs|), K)
  {
    forall x | x in KidsFrom(rs, a, |rs|) ensures x in K { assert x in Near(rs, a); }
  }

  lemma NearMoved(ns: seq<Node>, rs: seq<Node>, from: seq<nat>, K: set<nat>, a: nat)
    requires Moved(ns, rs, from) && a < |rs| && Unhurt(ns, from, from[a]) && AllIn(Near(rs, a), K) && Rising(from, K)
    ensures Near(ns, from[a]) == Via(from, Near(rs, a))
  {
    hide Live, KidsFrom, Moved, Unhurt, Rising, AllIn, Via;
    MovedShape(ns, rs, from);
    ParentsMoved(ns, rs, from, a);
    KidsNear(rs, a, K);
    KidsMoved(ns, rs, from, K, a);
    ViaJoin(from, Live(rs[a].parents, |rs|), KidsFrom(rs, a, |rs|));
  }

  lemma NearWithin(rs: seq<Node>, K: set<nat>, a: nat)
    requires DownClosed(Adj(rs), K) && a in K && a < |rs|
    ensures AllIn(Near(rs, a), K)
  {
    forall x | x in Near(rs, a) ensures x in K { assert x in Adj(rs)[a]; }
  }

  lemma MoveRenames(ns: seq<Node>, rs: seq<Node>, from: seq<nat>, K: set<nat>)
    requires StaleMove(ns, rs, from) && DownClosed(Adj(rs), K) && forall a: nat :: a in K ==> a < |rs| && rs[a].ck.Fresh?
    ensures Renames(Adj(rs), Adj(ns), from, K) && Rising(from, K)
  {
    hide Moved, Near, RefsOk, DownClosed, Unhurt, AllIn;
    AdjFits(rs); AdjFits(ns);
    MovedShape(ns, rs, from);
    forall a: nat | a in K ensures from[a] < |ns| && AllIn(Adj(rs)[a], K) && Adj(ns)[from[a]] == Via(from, Adj(rs)[a]) {
      NearWithin(rs, K, a);
      NearMoved(ns, rs, from, K, a);
    }
    OrderApart(from, K);
  }

  lemma OrderApart(from: seq<nat>, K: set<nat>)
    requires Rising(from, K)
    ensures OneToOne(from, K)
  {
    forall a, b | a in K && b in K && a != b ensures At(from, a) != At(from, b) {
      if a < b { assert At(from, a) < At(from, b); } else { assert At(from, b) < At(from, a); }
    }
  }

  /** After such a move, a cluster with no stale member is carried from where it was. */
  lemma MoveCarries(ns: seq<Node>, rs: seq<Node>, from: seq<nat>, i: nat)
    requires StaleMove(ns, rs, from) && i < |rs| && Settled(rs, i)
    ensures Carried(rs, ns, from, Comp(rs, i)) && from[i] < |ns| && Settled(ns, from[i])
  {
    hide Moved, Near, RefsOk, Renames, DownClosed, Unhurt, Rising, Comp;
    var K := Comp(rs, i);
    CompIs(rs, i);
    MovedShape(ns, rs, from);
    MoveRenames(ns, rs, from, K);
    forall a: nat | a in K ensures SameNode(rs[a], ns[from[a]]) {
      NodeStays(ns, rs, from, a);
    }
    forall a: nat, b: nat | a in K && b in K ensures b in rs[a].parents <==> from[b] in ns[from[a]].parents {
      ParentMoved(ns, rs, from, a, b);
    }
    assert Carried(rs, ns, from, K);
    ImageIsComp(rs, ns, from, K, i);
    forall b | b in Comp(ns, from[i]) ensures ns[b].ck.Fresh? {
      var a :| a in K && At(from, a) == b;
      assert rs[a].ck.Fresh?;
    }
  }

  lemma MovedShape(ns: seq<Node>, rs: seq<Node>, from: seq<nat>)
    requires Moved(ns, rs, from)
    ensures |from| == |rs| && forall j: nat :: j < |from| ==> from[j] < |ns|
  {
  }

  lemma NodeStays(ns: seq<Node>, rs: seq<Node>, from: seq<nat>, a: nat)
    requires Moved(ns, rs, from) && a < |rs| && rs[a].ck == ns[from[a]].ck
    ensures SameNode(rs[a], ns[from[a]])
  {
    assert NodeMoved(ns[from[a]], rs[a], from, |ns|);
  }

  /** A move that leaves stale whatever it has hurt keeps the caches true. */
  lemma MoveKeeps(ns: seq<Node>, rs: seq<Node>, from: seq<nat>, last: Linearizer, top: nat)
    requires StaleMove(ns, rs, from) && CacheOk(ns, last, top)
    ensures CacheOk(rs, last, top)
  {
    hide Carried, TrueAt, Settled, Comp;
    MovedInto(ns, rs, from);
    forall i: nat | i < |rs| && Settled(rs, i) ensures TrueAt(rs, last, i) {
      MoveCarries(ns, rs, from, i);
      TrueCarried(rs, ns, last, from, Comp(rs, i), i);
    }
    forall i: nat, j: nat | i < |rs| && j < |rs| && SameId(rs, i, j) ensures Comp(rs, i) == Comp(rs, j) {
      MoveCarries(ns, rs, from, i); MoveCarries(ns, rs, from, j);
      SameBack(rs, ns, from, i, j);
    }
  }

  lemma MovedInto(ns: seq<Node>, rs: seq<Node>, from: seq<nat>)
    requires StaleMove(ns, rs, from)
    ensures |from| == |rs| && forall j: nat :: j < |rs| ==> from[j] < |ns| && (rs[j].ck.Fresh? ==> rs[j].ck == ns[from[j]].ck)
  {
  }

  lemma SameBack(rs: seq<Node>, ns: seq<Node>, from: seq<nat>, i: nat, j: nat)
    requires |from| == |rs| && i < |rs| && j < |rs| && Carried(rs, ns, from, Comp(rs, i)) && Carried(rs, ns, from, Comp(rs, j))
    requires Comp(ns, At(from, i)) == Comp(ns, At(from, j))
    requires forall a: nat, b: nat :: a < |rs| && b < |rs| && a != b ==> from[a] != from[b]
    ensures Comp(rs, i) == Comp(rs, j)
  {
    hide Carried, Comp;
    ImageIsComp(rs, ns, from, Comp(rs, i), i);
    ImageIsComp(rs, ns, from, Comp(rs, j), j);
    assert At(from, i) in ViaSet(from, Comp(rs, j));
    var a :| a in Comp(rs, j) && At(from, a) == At(from, i);
    SameComp(rs, j, i);
  }

  /** Removing one node leaves the caches true: its neighbours and the node that took its place are stale. */
  lemma OneKeeps(ns: seq<Node>, rs: seq<Node>, ci: nat, last: Linearizer, top: nat)
    requires RefsOk(ns) && RefsOk(rs) && ci < |ns| && Moved(ns, rs, SwapFrom(|ns|, ci)) && StaleOne(ns, rs, ci)
    requires CacheOk(ns, last, top)
    ensures CacheOk(rs, last, top)
  {
    hide CacheOk, Moved, RefsOk;
    var from := SwapFrom(|ns|, ci);
    forall j: nat | j < |rs| && rs[j].ck.Fresh? ensures from[j] == j && rs[j].ck == ns[j].ck && Unhurt(ns, from, j) {
      assert rs[j].ck == AfterOne(ns, ci, j).ck;
      forall g: nat | g < |ns| && (g in ns[j].parents || j in ns[g].parents) ensures g in from { SwapFromHas(|ns|, ci, g); }
    }
    MoveKeeps(ns, rs, from, last, top);
  }

  /** Removing many at once does too, though the survivors move: they keep their order. */
  lemma ManyKeep(ns: seq<Node>, rs: seq<Node>, mark: seq<bool>, last: Linearizer, top: nat)
    requires RefsOk(ns) && RefsOk(rs) && |mark| == |ns| && Moved(ns, rs, KeptFrom(mark)) && StaleMany(ns, rs, mark)
    requires CacheOk(ns, last, top)
    ensures CacheOk(rs, last, top)
  {
    hide CacheOk, Moved, RefsOk, SpentByMarked, Loses, KeptFrom;
    var from := KeptFrom(mark);
    forall j: nat | j < |rs| && rs[j].ck.Fresh? ensures rs[j].ck == ns[from[j]].ck && Unhurt(ns, from, from[j]) {
      assert rs[j].ck == AfterMany(ns, mark, j).ck;
      UnhurtMany(ns, mark, from[j]);
    }
    MoveKeeps(ns, rs, from, last, top);
  }

  lemma UnhurtMany(ns: seq<Node>, mark: seq<bool>, p: nat)
    requires |mark| == |ns| && p < |ns| && !SpentByMarked(ns, mark, p) && !Loses(ns[p].parents, RemapOf(mark))
    ensures Unhurt(ns, KeptFrom(mark), p)
  {
    hide KeptFrom, NewSlot;
    forall g: nat | g < |ns| && (g in ns[p].parents || p in ns[g].parents) ensures g in KeptFrom(mark) {
      if g in ns[p].parents {
        var k: nat :| k < |ns[p].parents| && ns[p].parents[k] == g;
        MarkedHasNone(mark, g);
      }
    }
  }

  lemma MarkedHasNone(mark: seq<bool>, g: nat)
    requires g < |mark|
    ensures |RemapOf(mark)| == |mark| && (mark[g] ==> RemapOf(mark)[g] == NONE)
  {
  }

  /** A newcomer, stale itself, leaves the caches true: it is in every cluster it changes. */
  lemma NewcomerKeeps(ns: seq<Node>, nd: Node, last: Linearizer, top: nat)
    requires RefsOk(ns) && nd.ck == Stale && (forall k: nat :: k < |nd.parents| ==> 0 <= nd.parents[k] < |ns|)
    requires CacheOk(ns, last, top)
    ensures CacheOk(ns + [nd], last, top)
  {
    hide Carried, TrueAt, Settled, Comp, RefsOk;
    var rs, from := ns + [nd], Same(|ns| + 1);
    forall i: nat | i < |rs| && Settled(rs, i) ensures TrueAt(rs, last, i) {
      NewcomerCarries(ns, nd, i);
      TrueCarried(rs, ns, last, from, Comp(rs, i), i);
    }
    forall i: nat, j: nat | i < |rs| && j < |rs| && SameId(rs, i, j) ensures Comp(rs, i) == Comp(rs, j) {
      NewcomerCarries(ns, nd, i); NewcomerCarries(ns, nd, j);
      SameBack(rs, ns, from, i, j);
    }
  }

  function Same(n: nat): (r: seq<nat>)
    ensures |r| == n && forall k: nat :: k < n ==> r[k] == k
  {
    seq(n, k => k)
  }

  lemma {:induction false} LiveSame(refs: seq<int>, n: nat)
    requires forall k: nat :: k < |refs| ==> refs[k] != n
    ensures Live(refs, n + 1) == Live(refs, n)
    decreases |refs|
  {
    if refs != [] { LiveSame(refs[..|refs| - 1], n); }
  }

  lemma {:induction false} KidsSame(ns: seq<Node>, nd: Node, a: nat, n: nat)
    requires n <= |ns|
    ensures KidsFrom(ns + [nd], a, n) == KidsFrom(ns, a, n)
  {
    if n > 0 { KidsSame(ns, nd, a, n - 1); }
  }

  lemma ViaSame(n: nat, s: seq<nat>)
    requires forall k: nat :: k < |s| ==> s[k] < n
    ensures Via(Same(n), s) == s
  {
  }

  lemma NearSame(ns: seq<Node>, nd: Node, a: nat)
    requires RefsOk(ns) && a < |ns| && |ns| !in Near(ns + [nd], a)
    ensures Near(ns, a) == Near(ns + [nd], a) && Near(ns, a) == Via(Same(|ns| + 1), Near(ns + [nd], a))
  {
    hide NoDoubles;
    var rs := ns + [nd];
    assert rs[a] == ns[a] && rs[|ns|] == nd;
    LiveSame(ns[a].parents, |ns|);
    KidsSame(ns, nd, a, |ns|);
    assert a !in nd.parents;
    forall k: nat | k < |Near(rs, a)| ensures Near(rs, a)[k] < |ns| + 1 { assert Near(rs, a)[k] in Near(rs, a); }
    ViaSame(|ns| + 1, Near(rs, a));
  }

  lemma NewcomerCarries(ns: seq<Node>, nd: Node, i: nat)
    requires RefsOk(ns) && nd.ck == Stale && i < |ns| + 1 && Settled(ns + [nd], i)
    ensures i < |ns| && Carried(ns + [nd], ns, Same(|ns| + 1), Comp(ns + [nd], i)) && Settled(ns, i)
  {
    hide Near, Comp, RefsOk, Live, KidsFrom;
    var rs, from := ns + [nd], Same(|ns| + 1);
    var K := Comp(rs, i);
    CompIs(rs, i);
    AdjFits(rs); AdjFits(ns);
    assert |ns| !in K by { assert rs[|ns|] == nd; }
    forall a: nat | a in K ensures AllIn(Adj(rs)[a], K) && Adj(ns)[a] == Via(from, Adj(rs)[a]) && rs[a] == ns[a] {
      NearWithin(rs, K, a);
      NearSame(ns, nd, a);
    }
    assert Rising(from, K) && OneToOne(from, K);
    assert Carried(rs, ns, from, K);
    ImageIsComp(rs, ns, from, K, i);
    forall b | b in Comp(ns, i) ensures ns[b].ck.Fresh? {
      var a :| a in K && At(from, a) == b;
      assert rs[a].ck.Fresh?;
    }
  }

  /** Whatever the caches said truly before, they say truly after. */
  ghost predicate CacheStays(ns: seq<Node>, rs: seq<Node>) {
    forall last: Linearizer, top: nat :: CacheOk(ns, last, top) ==> CacheOk(rs, last, top)
  }

  lemma StaysSame(ns: seq<Node>)
    ensures CacheStays(ns, ns)
  {
  }

  lemma StaysOn(ns: seq<Node>, ms: seq<Node>, rs: seq<Node>)
    requires CacheStays(ns, ms) && CacheStays(ms, rs)
    ensures CacheStays(ns, rs)
  {
    hide CacheOk;
  }

  lemma OneStays(ns: seq<Node>, rs: seq<Node>, ci: nat)
    requires RefsOk(ns) && ci < |ns| && Removed(ns, rs, SwapFrom(|ns|, ci)) && StaleOne(ns, rs, ci)
    ensures CacheStays(ns, rs)
  {
    hide CacheOk, RefsOk, Moved, AfterOne;
    forall last: Linearizer, top: nat | CacheOk(ns, last, top) ensures CacheOk(rs, last, top) { OneKeeps(ns, rs, ci, last, top); }
  }

  lemma ManyStay(ns: seq<Node>, rs: seq<Node>, mark: seq<bool>)
    requires RefsOk(ns) && |mark| == |ns| && Removed(ns, rs, KeptFrom(mark)) && StaleMany(ns, rs, mark)
    ensures CacheStays(ns, rs)
  {
    hide CacheOk, RefsOk, Moved, AfterMany, KeptFrom;
    forall last: Linearizer, top: nat | CacheOk(ns, last, top) ensures CacheOk(rs, last, top) { ManyKeep(ns, rs, mark, last, top); }
  }

  lemma NewcomerStays(ns: seq<Node>, nd: Node)
    requires RefsOk(ns) && nd.ck == Stale && (forall k: nat :: k < |nd.parents| ==> 0 <= nd.parents[k] < |ns|)
    ensures CacheStays(ns, ns + [nd])
  {
    hide CacheOk, RefsOk;
    forall last: Linearizer, top: nat | CacheOk(ns, last, top) ensures CacheOk(ns + [nd], last, top) { NewcomerKeeps(ns, nd, last, top); }
  }
}
