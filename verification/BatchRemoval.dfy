/** Removing every marked node in one compaction: the same graph as removing them one after the other. */
module BatchRemoval {
  import opened ChainTable
  import opened PoolViews
  import opened PoolAncestors
  import opened NodeRemoval

  /** The new slot of an old one: how many unmarked nodes stand before it, or none. */
  function NewSlot(mark: seq<bool>, p: int): int {
    if 0 <= p < |mark| && !mark[p] then |KeptFrom(mark[..p])| else NONE
  }

  lemma {:induction false} NewSlotIs(mark: seq<bool>, p: nat)
    requires p < |mark| && !mark[p]
    ensures 0 <= NewSlot(mark, p) < |KeptFrom(mark)| && KeptFrom(mark)[NewSlot(mark, p)] == p
  {
    var m := mark[..|mark| - 1];
    if p < |m| {
      NewSlotIs(m, p);
      assert m[..p] == mark[..p];
    }
  }

  /** Some reference of the list is to a node that leaves. */
  predicate Loses(refs: seq<int>, remap: seq<int>) {
    exists k: nat :: k < |refs| && refs[k] != NONE && (0 <= refs[k] < |remap| ==> remap[refs[k]] == NONE)
  }

  /** A survivor with its references taken through the remap; stale when it lost a parent. */
  function Remapped(nd: Node, remap: seq<int>): Node {
    nd.(parents := Through(nd.parents, p => if 0 <= p < |remap| then remap[p] else NONE),
        ck := if Loses(nd.parents, remap) then Stale else nd.ck)
  }

  /** Node i is a parent of some marked node. */
  predicate SpentByMarked(ns: seq<Node>, mark: seq<bool>, i: nat)
    requires |mark| == |ns|
  {
    exists k: nat :: k < |ns| && mark[k] && i in ns[k].parents
  }

  function RemapOf(mark: seq<bool>): (r: seq<int>)
    ensures |r| == |mark| && forall p: nat :: p < |mark| ==> r[p] == NewSlot(mark, p)
  {
    seq(|mark|, p => NewSlot(mark, p))
  }

  /** Node j of the table after the marked ones have been removed. */
  function AfterMany(ns: seq<Node>, mark: seq<bool>, j: nat): Node
    requires |mark| == |ns| && j < |KeptFrom(mark)|
  {
    var i := KeptFrom(mark)[j];
    Remapped(if SpentByMarked(ns, mark, i) then Marked(ns[i]) else ns[i], RemapOf(mark))
  }

  /** Removing the marked nodes moves the others as the compaction says. */
  lemma ManyMove(ns: seq<Node>, mark: seq<bool>, rs: seq<Node>)
    requires RefsOk(ns) && |mark| == |ns| && |rs| == |KeptFrom(mark)| && forall j: nat :: j < |rs| ==> rs[j] == AfterMany(ns, mark, j)
    ensures Moved(ns, rs, KeptFrom(mark))
  {
    hide Loses, SpentByMarked, KeptFrom, NewSlot;
    var f := KeptFrom(mark);
    forall j: nat | j < |rs| ensures NodeMoved(ns[f[j]], rs[j], f, |ns|) {
      var a, b := ns[f[j]], rs[j];
      forall k: nat | k < |a.parents| ensures RefMoved(a.parents[k], b.parents[k], f, |ns|) {
        var p := a.parents[k];
        if 0 <= p < |ns| {
          if mark[p] { NotKept(mark, p); } else { NewSlotIs(mark, p); }
        }
      }
    }
  }

  lemma NotKept(mark: seq<bool>, p: nat)
    requires p < |mark| && mark[p]
    ensures p !in KeptFrom(mark) && NewSlot(mark, p) == NONE
  {
  }

  lemma GoneMany(ns: seq<Node>, mark: seq<bool>)
    requires |mark| == |ns|
    ensures Gone(ns, KeptFrom(mark)) == MarkedIds(ns, mark)
  {
    hide KeptFrom;
    forall i: nat | i < |ns| ensures i !in KeptFrom(mark) <==> mark[i] {
      if mark[i] { NotKept(mark, i); }
    }
  }

  ghost function MarkedIds(ns: seq<Node>, mark: seq<bool>): set<Txid>
    requires |mark| == |ns|
  {
    set i: nat | i < |ns| && mark[i] :: ns[i].txid
  }

  /** The remap, built on the way. */
  method BuildRemap(mark: seq<bool>) returns (remap: seq<int>)
    ensures remap == RemapOf(mark)
  {
    hide NewSlot, KeptFrom, Kept;
    remap := [];
    var w := 0;
    NewSlotStart(mark);
    for i := 0 to |mark|
      invariant w == |KeptFrom(mark[..i])| && |remap| == i
      invariant forall p: nat :: p < i ==> remap[p] == NewSlot(mark, p)
    {
      KeptNext(mark, mark, i);
      NewSlotHere(mark, i);
      remap := remap + [if mark[i] then NONE else w];
      if !mark[i] { w := w + 1; }
    }
  }

  lemma NewSlotStart(mark: seq<bool>)
    ensures KeptFrom(mark[..0]) == []
  {
  }

  lemma NewSlotHere(mark: seq<bool>, i: nat)
    requires i < |mark|
    ensures NewSlot(mark, i) == if mark[i] then NONE else |KeptFrom(mark[..i])|
  {
  }

  /** The parents of every marked node go stale. */
  method MarkSpent(t: Nodes, mark: seq<bool>)
    requires t.Valid() && Keyed(t) && |mark| == t.n
    modifies t.entries
    ensures t.Valid() && |t.Entries()| == |old(t.Entries())|
    ensures forall j: nat :: j < t.n ==>
      t.Entries()[j] == if SpentByMarked(old(t.Entries()), mark, j) then Marked(old(t.Entries())[j]) else old(t.Entries())[j]
  {
    hide Threaded, Keyed;
    ghost var ns := t.Entries();
    for i := 0 to t.n
      invariant t.Valid() && |t.Entries()| == |ns|
      invariant forall j: nat :: j < |ns| ==> t.Entries()[j] == if SpentBefore(ns, mark, i, j) then Marked(ns[j]) else ns[j]
    {
      assert t.entries[i] == t.Entries()[i];
      assert t.entries[i].parents == ns[i].parents;
      ghost var rs := t.Entries();
      if mark[i] { MarkStale(t, t.entries[i].parents); }
      forall j: nat | j < |ns| ensures SpentBefore(ns, mark, i + 1, j) <==> SpentBefore(ns, mark, i, j) || (mark[i] && j in ns[i].parents) {
        SpentNext(ns, mark, i, j);
      }
    }
  }

  predicate SpentBefore(ns: seq<Node>, mark: seq<bool>, n: nat, i: nat)
    requires |mark| == |ns|
  {
    exists k: nat :: k < n && k < |ns| && mark[k] && i in ns[k].parents
  }

  lemma SpentNext(ns: seq<Node>, mark: seq<bool>, i: nat, j: nat)
    requires |mark| == |ns| && i < |ns|
    ensures SpentBefore(ns, mark, i + 1, j) <==> SpentBefore(ns, mark, i, j) || (mark[i] && j in ns[i].parents)
  {
  }

  /** The survivors' references taken through the remap; says whether one lost a parent. */
  method Relink(a: array<Node>, w: nat, remap: seq<int>) returns (orphaned: bool)
    requires w <= a.Length
    modifies a
    ensures forall j: nat :: j < w ==> a[j] == Remapped(old(a[j]), remap)
    ensures !orphaned ==> forall j: nat :: j < w ==> !Loses(old(a[j]).parents, remap)
  {
    hide Remapped, Loses;
    orphaned := false;
    for j := 0 to w
      invariant forall i: nat :: i < w ==> a[i] == if i < j then Remapped(old(a[i]), remap) else old(a[i])
      invariant !orphaned ==> forall i: nat :: i < j ==> !Loses(old(a[i]).parents, remap)
    {
      if Loses(a[j].parents, remap) { orphaned := true; }
      a[j] := Remapped(a[j], remap);
    }
  }

  /** The table without its marked nodes, the others moved up in order. */
  method TakeOutMany(t: Nodes, mark: seq<bool>) returns (orphaned: bool)
    requires t.Valid() && Keyed(t) && |mark| == t.n
    modifies t, t.entries, t.head, t.next
    ensures t.Valid() && |t.Entries()| == |KeptFrom(mark)|
    ensures forall j: nat :: j < t.n ==> t.Entries()[j] == AfterMany(old(t.Entries()), mark, j)
    ensures !orphaned ==> forall j: nat :: j < t.n ==> !Loses(old(t.Entries())[KeptFrom(mark)[j]].parents, RemapOf(mark))
  {
    hide Threaded, Keyed, Remapped, Loses, SpentByMarked, Kept, Marked;
    ghost var ns := t.Entries();
    MarkSpent(t, mark);
    ghost var as_ := t.Entries();
    var remap := BuildRemap(mark);
    var w := ChainTable.Compact(t.entries, t.n, mark);
    KeptAre(as_, mark);
    ghost var bs := t.entries[..w];
    orphaned := Relink(t.entries, w, remap);
    ghost var cs := t.entries[..w];
    t.Rebuild(w);
    forall j: nat | j < w ensures cs[j] == AfterMany(ns, mark, j) && as_[KeptFrom(mark)[j]].parents == ns[KeptFrom(mark)[j]].parents {
      assert bs[j] == as_[KeptFrom(mark)[j]];
      MarkedKey(ns[KeptFrom(mark)[j]]);
    }
  }

  /** When no survivor loses a parent, no survivor spends what leaves. */
  lemma NoOrphanedMany(ns: seq<Node>, mark: seq<bool>)
    requires Distinct(ns) && |mark| == |ns|
    requires forall j: nat :: j < |KeptFrom(mark)| ==> !Loses(ns[KeptFrom(mark)[j]].parents, RemapOf(mark))
    ensures forall u :: u in ViewOf(ns) && u !in MarkedIds(ns, mark) ==> ViewOf(ns)[u].parents !! MarkedIds(ns, mark)
  {
    hide ViewOf, KeptFrom, NewSlot;
    var gone := MarkedIds(ns, mark);
    forall i: nat, k: nat | i < |ns| && ns[i].txid !in gone && k < |ns[i].parents| && 0 <= ns[i].parents[k] < |ns|
      ensures ns[ns[i].parents[k]].txid !in gone
    {
      assert !mark[i];
      var j: nat :| j < |KeptFrom(mark)| && KeptFrom(mark)[j] == i;
      var p := ns[i].parents[k];
      if mark[p] { NotKept(mark, p); }
      assert !mark[p];
      forall q: nat | q < |ns| && mark[q] ensures ns[q].txid != ns[p].txid { DifferentIds(ns, q, p); }
    }
    NobodySpends(ns, gone);
  }

  /** What the nodes keep about chunks after the marked ones have been removed. */
  ghost predicate StaleMany(ns: seq<Node>, rs: seq<Node>, mark: seq<bool>) {
    |mark| == |ns| && |rs| == |KeptFrom(mark)| && forall j: nat :: j < |rs| ==> rs[j].ck == AfterMany(ns, mark, j).ck
  }

  /** Removes every marked node at once: every other keeps its place in the graph. */
  method RemoveMany(t: Nodes, mark: seq<bool>)
    requires t.Valid() && Keyed(t) && |mark| == t.n && Distinct(t.Entries()) && RefsOk(t.Entries()) && AncExact(t.Entries())
    modifies t, t.entries, t.head, t.next
    ensures t.Valid() && Removed(old(t.Entries()), t.Entries(), KeptFrom(mark))
    ensures ViewOf(t.Entries()) == Remove(ViewOf(old(t.Entries())), MarkedIds(old(t.Entries()), mark))
    ensures StaleMany(old(t.Entries()), t.Entries(), mark)
  {
    hide Threaded, AfterMany, Distinct, RefsOk, AncExact, ViewOf, Moved, Loses, KeptFrom, RemapOf, MarkedIds, Exact, Removed, Keyed;
    ghost var ns := t.Entries();
    var orphaned := TakeOutMany(t, mark);
    ghost var rs := t.Entries();
    ManyDone(ns, mark, rs);
    if orphaned {
      RecomputeAll(t);
      FiguresOnly(ns, rs, t.Entries(), KeptFrom(mark));
    } else {
      ManyUnorphaned(ns, mark, rs);
    }
  }

  /** The graph and the parentless nodes' figures after a compaction. */
  lemma ManyDone(ns: seq<Node>, mark: seq<bool>, rs: seq<Node>)
    requires Distinct(ns) && RefsOk(ns) && AncExact(ns) && |mark| == |ns| && |rs| == |KeptFrom(mark)|
    requires forall j: nat :: j < |rs| ==> rs[j] == AfterMany(ns, mark, j)
    ensures Moved(ns, rs, KeptFrom(mark)) && Distinct(rs) && RefsOk(rs)
    ensures ViewOf(rs) == Remove(ViewOf(ns), MarkedIds(ns, mark))
    ensures forall j: nat :: j < |rs| && rs[j].parents == [] ==> Exact(rs, j, rs[j].ancCnt, rs[j].ancBytes)
  {
    hide *;
    ManyFigures(ns, mark);
    ManyMove(ns, mark, rs);
    MovedRefsOk(ns, rs, KeptFrom(mark));
    ViewMoved(ns, rs, KeptFrom(mark));
    GoneMany(ns, mark);
    forall j: nat | j < |rs| && rs[j].parents == [] ensures Exact(rs, j, rs[j].ancCnt, rs[j].ancBytes) {
      ParentlessStay(ns, rs, KeptFrom(mark), j);
    }
  }

  /** With no survivor orphaned the figures need no recomputation. */
  lemma ManyUnorphaned(ns: seq<Node>, mark: seq<bool>, rs: seq<Node>)
    requires Distinct(ns) && RefsOk(ns) && AncExact(ns) && |mark| == |ns| && |rs| == |KeptFrom(mark)|
    requires Distinct(rs) && RefsOk(rs) && Moved(ns, rs, KeptFrom(mark))
    requires forall j: nat :: j < |rs| ==> rs[j] == AfterMany(ns, mark, j)
    requires forall j: nat :: j < |rs| ==> !Loses(ns[KeptFrom(mark)[j]].parents, RemapOf(mark))
    ensures Removed(ns, rs, KeptFrom(mark))
  {
    hide AfterMany, Distinct, RefsOk, AncExact, ViewOf, Moved, Loses, KeptFrom, Gone, MarkedIds, RemapOf, Exact;
    ManyFigures(ns, mark);
    GoneMany(ns, mark);
    NoOrphanedMany(ns, mark);
    forall j: nat | j < |rs| ensures Exact(rs, j, rs[j].ancCnt, rs[j].ancBytes) {
      FiguresStay(ns, rs, KeptFrom(mark), j);
    }
    AllExact(rs);
  }

  lemma ManyFigures(ns: seq<Node>, mark: seq<bool>)
    requires |mark| == |ns|
    ensures forall j: nat :: j < |KeptFrom(mark)| ==> AfterMany(ns, mark, j).ancCnt == ns[KeptFrom(mark)[j]].ancCnt
    ensures forall j: nat :: j < |KeptFrom(mark)| ==> AfterMany(ns, mark, j).ancBytes == ns[KeptFrom(mark)[j]].ancBytes
  {
  }
}
