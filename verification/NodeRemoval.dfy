/** Removing nodes from the table, one at a time or many at once: what moves, what is renumbered, what goes stale. */
module NodeRemoval {
  import opened ChainTable
  import opened PoolViews
  import opened PoolAncestors

  /** Every reference is to a live slot, once at most, or to none. */
  ghost predicate RefsOk(ns: seq<Node>) {
    && (forall j: nat :: j < |ns| ==> NoDoubles(ns, ns[j].parents))
    && (forall j: nat, k: nat :: j < |ns| && k < |ns[j].parents| ==> ns[j].parents[k] == NONE || 0 <= ns[j].parents[k] < |ns|)
  }

  /** Every node carries the figures its ancestors give it. */
  ghost predicate AncExact(ns: seq<Node>) {
    forall i: nat :: i < |ns| ==> Exact(ns, i, ns[i].ancCnt, ns[i].ancBytes)
  }

  /** A list of references through a renaming of slots. */
  function Through(refs: seq<int>, f: int -> int): (r: seq<int>)
    ensures |r| == |refs| && forall k: nat :: k < |refs| ==> r[k] == f(refs[k])
  {
    seq(|refs|, k requires 0 <= k < |refs| => f(refs[k]))
  }

  /** A node that loses a parent, if it has that parent; it goes stale then. */
  function Cleared(nd: Node, ci: nat): Node {
    nd.(parents := Through(nd.parents, p => if p == ci then NONE else p), ck := if ci in nd.parents then Stale else nd.ck)
  }

  function Renumbered(nd: Node, last: nat, ci: nat): Node {
    nd.(parents := Through(nd.parents, p => if p == last then ci else p))
  }

  function Marked(nd: Node): Node {
    nd.(ck := Stale)
  }

  /** The old slot of each new one when the last node takes the place of node ci. */
  function SwapFrom(n: nat, ci: nat): (r: seq<nat>)
    requires ci < n
    ensures |r| == n - 1 && forall j: nat :: j < n - 1 ==> r[j] == if j == ci then n - 1 else j
  {
    seq(n - 1, j => if j == ci then n - 1 else j)
  }

  /** Node j of the table after node ci has been removed. */
  function AfterOne(ns: seq<Node>, ci: nat, j: nat): Node
    requires ci < |ns| && j < |ns| - 1
  {
    var last := |ns| - 1;
    var old_ := if j == ci then last else j;
    var nd := Cleared(if old_ in ns[ci].parents then Marked(ns[old_]) else ns[old_], ci);
    Renumbered(if j == ci then Marked(nd) else nd, last, ci)
  }

  lemma SwapFromHas(n: nat, ci: nat, p: int)
    requires ci < n
    ensures 0 <= p < n ==> (p in SwapFrom(n, ci) <==> p != ci)
    ensures forall i: nat, j: nat :: i < j < n - 1 ==> SwapFrom(n, ci)[i] != SwapFrom(n, ci)[j]
  {
    var f := SwapFrom(n, ci);
    if 0 <= p < n && p != ci {
      if p < n - 1 { assert f[p] == p; } else { assert f[ci] == p; }
    }
  }

  /** Removing one node moves the others as the swap says. */
  lemma OneMoves(ns: seq<Node>, ci: nat, rs: seq<Node>)
    requires RefsOk(ns) && ci < |ns| && |rs| == |ns| - 1 && forall j: nat :: j < |rs| ==> rs[j] == AfterOne(ns, ci, j)
    ensures Moved(ns, rs, SwapFrom(|ns|, ci))
  {
    var n, f := |ns|, SwapFrom(|ns|, ci);
    SwapFromHas(n, ci, 0);
    forall j: nat | j < |rs| ensures NodeMoved(ns[f[j]], rs[j], f, n) {
      var a, b := ns[f[j]], rs[j];
      forall k: nat | k < |a.parents| ensures RefMoved(a.parents[k], b.parents[k], f, n) {
        SwapFromHas(n, ci, a.parents[k]);
      }
    }
  }

  /** New references follow the moved nodes: still live or none, still no doubles. */
  lemma MovedRefsOk(ns: seq<Node>, rs: seq<Node>, from: seq<nat>)
    requires RefsOk(ns) && Moved(ns, rs, from)
    ensures RefsOk(rs)
  {
    forall j: nat | j < |rs|
      ensures NoDoubles(rs, rs[j].parents)
      ensures forall k: nat :: k < |rs[j].parents| ==> rs[j].parents[k] == NONE || 0 <= rs[j].parents[k] < |rs|
    {
      var a, b := ns[from[j]], rs[j];
      assert NodeMoved(a, b, from, |ns|);
      assert NoDoubles(ns, a.parents);
      forall k: nat | k < |b.parents| ensures b.parents[k] == NONE || 0 <= b.parents[k] < |rs| {
        assert RefMoved(a.parents[k], b.parents[k], from, |ns|);
      }
      forall k: nat, l: nat | k < l < |b.parents| && 0 <= b.parents[k] < |rs| ensures b.parents[k] != b.parents[l] {
        assert RefMoved(a.parents[k], b.parents[k], from, |ns|) && RefMoved(a.parents[l], b.parents[l], from, |ns|);
      }
    }
  }

  lemma {:induction false} WeightRemove(v: View, gone: set<Txid>, A: set<Txid>)
    requires A <= v.Keys && A !! gone
    ensures A <= Remove(v, gone).Keys && Weight(Remove(v, gone), A) == Weight(v, A)
    decreases |A|
  {
    if A != {} {
      var t :| t in A && Weight(v, A) == v[t].size + Weight(v, A - {t});
      WeightRemove(v, gone, A - {t});
      WeightWith(Remove(v, gone), A - {t}, t);
      assert A - {t} + {t} == A;
    }
  }

  /** When nobody left behind is spent by those that moved, every figure stays right. */
  lemma FiguresStay(ns: seq<Node>, rs: seq<Node>, from: seq<nat>, j: nat)
    requires Distinct(ns) && Moved(ns, rs, from) && AncExact(ns) && j < |rs|
    requires rs[j].ancCnt == ns[from[j]].ancCnt && rs[j].ancBytes == ns[from[j]].ancBytes
    requires forall u :: u in ViewOf(ns) && u !in Gone(ns, from) ==> ViewOf(ns)[u].parents !! Gone(ns, from)
    ensures Exact(rs, j, rs[j].ancCnt, rs[j].ancBytes)
  {
    hide ViewOf, Gone, Ids;
    ViewMoved(ns, rs, from);
    var v, w, t, gone := ViewOf(ns), ViewOf(rs), rs[j].txid, Gone(ns, from);
    assert NodeMoved(ns[from[j]], rs[j], from, |ns|);
    assert Exact(ns, from[j], ns[from[j]].ancCnt, ns[from[j]].ancBytes);
    ViewAt(rs, j); ViewAt(ns, from[j]);
    ViewGrounded(ns);
    NoOrphans(v, gone, t);
    WeightRemove(v, gone, Ancestors(v, t)) by {
      assert Ancestors(w, t) <= w.Keys;
    }
  }

  type Nodes = Table<Node, Txid>

  /** The table is keyed by txid. */
  ghost predicate Keyed(t: Nodes) {
    forall nd: Node :: t.key(nd) == nd.txid
  }

  /** Marks the nodes a list of references names. */
  method MarkStale(t: Nodes, refs: seq<int>)
    requires t.Valid() && Keyed(t)
    modifies t.entries
    ensures t.Valid() && |t.Entries()| == |old(t.Entries())|
    ensures forall j: nat :: j < t.n ==> t.Entries()[j] == if j in refs then Marked(old(t.Entries())[j]) else old(t.Entries())[j]
  {
    hide Threaded;
    ghost var ns := t.Entries();
    for k := 0 to |refs|
      invariant t.Valid() && |t.Entries()| == |ns|
      invariant forall j: nat :: j < |ns| ==> t.Entries()[j] == if j in refs[..k] then Marked(ns[j]) else ns[j]
    {
      var p := refs[k];
      if 0 <= p < t.n {
        t.Set(p, Marked(t.entries[p]));
      }
    }
    assert refs[..|refs|] == refs;
  }

  /** Clears the references to node ci; says whether there was one. */
  method ClearRefs(t: Nodes, ci: nat) returns (orphaned: bool)
    requires t.Valid() && Keyed(t)
    modifies t.entries
    ensures t.Valid() && |t.Entries()| == |old(t.Entries())|
    ensures forall j: nat :: j < t.n ==> t.Entries()[j] == Cleared(old(t.Entries())[j], ci)
    ensures !orphaned ==> forall j: nat :: j < t.n ==> ci !in old(t.Entries())[j].parents
  {
    hide Threaded, Cleared;
    ghost var ns := t.Entries();
    orphaned := false;
    for j := 0 to t.n
      invariant t.Valid() && |t.Entries()| == |ns|
      invariant forall i: nat :: i < |ns| ==> t.Entries()[i] == if i < j then Cleared(ns[i], ci) else ns[i]
      invariant !orphaned ==> forall i: nat :: i < j ==> ci !in ns[i].parents
    {
      assert t.entries[j] == t.Entries()[j] == ns[j];
      if ci in t.entries[j].parents { orphaned := true; }
      ClearedKey(t.entries[j], ci);
      t.Set(j, Cleared(t.entries[j], ci));
    }
  }

  lemma ClearedKey(nd: Node, ci: nat)
    ensures Cleared(nd, ci).txid == nd.txid
  {
  }

  /** References to the slot a node left follow it to its new one. */
  method RenumberRefs(t: Nodes, last: nat, ci: nat)
    requires t.Valid() && Keyed(t)
    modifies t.entries
    ensures t.Valid() && |t.Entries()| == |old(t.Entries())|
    ensures forall j: nat :: j < t.n ==> t.Entries()[j] == Renumbered(old(t.Entries())[j], last, ci)
  {
    hide Threaded, Renumbered;
    ghost var ns := t.Entries();
    for j := 0 to t.n
      invariant t.Valid() && |t.Entries()| == |ns|
      invariant forall i: nat :: i < |ns| ==> t.Entries()[i] == if i < j then Renumbered(ns[i], last, ci) else ns[i]
    {
      assert t.entries[j] == t.Entries()[j] == ns[j];
      RenumberedKey(t.entries[j], last, ci);
      t.Set(j, Renumbered(t.entries[j], last, ci));
    }
  }

  lemma RenumberedKey(nd: Node, last: nat, ci: nat)
    ensures Renumbered(nd, last, ci).txid == nd.txid
  {
  }

  lemma RenumberedSame(nd: Node, s: nat)
    ensures Renumbered(nd, s, s) == nd
  {
    assert Renumbered(nd, s, s).parents == nd.parents;
  }

  /** The table without node ci, its slot taken by the last one. */
  method TakeOut(t: Nodes, ci: nat) returns (orphaned: bool)
    requires t.Valid() && Keyed(t) && ci < t.n && RefsOk(t.Entries())
    modifies t, t.entries, t.head, t.next
    ensures t.Valid() && |t.Entries()| == |old(t.Entries())| - 1
    ensures forall j: nat :: j < t.n ==> t.Entries()[j] == AfterOne(old(t.Entries()), ci, j)
    ensures !orphaned ==> forall j: nat :: j < |old(t.Entries())| ==> ci !in old(t.Entries())[j].parents
  {
    hide Table.Valid, Table.Entries, Cleared, Renumbered, Marked, AfterOne, SwapOut, RefsOk, Keyed;
    ghost var ns := t.Entries();
    t.Live();
    MarkStale(t, t.entries[ci].parents);
    t.Live();
    ghost var as_ := t.Entries();
    orphaned := ClearRefs(t, ci);
    t.Live();
    ghost var bs := t.Entries();
    var last := t.n - 1;
    t.RemoveAt(ci);
    t.Live();
    SwapOutIs(bs, ci);
    ghost var cs := t.Entries();
    if ci != last { MarkAt(t, ci); }
    ghost var ds := t.Entries();
    if ci != last { RenumberRefs(t, last, ci); }
    t.Live();
    TakenOut(ns, as_, bs, cs, ds, t.Entries(), ci);
    StillParents(ns, as_, ci);
  }

  method MarkAt(t: Nodes, i: nat)
    requires t.Valid() && Keyed(t) && i < t.n
    modifies t.entries
    ensures t.Valid() && i < |old(t.Entries())| && t.Entries() == old(t.Entries())[i := Marked(old(t.Entries())[i])]
  {
    hide Threaded;
    t.Set(i, Marked(t.entries[i]));
  }

  lemma SwapOutIs<E>(es: seq<E>, i: nat)
    requires i < |es|
    ensures |SwapOut(es, i)| == |es| - 1
    ensures forall j: nat :: j < |es| - 1 ==> SwapOut(es, i)[j] == if j == i then es[|es| - 1] else es[j]
  {
  }

  lemma MarkedKey(nd: Node)
    ensures Marked(nd).txid == nd.txid && Marked(nd).parents == nd.parents
  {
  }

  lemma StillParents(ns: seq<Node>, as_: seq<Node>, ci: nat)
    requires ci < |ns| == |as_| && forall j: nat :: j < |ns| ==> as_[j] == if j in ns[ci].parents then Marked(ns[j]) else ns[j]
    ensures forall j: nat :: j < |ns| ==> as_[j].parents == ns[j].parents
  {
  }

  /** The steps of a removal, put together. */
  lemma TakenOut(ns: seq<Node>, as_: seq<Node>, bs: seq<Node>, cs: seq<Node>, ds: seq<Node>, es: seq<Node>, ci: nat)
    requires ci < |ns| == |as_| == |bs| && |cs| == |ds| == |es| == |ns| - 1
    requires forall j: nat :: j < |ns| ==> as_[j] == if j in ns[ci].parents then Marked(ns[j]) else ns[j]
    requires forall j: nat :: j < |ns| ==> bs[j] == Cleared(as_[j], ci)
    requires forall j: nat :: j < |ns| - 1 ==> cs[j] == if j == ci then bs[|ns| - 1] else bs[j]
    requires ds == if ci != |ns| - 1 then cs[ci := Marked(cs[ci])] else cs
    requires if ci != |ns| - 1 then forall j: nat :: j < |es| ==> es[j] == Renumbered(ds[j], |ns| - 1, ci) else es == ds
    ensures forall j: nat :: j < |es| ==> es[j] == AfterOne(ns, ci, j)
  {
    hide Cleared, Renumbered, Marked;
    forall j: nat | j < |es| ensures es[j] == AfterOne(ns, ci, j) {
      RenumberedSame(ds[j], ci);
    }
  }

  /** The same node but for its figures. */
  ghost predicate SameBut(a: Node, b: Node) {
    b == a.(ancCnt := b.ancCnt, ancBytes := b.ancBytes)
  }

  lemma SameTxids(ns: seq<Node>, rs: seq<Node>)
    requires Distinct(ns) && |ns| == |rs| && forall j: nat :: j < |ns| ==> SameBut(ns[j], rs[j])
    ensures Distinct(rs) && Txids(rs) == Txids(ns)
    ensures forall refs: seq<int> :: Ids(rs, refs) == Ids(ns, refs)
  {
    forall t | t in Txids(rs) ensures t in Txids(ns) {
      var j := SlotOf(rs, t);
      assert SameBut(ns[j], rs[j]);
    }
    forall t | t in Txids(ns) ensures t in Txids(rs) {
      var j := SlotOf(ns, t);
      assert SameBut(ns[j], rs[j]);
    }
    forall i: nat, j: nat | i < j < |rs| ensures rs[i].txid != rs[j].txid {
      assert SameBut(ns[i], rs[i]) && SameBut(ns[j], rs[j]);
    }
    forall refs: seq<int> ensures Ids(rs, refs) == Ids(ns, refs) {
      forall k: nat | k < |refs| && 0 <= refs[k] < |ns| ensures rs[refs[k]].txid == ns[refs[k]].txid {
        assert SameBut(ns[refs[k]], rs[refs[k]]);
      }
    }
  }

  /** The graph does not see the figures. */
  lemma SameView(ns: seq<Node>, rs: seq<Node>)
    requires Distinct(ns) && |ns| == |rs| && forall j: nat :: j < |ns| ==> SameBut(ns[j], rs[j])
    ensures Distinct(rs) && ViewOf(rs) == ViewOf(ns)
  {
    hide Txids, Ids;
    SameTxids(ns, rs);
    forall t | t in ViewOf(ns) ensures ViewOf(rs)[t] == ViewOf(ns)[t] {
      var j := SlotOf(ns, t);
      assert SameBut(ns[j], rs[j]);
      ViewAt(ns, j); ViewAt(rs, j);
    }
    assert ViewOf(rs).Keys == ViewOf(ns).Keys;
  }

  lemma SameExact(ns: seq<Node>, rs: seq<Node>, i: nat, c: nat, b: nat)
    requires Distinct(ns) && |ns| == |rs| && (forall j: nat :: j < |ns| ==> SameBut(ns[j], rs[j])) && Exact(ns, i, c, b)
    ensures Exact(rs, i, c, b)
  {
    hide ViewOf, Ancestors, Weight;
    SameView(ns, rs);
    assert SameBut(ns[i], rs[i]);
  }

  /** A node that never had parents. */
  lemma NoParents(ns: seq<Node>, i: nat)
    requires Distinct(ns) && i < |ns| && ns[i].parents == []
    ensures ns[i].txid in ViewOf(ns)
    ensures forall c: nat, b: nat :: Exact(ns, i, c, b) <==> c == 1 && b == Capped(ns[i].size)
  {
    ViewAt(ns, i);
    var v, t := ViewOf(ns), ns[i].txid;
    assert v[t].parents == {};
    AncestorsLeast(v, t, {});
    assert Weight(v, {}) == 0;
  }

  /** One node's figures recomputed. */
  method RecomputeAt(t: Nodes, i: nat)
    requires t.Valid() && Keyed(t) && Distinct(t.Entries()) && RefsOk(t.Entries()) && i < t.n
    modifies t.entries
    ensures t.Valid() && t.Entries() == old(t.Entries())[i := t.entries[i]] && SameBut(old(t.entries[i]), t.entries[i])
    ensures Exact(old(t.Entries()), i, t.entries[i].ancCnt, t.entries[i].ancBytes)
  {
    hide Threaded, Exact, Distinct, RefsOk;
    NoDoublesAt(t.Entries(), i);
    var cnt, bytes := Recompute(t.entries[..t.n], i);
    t.Set(i, t.entries[i].(ancCnt := cnt, ancBytes := bytes));
    assert t.entries[i] == t.Entries()[i];
  }

  /** Every node with parents recomputed; one without needs nothing. */
  method RecomputeAll(t: Nodes)
    requires t.Valid() && Keyed(t) && Distinct(t.Entries()) && RefsOk(t.Entries())
    requires forall j: nat :: j < t.n && t.Entries()[j].parents == [] ==> Exact(t.Entries(), j, t.Entries()[j].ancCnt, t.Entries()[j].ancBytes)
    modifies t.entries
    ensures t.Valid() && |t.Entries()| == |old(t.Entries())| && AncExact(t.Entries())
    ensures forall j: nat :: j < t.n ==> SameBut(old(t.Entries())[j], t.Entries()[j])
  {
    hide Threaded, Exact, Distinct, RefsOk, Keyed;
    ghost var ns := t.Entries();
    for i := 0 to t.n
      invariant t.Valid() && |t.Entries()| == |ns|
      invariant forall j: nat :: j < |ns| ==> SameBut(ns[j], t.Entries()[j])
      invariant forall j: nat :: j < |ns| && (j < i || ns[j].parents == []) ==> Exact(ns, j, t.Entries()[j].ancCnt, t.Entries()[j].ancBytes)
    {
      ghost var rs := t.Entries();
      assert t.entries[i] == rs[i] && SameBut(ns[i], rs[i]);
      if t.entries[i].parents != [] {
        SameRefs(ns, rs);
        RecomputeAt(t, i);
        SameBack(ns, rs, i, t.entries[i].ancCnt, t.entries[i].ancBytes);
      }
    }
    AllSameExact(ns, t.Entries());
  }

  lemma AllSameExact(ns: seq<Node>, rs: seq<Node>)
    requires Distinct(ns) && |ns| == |rs| && forall j: nat :: j < |ns| ==> SameBut(ns[j], rs[j])
    requires forall j: nat :: j < |ns| ==> Exact(ns, j, rs[j].ancCnt, rs[j].ancBytes)
    ensures AncExact(rs)
  {
    hide Exact, Distinct;
    forall j: nat | j < |rs| ensures Exact(rs, j, rs[j].ancCnt, rs[j].ancBytes) {
      SameExact(ns, rs, j, rs[j].ancCnt, rs[j].ancBytes);
    }
  }

  lemma SameRefs(ns: seq<Node>, rs: seq<Node>)
    requires Distinct(ns) && RefsOk(ns) && |ns| == |rs| && forall j: nat :: j < |ns| ==> SameBut(ns[j], rs[j])
    ensures Distinct(rs) && RefsOk(rs)
  {
    SameTxids(ns, rs);
    forall j: nat | j < |rs| ensures NoDoubles(rs, rs[j].parents) {
      assert SameBut(ns[j], rs[j]) && NoDoubles(ns, ns[j].parents);
    }
    forall j: nat, k: nat | j < |rs| && k < |rs[j].parents| ensures rs[j].parents[k] == NONE || 0 <= rs[j].parents[k] < |rs| {
      assert SameBut(ns[j], rs[j]);
    }
  }

  lemma SameBack(ns: seq<Node>, rs: seq<Node>, i: nat, c: nat, b: nat)
    requires Distinct(ns) && |ns| == |rs| && (forall j: nat :: j < |ns| ==> SameBut(ns[j], rs[j])) && Exact(rs, i, c, b)
    ensures Exact(ns, i, c, b)
  {
    hide Exact;
    SameTxids(ns, rs);
    forall j: nat | j < |ns| ensures SameBut(rs[j], ns[j]) { assert SameBut(ns[j], rs[j]); }
    SameExact(rs, ns, i, c, b);
  }

  lemma NoDoublesAt(ns: seq<Node>, i: nat)
    requires RefsOk(ns) && i < |ns|
    ensures NoDoubles(ns, ns[i].parents)
  {
  }

  lemma GoneOne(ns: seq<Node>, ci: nat)
    requires ci < |ns|
    ensures Gone(ns, SwapFrom(|ns|, ci)) == {ns[ci].txid}
  {
    var f := SwapFrom(|ns|, ci);
    forall i: nat | i < |ns| ensures i !in f <==> i == ci { SwapFromHas(|ns|, ci, i); }
  }

  /** When nobody has node ci for a parent, nobody spends it. */
  lemma NobodySpends(ns: seq<Node>, gone: set<Txid>)
    requires Distinct(ns)
    requires forall j: nat, k: nat ::
      (j < |ns| && ns[j].txid !in gone && k < |ns[j].parents| && 0 <= ns[j].parents[k] < |ns|
       ==> ns[ns[j].parents[k]].txid !in gone)
    ensures forall u :: u in ViewOf(ns) && u !in gone ==> ViewOf(ns)[u].parents !! gone
  {
    forall u | u in ViewOf(ns) && u !in gone ensures ViewOf(ns)[u].parents !! gone {
      var j := SlotOf(ns, u);
      ViewAt(ns, j);
    }
  }

  /** A parentless node's figures do not depend on where it stands. */
  lemma ParentlessStay(ns: seq<Node>, rs: seq<Node>, from: seq<nat>, j: nat)
    requires Distinct(ns) && Moved(ns, rs, from) && AncExact(ns) && j < |rs| && rs[j].parents == []
    requires rs[j].ancCnt == ns[from[j]].ancCnt && rs[j].ancBytes == ns[from[j]].ancBytes
    ensures Exact(rs, j, rs[j].ancCnt, rs[j].ancBytes)
  {
    hide Exact, ViewOf;
    assert NodeMoved(ns[from[j]], rs[j], from, |ns|);
    MovedDistinct(ns, rs, from);
    assert Exact(ns, from[j], ns[from[j]].ancCnt, ns[from[j]].ancBytes);
    NoParents(ns, from[j]);
    NoParents(rs, j);
  }

  /** The table before and after a removal: the others moved, every figure right, and what is near goes stale. */
  ghost predicate Removed(ns: seq<Node>, rs: seq<Node>, from: seq<nat>) {
    Distinct(rs) && RefsOk(rs) && AncExact(rs) && Moved(ns, rs, from)
  }

  /** What the nodes keep about chunks after one has been removed. */
  ghost predicate StaleOne(ns: seq<Node>, rs: seq<Node>, ci: nat) {
    ci < |ns| && |rs| == |ns| - 1 && forall j: nat :: j < |rs| ==> rs[j].ck == AfterOne(ns, ci, j).ck
  }

  /** Removes one node: every other keeps its place in the graph. */
  method RemoveOne(t: Nodes, ci: nat)
    requires t.Valid() && Keyed(t) && ci < t.n && Distinct(t.Entries()) && RefsOk(t.Entries()) && AncExact(t.Entries())
    modifies t, t.entries, t.head, t.next
    ensures t.Valid() && Removed(old(t.Entries()), t.Entries(), SwapFrom(|old(t.Entries())|, ci))
    ensures ViewOf(t.Entries()) == Remove(ViewOf(old(t.Entries())), {old(t.Entries())[ci].txid})
    ensures StaleOne(old(t.Entries()), t.Entries(), ci)
  {
    hide Table.Valid, AfterOne, Distinct, RefsOk, AncExact, ViewOf, Moved, Removed, Keyed, Exact, Remove;
    ghost var ns := t.Entries();
    t.Live();
    var orphaned := TakeOut(t, ci);
    ghost var rs := t.Entries();
    t.Live();
    OneTaken(ns, ci, rs);
    if orphaned {
      RecomputeAll(t);
      FiguresOnly(ns, rs, t.Entries(), SwapFrom(|ns|, ci));
      t.Live();
    } else {
      OneUnorphaned(ns, ci, rs);
    }
  }

  /** The graph and the parentless nodes' figures after one node has been taken out. */
  lemma OneTaken(ns: seq<Node>, ci: nat, rs: seq<Node>)
    requires Distinct(ns) && RefsOk(ns) && AncExact(ns) && ci < |ns| && |rs| == |ns| - 1
    requires forall j: nat :: j < |rs| ==> rs[j] == AfterOne(ns, ci, j)
    ensures Moved(ns, rs, SwapFrom(|ns|, ci)) && Distinct(rs) && RefsOk(rs)
    ensures ViewOf(rs) == Remove(ViewOf(ns), {ns[ci].txid})
    ensures forall j: nat :: j < |rs| && rs[j].parents == [] ==> Exact(rs, j, rs[j].ancCnt, rs[j].ancBytes)
  {
    hide *;
    AfterFigures(ns, ci);
    OneMoves(ns, ci, rs);
    MovedRefsOk(ns, rs, SwapFrom(|ns|, ci));
    ViewMoved(ns, rs, SwapFrom(|ns|, ci));
    GoneOne(ns, ci);
    forall j: nat | j < |rs| && rs[j].parents == [] ensures Exact(rs, j, rs[j].ancCnt, rs[j].ancBytes) {
      ParentlessStay(ns, rs, SwapFrom(|ns|, ci), j);
    }
  }

  /** With nobody orphaned the figures need no recomputation. */
  lemma OneUnorphaned(ns: seq<Node>, ci: nat, rs: seq<Node>)
    requires Distinct(ns) && RefsOk(ns) && AncExact(ns) && ci < |ns| && |rs| == |ns| - 1
    requires Distinct(rs) && RefsOk(rs) && Moved(ns, rs, SwapFrom(|ns|, ci))
    requires forall j: nat :: j < |rs| ==> rs[j] == AfterOne(ns, ci, j)
    requires forall j: nat :: j < |ns| ==> ci !in ns[j].parents
    ensures Removed(ns, rs, SwapFrom(|ns|, ci))
  {
    hide AfterOne, Distinct, RefsOk, AncExact, ViewOf, Moved, Gone, Exact;
    AfterFigures(ns, ci);
    GoneOne(ns, ci);
    NoOrphanedOne(ns, ci);
    forall j: nat | j < |rs| ensures Exact(rs, j, rs[j].ancCnt, rs[j].ancBytes) {
      FiguresStay(ns, rs, SwapFrom(|ns|, ci), j);
    }
    AllExact(rs);
  }

  lemma AllExact(rs: seq<Node>)
    requires forall j: nat :: j < |rs| ==> Exact(rs, j, rs[j].ancCnt, rs[j].ancBytes)
    ensures AncExact(rs)
  {
  }

  lemma AfterFigures(ns: seq<Node>, ci: nat)
    requires ci < |ns|
    ensures forall j: nat :: j < |ns| - 1 ==> AfterOne(ns, ci, j).ancCnt == ns[SwapFrom(|ns|, ci)[j]].ancCnt
    ensures forall j: nat :: j < |ns| - 1 ==> AfterOne(ns, ci, j).ancBytes == ns[SwapFrom(|ns|, ci)[j]].ancBytes
  {
  }

  lemma DifferentIds(ns: seq<Node>, p: nat, q: nat)
    requires Distinct(ns) && p < |ns| && q < |ns| && p != q
    ensures ns[p].txid != ns[q].txid
  {
  }

  lemma NoOrphanedOne(ns: seq<Node>, ci: nat)
    requires Distinct(ns) && ci < |ns| && forall j: nat :: j < |ns| ==> ci !in ns[j].parents
    ensures forall u :: u in ViewOf(ns) && u !in {ns[ci].txid} ==> ViewOf(ns)[u].parents !! {ns[ci].txid}
  {
    hide ViewOf;
    forall j: nat, k: nat | j < |ns| && k < |ns[j].parents| && 0 <= ns[j].parents[k] < |ns|
      ensures ns[ns[j].parents[k]].txid != ns[ci].txid
    {
      assert ns[j].parents[k] in ns[j].parents;
      DifferentIds(ns, ns[j].parents[k], ci);
    }
    NobodySpends(ns, {ns[ci].txid});
  }

  /** Figures rewritten after a move. */
  lemma FiguresOnly(ns: seq<Node>, rs: seq<Node>, qs: seq<Node>, from: seq<nat>)
    requires Distinct(rs) && RefsOk(rs) && Moved(ns, rs, from) && AncExact(qs)
    requires |qs| == |rs| && forall j: nat :: j < |rs| ==> SameBut(rs[j], qs[j])
    ensures Removed(ns, qs, from) && ViewOf(qs) == ViewOf(rs) && forall j: nat :: j < |rs| ==> qs[j].ck == rs[j].ck
  {
    hide ViewOf, AncExact;
    SameRefs(rs, qs);
    SameView(rs, qs);
    forall j: nat | j < |from| ensures NodeMoved(ns[from[j]], qs[j], from, |ns|) {
      assert NodeMoved(ns[from[j]], rs[j], from, |ns|) && SameBut(rs[j], qs[j]);
    }
  }
}
