/** A newcomer at the end of the table: what it adds to the graph, and that it changes nothing else. */
module PoolInsert {
  import opened ChainTable
  import opened PoolViews
  import opened PoolAncestors
  import opened NodeRemoval
  import opened PoolClusters

  /** A new node whose parents are live slots, each once. */
  ghost predicate Fits(ns: seq<Node>, nd: Node) {
    && nd.txid !in Txids(ns) && NoDoubles(ns, nd.parents)
    && forall k: nat :: k < |nd.parents| ==> 0 <= nd.parents[k] < |ns|
  }

  lemma IdsOfPrefix(ns: seq<Node>, nd: Node, refs: seq<int>)
    requires forall k: nat :: k < |refs| ==> refs[k] == NONE || 0 <= refs[k] < |ns|
    ensures Ids(ns + [nd], refs) == Ids(ns, refs)
  {
    var ms := ns + [nd];
    forall t | t in Ids(ms, refs) ensures t in Ids(ns, refs) {
      var k: nat :| k < |refs| && 0 <= refs[k] < |ms| && ms[refs[k]].txid == t;
    }
    forall t | t in Ids(ns, refs) ensures t in Ids(ms, refs) {
      var k: nat :| k < |refs| && 0 <= refs[k] < |ns| && ns[refs[k]].txid == t;
      assert ms[refs[k]].txid == t;
    }
  }

  lemma TxidsWith(ns: seq<Node>, nd: Node)
    ensures Txids(ns + [nd]) == Txids(ns) + {nd.txid}
  {
    var ms := ns + [nd];
    forall t | t in Txids(ms) ensures t in Txids(ns) + {nd.txid} {
      var i := SlotOf(ms, t);
    }
    forall t | t in Txids(ns) + {nd.txid} ensures t in Txids(ms) {
      if t == nd.txid { assert ms[|ns|].txid == t; } else { assert ms[SlotOf(ns, t)].txid == t; }
    }
  }

  lemma OrderWith(ns: seq<Node>, nd: Node)
    requires Distinct(ns) && RefsOk(ns) && Fits(ns, nd)
    ensures Distinct(ns + [nd]) && RefsOk(ns + [nd])
  {
    var ms := ns + [nd];
    forall j: nat | j < |ms| ensures NoDoubles(ms, ms[j].parents) {
      if j < |ns| { assert NoDoubles(ns, ns[j].parents); }
    }
  }

  lemma EntryWith(ns: seq<Node>, nd: Node, i: nat)
    requires RefsOk(ns) && Fits(ns, nd) && i <= |ns|
    ensures EntryOf(ns + [nd], i) == if i == |ns| then Entry(nd.size, nd.fee, Ids(ns, nd.parents)) else EntryOf(ns, i)
  {
    hide Ids, NoDoubles;
    IdsOfPrefix(ns, nd, (ns + [nd])[i].parents);
  }

  /** The graph with the newcomer. */
  lemma ViewWith(ns: seq<Node>, nd: Node)
    requires Distinct(ns) && RefsOk(ns) && Fits(ns, nd)
    ensures Distinct(ns + [nd]) && RefsOk(ns + [nd])
    ensures ViewOf(ns + [nd]) == ViewOf(ns)[nd.txid := Entry(nd.size, nd.fee, Ids(ns, nd.parents))]
  {
    hide Ids, Txids, EntryOf, RefsOk, Distinct, ViewOf;
    var ms := ns + [nd];
    OrderWith(ns, nd);
    TxidsWith(ns, nd);
    var v, w := ViewOf(ms), ViewOf(ns)[nd.txid := Entry(nd.size, nd.fee, Ids(ns, nd.parents))];
    assert v.Keys == w.Keys;
    forall t | t in v ensures v[t] == w[t] {
      var i := SlotOf(ms, t);
      ViewAt(ms, i);
      EntryWith(ns, nd, i);
      if i < |ns| { ViewAt(ns, i); }
    }
  }

  /** Taking the newcomer out again leaves the graph as it was. */
  lemma RemoveInserted(v: View, x: Txid, e: Entry)
    requires Grounded(v) && x !in v
    ensures Remove(v[x := e], {x}) == v
  {
    var w := Remove(v[x := e], {x});
    forall t | t in v ensures w[t] == v[t] { assert v[t].parents - {x} == v[t].parents; }
  }

  /** Nobody's ancestors change when a newcomer comes in. */
  lemma AncestorsStay(v: View, x: Txid, e: Entry, t: Txid)
    requires Grounded(v) && x !in v && e.parents <= v.Keys && t in v
    ensures Ancestors(v[x := e], t) == Ancestors(v, t)
  {
    var w := v[x := e];
    RemoveInserted(v, x, e);
    forall u | u in w && u !in {x} ensures w[u].parents !! {x} { }
    NoOrphans(w, {x}, t);
  }

  lemma FiguresStayWith(ns: seq<Node>, nd: Node, i: nat)
    requires Distinct(ns) && RefsOk(ns) && Fits(ns, nd) && i < |ns| && Exact(ns, i, ns[i].ancCnt, ns[i].ancBytes)
    ensures Exact(ns + [nd], i, ns[i].ancCnt, ns[i].ancBytes)
  {
    hide ViewOf, Ids, Distinct, Txids;
    var ms := ns + [nd];
    ViewWith(ns, nd);
    ViewGrounded(ns);
    ViewAt(ms, i);
    var v, t, e := ViewOf(ns), ns[i].txid, Entry(nd.size, nd.fee, Ids(ns, nd.parents));
    IdsLive(ns, nd.parents);
    AncestorsStay(v, nd.txid, e, t);
    WeightSame(v, ViewOf(ms), Ancestors(v, t));
  }

  lemma IdsLive(ns: seq<Node>, refs: seq<int>)
    ensures Ids(ns, refs) <= Txids(ns)
  {
  }
}
