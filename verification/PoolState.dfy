/** The pool: nodes, claims and outputs, removed one transaction at a time or many at once. */
module PoolState {
  import opened ChainTable
  import opened PoolViews
  import opened PoolAncestors
  import opened NodeRemoval
  import opened BatchRemoval
  import opened PoolTables
  import opened CacheMoves

  /** What a pool holds, whatever its slots: the graph, who spends which outpoint, and the outputs. */
  datatype Contents = Contents(graph: View, spends: set<(Outpoint, Txid)>, outs: set<Out>)

  function Without(c: Contents, gone: set<Txid>): Contents {
    Contents(Remove(c.graph, gone), set x | x in c.spends && x.1 !in gone, set o | o in c.outs && o.txid !in gone)
  }

  /** Taking transactions out in two goes is taking them out in one. */
  lemma WithoutTwice(c: Contents, a: set<Txid>, b: set<Txid>)
    ensures Without(Without(c, a), b) == Without(c, a + b)
  {
    RemoveRemove(c.graph, a, b);
    assert Without(Without(c, a), b).spends == Without(c, a + b).spends;
    assert Without(Without(c, a), b).outs == Without(c, a + b).outs;
  }

  lemma WithoutNone(c: Contents)
    ensures Without(c, {}) == c
  {
    RemoveNone(c.graph);
    assert Without(c, {}).spends == c.spends && Without(c, {}).outs == c.outs;
  }

  /** Figures depend on the graph alone. */
  lemma FiguresAgree(ns: seq<Node>, ms: seq<Node>, i: nat, j: nat)
    requires Distinct(ns) && Distinct(ms) && AncExact(ns) && AncExact(ms) && ViewOf(ns) == ViewOf(ms)
    requires i < |ns| && j < |ms| && ns[i].txid == ms[j].txid
    ensures ns[i].ancCnt == ms[j].ancCnt && ns[i].ancBytes == ms[j].ancBytes
  {
    hide ViewOf, Ancestors, Weight, Distinct;
    assert Exact(ns, i, ns[i].ancCnt, ns[i].ancBytes) && Exact(ms, j, ms[j].ancCnt, ms[j].ancBytes);
    ViewAt(ns, i); ViewAt(ms, j);
  }

  function Parts<E(!new), K(==,!new)>(t: Table<E, K>): set<object> {
    {t, t.entries, t.head, t.next}
  }

  ghost predicate ClaimsLive(cs: seq<Claim>, n: nat) {
    forall i: nat :: i < |cs| ==> 0 <= cs[i].claimer < n
  }

  ghost predicate OutsLive(os: seq<Out>, ns: seq<Node>) {
    forall i: nat :: i < |os| ==> os[i].txid in Txids(ns)
  }

  /** The claims left by removing node ci follow the nodes. */
  lemma ClaimsFollowOne(cs: seq<Claim>, es: seq<Claim>, ds: seq<Claim>, n: nat, ci: nat)
    requires ci < n && ClaimsLive(cs, n) && |ds| == |es|
    requires forall c :: c in es <==> c in cs && c.claimer != ci
    requires forall j: nat :: j < |es| ==> ds[j] == es[j].(claimer := if es[j].claimer == n - 1 then ci else es[j].claimer)
    ensures ClaimsMoved(cs, ds, SwapFrom(n, ci)) && ClaimsLive(ds, n - 1)
  {
    var from := SwapFrom(n, ci);
    forall j: nat | j < |ds|
      ensures 0 <= ds[j].claimer < |from|
      ensures exists i: nat :: i < |cs| && Follows(cs[i], ds[j], from)
    {
      assert es[j] in es;
      var i: nat :| i < |cs| && cs[i] == es[j];
      assert Follows(cs[i], ds[j], from);
    }
    forall i: nat | i < |cs| && cs[i].claimer in from ensures exists j: nat :: j < |ds| && Follows(cs[i], ds[j], from) {
      SwapFromHas(n, ci, cs[i].claimer);
      assert cs[i] in es;
      var j: nat :| j < |es| && es[j] == cs[i];
      assert Follows(cs[i], ds[j], from);
    }
  }

  /** The claims left by removing the marked nodes, claimers renumbered. */
  ghost predicate Remade(cs: seq<Claim>, es: seq<Claim>, ds: seq<Claim>, mark: seq<bool>) {
    && ClaimsLive(cs, |mark|) && |ds| == |es|
    && (forall c :: c in es <==> c in cs && Unmarked(c, mark))
    && (forall j: nat :: j < |es| ==> ds[j] == es[j].(claimer := NewSlot(mark, es[j].claimer)))
  }

  lemma RemadeFrom(cs: seq<Claim>, es: seq<Claim>, ds: seq<Claim>, mark: seq<bool>, j: nat) returns (i: nat)
    requires Remade(cs, es, ds, mark) && j < |ds|
    ensures i < |cs| && Follows(cs[i], ds[j], KeptFrom(mark))
  {
    hide KeptFrom, NewSlot;
    assert es[j] in es;
    i :| i < |cs| && cs[i] == es[j];
    NewSlotIs(mark, cs[i].claimer);
  }

  lemma RemadeInto(cs: seq<Claim>, es: seq<Claim>, ds: seq<Claim>, mark: seq<bool>, i: nat) returns (j: nat)
    requires Remade(cs, es, ds, mark) && i < |cs| && cs[i].claimer in KeptFrom(mark)
    ensures j < |ds| && Follows(cs[i], ds[j], KeptFrom(mark))
  {
    hide KeptFrom, NewSlot;
    assert cs[i] in es;
    j :| j < |es| && es[j] == cs[i];
    NewSlotIs(mark, cs[i].claimer);
  }

  /** The claims left by removing the marked nodes follow the others. */
  lemma ClaimsFollowMany(cs: seq<Claim>, es: seq<Claim>, ds: seq<Claim>, mark: seq<bool>)
    requires Remade(cs, es, ds, mark)
    ensures ClaimsMoved(cs, ds, KeptFrom(mark)) && ClaimsLive(ds, |KeptFrom(mark)|)
  {
    hide KeptFrom, Remade;
    var from := KeptFrom(mark);
    forall j: nat | j < |ds|
      ensures 0 <= ds[j].claimer < |from|
      ensures exists i: nat :: i < |cs| && Follows(cs[i], ds[j], from)
    {
      var i := RemadeFrom(cs, es, ds, mark, j);
    }
    forall i: nat | i < |cs| && cs[i].claimer in from ensures exists j: nat :: j < |ds| && Follows(cs[i], ds[j], from) {
      var j := RemadeInto(cs, es, ds, mark, i);
    }
  }

  /** Everything a pool keeps true: exact figures, one claimer for an outpoint, claims and outputs of live transactions only. */
  ghost predicate InOrder(ns: seq<Node>, cs: seq<Claim>, os: seq<Out>) {
    Distinct(ns) && RefsOk(ns) && AncExact(ns) && ClaimsLive(cs, |ns|) && OutsLive(os, ns)
  }

  ghost function Held(ns: seq<Node>, cs: seq<Claim>, os: seq<Out>): Contents {
    Contents(ViewOf(ns), Spends(cs, ns), OutSet(os))
  }

  /** A removal, table by table, is a removal of transactions. */
  lemma RemovalHolds(ns: seq<Node>, cs: seq<Claim>, os: seq<Out>, rs: seq<Node>, ds: seq<Claim>, ps: seq<Out>, from: seq<nat>, gone: set<Txid>)
    requires InOrder(ns, cs, os) && Removed(ns, rs, from) && ClaimsMoved(cs, ds, from) && ClaimsLive(ds, |rs|) && gone == Gone(ns, from)
    requires forall o :: o in ps <==> o in os && o.txid !in gone
    ensures InOrder(rs, ds, ps) && Held(rs, ds, ps) == Without(Held(ns, cs, os), gone)
  {
    hide Gone, ViewOf, Spends, Distinct, RefsOk, AncExact, Moved, ClaimsMoved;
    ViewMoved(ns, rs, from);
    SpendsMoved(cs, ds, ns, rs, from);
    KeysMoved(ns, rs, from);
    forall i: nat | i < |ps| ensures ps[i].txid in Txids(rs) {
      assert ps[i] in ps;
      assert ps[i] in os;
    }
    var A, B := OutSet(ps), Without(Held(ns, cs, os), gone).outs;
    forall o | o in A ensures o in B {
      assert o in ps;
      var i: nat :| i < |os| && os[i] == o;
    }
    forall o | o in B ensures o in A {
      assert o in os;
      var i: nat :| i < |ps| && ps[i] == o;
    }
  }

  class Pool {
    const nodes: Nodes
    const claims: Claims
    const outs: Outs

    ghost predicate Valid()
      reads this, Parts(nodes), Parts(claims), Parts(outs)
    {
      && Parts(nodes) !! Parts(claims) && Parts(nodes) !! Parts(outs) && Parts(claims) !! Parts(outs)
      && nodes.Valid() && claims.Valid() && outs.Valid()
      && Keyed(nodes) && ClaimKeyed(claims) && OutKeyed(outs)
      && Unique(claims.Entries(), claims.key) && Unique(outs.Entries(), outs.key)
      && InOrder(nodes.Entries(), claims.Entries(), outs.Entries())
    }

    ghost function Now(): Contents
      requires Valid()
      reads this, Parts(nodes), Parts(claims), Parts(outs)
    {
      Held(nodes.Entries(), claims.Entries(), outs.Entries())
    }

    /** An empty pool. */
    constructor (cap: nat, nb: nat, byTxid: Txid -> nat, byOutpoint: Outpoint -> nat)
      requires nb > 0
      ensures Valid() && Now() == Contents(map[], {}, {}) && nodes.n == 0
    {
      hide Table.Valid, Table.Entries, InOrder, Held;
      nodes := new Table(cap, nb, Node([], 0, 0, [], 0, 0, Stale), (nd: Node) => nd.txid, byTxid);
      claims := new Table(cap, nb, Claim([], 0, 0), (c: Claim) => (c.prev, c.index), byOutpoint);
      outs := new Table(cap, nb, Out([], 0, 0), (o: Out) => (o.txid, o.index), byOutpoint);
      new;
      nodes.Live();
      NothingHeld();
    }

    /** A node's claims and outputs forgotten. */
    method Forget(ci: nat, ct: Txid)
      requires claims.Valid() && outs.Valid() && Unique(claims.Entries(), claims.key) && Unique(outs.Entries(), outs.key)
      requires Parts(claims) !! Parts(outs)
      modifies Parts(claims), Parts(outs)
      ensures claims.Valid() && outs.Valid() && Unique(claims.Entries(), claims.key) && Unique(outs.Entries(), outs.key)
      ensures forall c :: c in claims.Entries() <==> c in old(claims.Entries()) && c.claimer != ci
      ensures forall o :: o in outs.Entries() <==> o in old(outs.Entries()) && o.txid !in {ct}
    {
      hide Table.Valid, Table.Entries, Unique;
      DropClaimsOf(claims, ci);
      DropOutsOf(outs, ct);
    }

    /** Removes one transaction: everything else stays as it was, but for nobody spending it any more. */
    method RemoveNode(ci: nat)
      requires Valid() && ci < nodes.n
      modifies Parts(nodes), Parts(claims), Parts(outs)
      ensures Valid() && Now() == Without(old(Now()), {old(nodes.Entries()[ci].txid)})
      ensures CacheStays(old(nodes.Entries()), nodes.Entries())
    {
      hide Table.Valid, Table.Entries, InOrder, Held, Unique, Without, AfterOne, ViewOf, Remove, Removed, Keyed, ClaimKeyed, OutKeyed,
        Distinct, RefsOk, AncExact, ClaimsLive, SwapFrom, CacheStays, StaleOne;
      ghost var ns, cs, os := nodes.Entries(), claims.Entries(), outs.Entries();
      nodes.Live();
      var ct := nodes.entries[ci].txid;
      assert ct == ns[ci].txid;
      var last := nodes.n - 1;
      SoundParts(ns, cs, os);
      Forget(ci, ct);
      ghost var es, ps := claims.Entries(), outs.Entries();
      RemoveOne(nodes, ci);
      ghost var rs := nodes.Entries();
      OneStays(ns, rs, ci);
      FollowClaims(claims, last, ci);
      ghost var ds := claims.Entries();
      OneRemoved(ns, cs, os, es, rs, ds, ps, ci);
    }

    /** The claims and outputs of marked nodes forgotten. */
    method ForgetMarked(mark: seq<bool>)
      requires Valid() && |mark| == nodes.n
      modifies Parts(claims), Parts(outs)
      ensures claims.Valid() && outs.Valid() && Unique(claims.Entries(), claims.key) && Unique(outs.Entries(), outs.key)
      ensures |mark| == |nodes.Entries()|
      ensures forall c :: c in claims.Entries() <==> c in old(claims.Entries()) && Unmarked(c, mark)
      ensures forall o :: o in outs.Entries() <==> o in old(outs.Entries()) && o.txid !in MarkedIds(nodes.Entries(), mark)
    {
      hide Table.Valid, Table.Entries, Unique, InOrder, Keyed, ClaimKeyed, OutKeyed, MarkedIds, Distinct;
      nodes.Live();
      SoundParts(nodes.Entries(), claims.Entries(), outs.Entries());
      DropClaimsMarked(claims, mark);
      DropOutsMarked(outs, nodes, mark);
    }

    /** Removes every marked transaction at once: the same contents as removing them one after the other. */
    method RemoveMarked(mark: seq<bool>)
      requires Valid() && |mark| == nodes.n
      modifies Parts(nodes), Parts(claims), Parts(outs)
      ensures |mark| == |old(nodes.Entries())|
      ensures Valid() && Now() == Without(old(Now()), MarkedIds(old(nodes.Entries()), mark))
      ensures CacheStays(old(nodes.Entries()), nodes.Entries())
    {
      hide Table.Valid, Table.Entries, InOrder, Held, Unique, Without, AfterMany, ViewOf, Remove, Removed, Keyed, ClaimKeyed, OutKeyed,
        Distinct, RefsOk, AncExact, ClaimsLive, KeptFrom, MarkedIds, NewSlot, CacheStays, StaleMany;
      ghost var ns, cs, os := nodes.Entries(), claims.Entries(), outs.Entries();
      nodes.Live();
      SoundParts(ns, cs, os);
      ForgetMarked(mark);
      ghost var es, ps := claims.Entries(), outs.Entries();
      LiveUnmarked(cs, es, mark);
      RemoveMany(nodes, mark);
      ghost var rs := nodes.Entries();
      ManyStay(ns, rs, mark);
      FollowRemap(claims, mark);
      ghost var ds := claims.Entries();
      ManyRemoved(ns, cs, os, es, rs, ds, ps, mark);
    }

    /** Removes a list of transactions one after the other, those that are there. */
    method RemoveEach(ids: seq<Txid>)
      requires Valid()
      modifies Parts(nodes), Parts(claims), Parts(outs)
      ensures Valid() && Now() == Without(old(Now()), set t | t in ids) && CacheStays(old(nodes.Entries()), nodes.Entries())
    {
      hide Table.Valid, Table.Entries, InOrder, Held, Unique, Without, Keyed, ClaimKeyed, OutKeyed, CacheStays;
      ghost var start, first := Now(), nodes.Entries();
      StaysSame(first);
      WithoutNone(start);
      assert IdSet(ids[..0]) == {};
      for i := 0 to |ids|
        invariant Valid() && Now() == Without(start, IdSet(ids[..i])) && CacheStays(first, nodes.Entries())
      {
        ghost var ns := nodes.Entries();
        var ci := nodes.Find(ids[i]);
        nodes.Live();
        NameOf(nodes, ids[i], ci);
        if ci >= 0 {
          RemoveNode(ci);
          StaysOn(first, ns, nodes.Entries());
        } else {
          AbsentStays(nodes.Entries(), claims.Entries(), outs.Entries(), ids[i]);
        }
        WithoutTwice(start, IdSet(ids[..i]), {ids[i]});
        assert IdSet(ids[..i + 1]) == IdSet(ids[..i]) + {ids[i]};
      }
      assert ids[..|ids|] == ids;
      assert IdSet(ids) == set t | t in ids;
    }
  }

  function IdSet(ids: seq<Txid>): set<Txid> {
    set t | t in ids
  }

  lemma NameOf(t: Nodes, x: Txid, ci: int)
    requires t.Valid() && Keyed(t)
    requires ci == -1 || (0 <= ci < t.n && t.key(t.entries[ci]) == x)
    requires ci == -1 <==> forall i: nat :: i < t.n ==> t.key(t.entries[i]) != x
    ensures ci >= 0 ==> ci < |t.Entries()| && t.Entries()[ci].txid == x
    ensures ci < 0 ==> x !in Txids(t.Entries())
  {
    hide Threaded;
  }

  /** Taking out a transaction that is not there changes nothing. */
  lemma AbsentStays(ns: seq<Node>, cs: seq<Claim>, os: seq<Out>, x: Txid)
    requires InOrder(ns, cs, os) && x !in Txids(ns)
    ensures Without(Held(ns, cs, os), {x}) == Held(ns, cs, os)
  {
    hide Distinct, RefsOk, AncExact;
    var h := Held(ns, cs, os);
    ViewGrounded(ns);
    forall t | t in h.graph ensures h.graph[t].parents - {x} == h.graph[t].parents { }
    assert Remove(h.graph, {x}) == h.graph;
    forall s | s in h.spends ensures s.1 != x { var i := SpendOf(cs, ns, s); }
    forall o | o in h.outs ensures o.txid != x { var i: nat :| i < |os| && os[i] == o; }
  }

  ghost predicate Unmarked(c: Claim, mark: seq<bool>) {
    0 <= c.claimer < |mark| && !mark[c.claimer]
  }

  lemma LiveUnmarked(cs: seq<Claim>, es: seq<Claim>, mark: seq<bool>)
    requires forall c :: c in es <==> c in cs && Unmarked(c, mark)
    ensures forall i: nat :: i < |es| ==> 0 <= es[i].claimer < |mark| && !mark[es[i].claimer]
  {
    forall i: nat | i < |es| ensures Unmarked(es[i], mark) { assert es[i] in es; }
  }

  lemma NothingHeld()
    ensures InOrder([], [], []) && Held([], [], []) == Contents(map[], {}, {})
  {
    assert ViewOf([]) == map[];
  }

  /** The steps of a batch removal, put together. */
  lemma ManyRemoved(ns: seq<Node>, cs: seq<Claim>, os: seq<Out>, es: seq<Claim>, rs: seq<Node>, ds: seq<Claim>, ps: seq<Out>, mark: seq<bool>)
    requires InOrder(ns, cs, os) && |mark| == |ns| && Removed(ns, rs, KeptFrom(mark)) && |ds| == |es|
    requires forall c :: c in es <==> c in cs && Unmarked(c, mark)
    requires forall j: nat :: j < |ds| ==> ds[j] == es[j].(claimer := NewSlot(mark, es[j].claimer))
    requires forall o :: o in ps <==> o in os && o.txid !in MarkedIds(ns, mark)
    ensures InOrder(rs, ds, ps) && Held(rs, ds, ps) == Without(Held(ns, cs, os), MarkedIds(ns, mark))
  {
    hide InOrder, Held, Removed, Without, KeptFrom, MarkedIds, NewSlot;
    SoundParts(ns, cs, os);
    ClaimsFollowMany(cs, es, ds, mark);
    GoneMany(ns, mark);
    MovedSize(ns, rs, KeptFrom(mark));
    RemovalHolds(ns, cs, os, rs, ds, ps, KeptFrom(mark), MarkedIds(ns, mark));
  }

  /** The steps of a removal, put together. */
  lemma OneRemoved(ns: seq<Node>, cs: seq<Claim>, os: seq<Out>, es: seq<Claim>, rs: seq<Node>, ds: seq<Claim>, ps: seq<Out>, ci: nat)
    requires InOrder(ns, cs, os) && ci < |ns| && Removed(ns, rs, SwapFrom(|ns|, ci)) && |ds| == |es|
    requires forall c :: c in es <==> c in cs && c.claimer != ci
    requires forall j: nat :: j < |ds| ==> ds[j] == es[j].(claimer := if es[j].claimer == |ns| - 1 then ci else es[j].claimer)
    requires forall o :: o in ps <==> o in os && o.txid !in {ns[ci].txid}
    ensures InOrder(rs, ds, ps) && Held(rs, ds, ps) == Without(Held(ns, cs, os), {ns[ci].txid})
  {
    hide InOrder, Held, Removed, Without;
    SoundParts(ns, cs, os);
    ClaimsFollowOne(cs, es, ds, |ns|, ci);
    GoneOne(ns, ci);
    MovedSize(ns, rs, SwapFrom(|ns|, ci));
    RemovalHolds(ns, cs, os, rs, ds, ps, SwapFrom(|ns|, ci), {ns[ci].txid});
  }

  lemma MovedSize(ns: seq<Node>, rs: seq<Node>, from: seq<nat>)
    requires Removed(ns, rs, from)
    ensures |rs| == |from|
  {
  }

  lemma SoundParts(ns: seq<Node>, cs: seq<Claim>, os: seq<Out>)
    requires InOrder(ns, cs, os)
    ensures Distinct(ns) && RefsOk(ns) && AncExact(ns) && ClaimsLive(cs, |ns|)
  {
  }
}
