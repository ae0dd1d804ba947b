/** The tables of claims and outputs, and what a removal of transactions leaves of them. */
module PoolTables {
  import opened ChainTable
  import opened PoolViews
  import opened PoolAncestors
  import opened NodeRemoval
  import opened BatchRemoval

  type Outpoint = (Txid, nat)

  type Claims = Table<Claim, Outpoint>

  type Outs = Table<Out, Outpoint>

  /** Which transaction spends which outpoint. */
  ghost function Spends(cs: seq<Claim>, ns: seq<Node>): set<(Outpoint, Txid)> {
    set i: nat | i < |cs| && 0 <= cs[i].claimer < |ns| :: ((cs[i].prev, cs[i].index), ns[cs[i].claimer].txid)
  }

  ghost function OutSet(os: seq<Out>): set<Out> {
    set i: nat | i < |os| :: os[i]
  }

  /** The claims after a move: those whose claimer moved, naming its new slot. */
  ghost predicate ClaimsMoved(cs: seq<Claim>, ds: seq<Claim>, from: seq<nat>) {
    && (forall j: nat :: j < |ds| ==> 0 <= ds[j].claimer < |from| && exists i: nat :: i < |cs| && Follows(cs[i], ds[j], from))
    && (forall i: nat :: i < |cs| && cs[i].claimer in from ==> exists j: nat :: j < |ds| && Follows(cs[i], ds[j], from))
  }

  ghost predicate Follows(c: Claim, d: Claim, from: seq<nat>) {
    0 <= d.claimer < |from| && from[d.claimer] == c.claimer && c.prev == d.prev && c.index == d.index
  }

  /** A claim and the one it became name the same spend. */
  lemma SameSpend(c: Claim, d: Claim, ns: seq<Node>, rs: seq<Node>, from: seq<nat>)
    requires Moved(ns, rs, from) && Follows(c, d, from)
    ensures 0 <= c.claimer < |ns| && 0 <= d.claimer < |rs| && ns[c.claimer].txid == rs[d.claimer].txid && c.claimer in from
  {
    assert NodeMoved(ns[from[d.claimer]], rs[d.claimer], from, |ns|);
  }

  lemma SpendOf(cs: seq<Claim>, ns: seq<Node>, x: (Outpoint, Txid)) returns (i: nat)
    requires x in Spends(cs, ns)
    ensures i < |cs| && 0 <= cs[i].claimer < |ns| && x == ((cs[i].prev, cs[i].index), ns[cs[i].claimer].txid)
  {
    i :| i < |cs| && 0 <= cs[i].claimer < |ns| && x == ((cs[i].prev, cs[i].index), ns[cs[i].claimer].txid);
  }

  lemma IsSpend(cs: seq<Claim>, ns: seq<Node>, i: nat)
    requires i < |cs| && 0 <= cs[i].claimer < |ns|
    ensures ((cs[i].prev, cs[i].index), ns[cs[i].claimer].txid) in Spends(cs, ns)
  {
  }

  /** A move of the nodes and their claims is a removal of the spends of those left behind. */
  lemma SpendsMoved(cs: seq<Claim>, ds: seq<Claim>, ns: seq<Node>, rs: seq<Node>, from: seq<nat>)
    requires Distinct(ns) && Moved(ns, rs, from) && ClaimsMoved(cs, ds, from)
    ensures Spends(ds, rs) == set x | x in Spends(cs, ns) && x.1 !in Gone(ns, from)
  {
    hide Gone, Distinct, Moved, Spends;
    var R := set x | x in Spends(cs, ns) && x.1 !in Gone(ns, from);
    forall x | x in Spends(ds, rs) ensures x in R {
      var j := SpendOf(ds, rs, x);
      var i: nat :| i < |cs| && Follows(cs[i], ds[j], from);
      SameSpend(cs[i], ds[j], ns, rs, from);
      StaysBehind(ns, from, cs[i].claimer);
      IsSpend(cs, ns, i);
    }
    forall x | x in R ensures x in Spends(ds, rs) {
      var i := SpendOf(cs, ns, x);
      NotGone(ns, from, cs[i].claimer);
      var j: nat :| j < |ds| && Follows(cs[i], ds[j], from);
      SameSpend(cs[i], ds[j], ns, rs, from);
      IsSpend(ds, rs, j);
    }
  }

  lemma NotGone(ns: seq<Node>, from: seq<nat>, p: nat)
    requires p < |ns| && ns[p].txid !in Gone(ns, from)
    ensures p in from
  {
  }

  /** No key is there twice. */
  ghost predicate Unique<E(!new), K(!new)>(es: seq<E>, key: E -> K) {
    forall i: nat, j: nat :: i < j < |es| ==> key(es[i]) != key(es[j])
  }

  /** Entries that answer a test removed, each by moving the last one into its place. */
  method DropWhere<E(!new), K(==,!new)>(t: Table<E, K>, bad: E -> bool)
    requires t.Valid() && Unique(t.Entries(), t.key)
    modifies t, t.entries, t.head, t.next
    ensures t.Valid() && Unique(t.Entries(), t.key)
    ensures forall e :: e in t.Entries() <==> e in old(t.Entries()) && !bad(e)
  {
    hide Table.Valid, Table.Entries, Unique, SwapOut;
    ghost var es := t.Entries();
    var i := 0;
    t.Live();
    while i < t.n
      invariant t.Valid() && i <= t.n == |t.Entries()| && Unique(t.Entries(), t.key)
      invariant forall e :: e in t.Entries() && !bad(e) <==> e in es && !bad(e)
      invariant forall e :: e in t.Entries() ==> e in es
      invariant forall j: nat :: j < i ==> !bad(t.Entries()[j])
      decreases t.n - i
    {
      ghost var now := t.Entries();
      t.Live();
      assert t.entries[i] == now[i];
      if bad(t.entries[i]) {
        t.RemoveAt(i);
        SwapOutHas(now, i);
        SwapOutUnique(now, i, t.key);
        t.Live();
      } else {
        i := i + 1;
      }
    }
  }

  lemma SwapOutUnique<E(!new), K(!new)>(es: seq<E>, i: nat, key: E -> K)
    requires i < |es| && Unique(es, key)
    ensures Unique(SwapOut(es, i), key)
  {
    SwapOutIs(es, i);
    var ss := SwapOut(es, i);
    forall a: nat, b: nat | a < b < |ss| ensures key(ss[a]) != key(ss[b]) {
      var x, y := if a == i then |es| - 1 else a, if b == i then |es| - 1 else b;
      if x < y { assert key(es[x]) != key(es[y]); } else { assert key(es[y]) != key(es[x]); }
    }
  }

  lemma SwapOutHas<E>(es: seq<E>, i: nat)
    requires i < |es|
    ensures |SwapOut(es, i)| == |es| - 1
    ensures forall e :: e in SwapOut(es, i) ==> e in es
    ensures forall e :: e in es && e != es[i] ==> e in SwapOut(es, i)
    ensures forall j: nat :: j < i ==> SwapOut(es, i)[j] == es[j]
  {
    SwapOutIs(es, i);
    var ss := SwapOut(es, i);
    forall e | e in es && e != es[i] ensures e in ss {
      var k: nat :| k < |es| && es[k] == e;
      if k == |es| - 1 { assert ss[i] == e; } else { assert ss[k] == e; }
    }
    forall e | e in ss ensures e in es {
      var k: nat :| k < |ss| && ss[k] == e;
      if k == i { assert e == es[|es| - 1]; } else { assert e == es[k]; }
    }
  }

  /** Marked entries removed in one pass, the others moved up in order, and the index built again. */
  method DropMarked<E(!new), K(==,!new)>(t: Table<E, K>, mark: seq<bool>)
    requires t.Valid() && |mark| == t.n && Unique(t.Entries(), t.key)
    modifies t, t.entries, t.head, t.next
    ensures t.Valid() && t.Entries() == Kept(old(t.Entries()), mark) && Unique(t.Entries(), t.key)
  {
    hide Threaded, Kept, Unique;
    ghost var es := t.Entries();
    var w := Compact(t.entries, t.n, mark);
    t.Rebuild(w);
    KeptUnique(es, mark, t.key);
  }

  lemma KeptUnique<E(!new), K(!new)>(es: seq<E>, mark: seq<bool>, key: E -> K)
    requires |mark| == |es| && Unique(es, key)
    ensures Unique(Kept(es, mark), key)
  {
    hide Kept, KeptFrom;
    KeptAre(es, mark);
    var ks, f := Kept(es, mark), KeptFrom(mark);
    forall a: nat, b: nat | a < b < |ks| ensures key(ks[a]) != key(ks[b]) {
      assert f[a] < f[b];
    }
  }

  lemma KeptHas<E(!new)>(es: seq<E>, mark: seq<bool>)
    requires |mark| == |es|
    ensures forall e :: e in Kept(es, mark) ==> exists i: nat :: i < |es| && es[i] == e && !mark[i]
    ensures forall i: nat :: i < |es| && !mark[i] ==> es[i] in Kept(es, mark)
  {
    hide Kept, KeptFrom;
    KeptAre(es, mark);
    var ks, f := Kept(es, mark), KeptFrom(mark);
    forall i: nat | i < |es| && !mark[i] ensures es[i] in ks {
      var j: nat :| j < |f| && f[j] == i;
      assert ks[j] == es[i];
    }
    forall e | e in ks ensures exists i: nat :: i < |es| && es[i] == e && !mark[i] {
      var j: nat :| j < |ks| && ks[j] == e;
      assert es[f[j]] == e && !mark[f[j]];
    }
  }

  /** Claimers' slots taken through a renaming. */
  method RenumberClaims(t: Claims, f: int -> int)
    requires t.Valid() && ClaimKeyed(t)
    modifies t.entries
    ensures t.Valid() && |t.Entries()| == |old(t.Entries())|
    ensures forall j: nat :: j < t.n ==> t.Entries()[j] == old(t.Entries())[j].(claimer := f(old(t.Entries())[j].claimer))
  {
    hide Threaded;
    ghost var cs := t.Entries();
    for i := 0 to t.n
      invariant t.Valid() && |t.Entries()| == |cs|
      invariant forall j: nat :: j < |cs| ==> t.Entries()[j] == if j < i then cs[j].(claimer := f(cs[j].claimer)) else cs[j]
    {
      var c := t.entries[i];
      assert c == t.Entries()[i];
      t.Set(i, c.(claimer := f(c.claimer)));
    }
  }

  ghost predicate ClaimKeyed(t: Claims) {
    forall c: Claim :: t.key(c) == (c.prev, c.index)
  }

  ghost predicate OutKeyed(t: Outs) {
    forall o: Out :: t.key(o) == (o.txid, o.index)
  }

  /** The claims of the node at a slot dropped. */
  method DropClaimsOf(t: Claims, ci: nat)
    requires t.Valid() && Unique(t.Entries(), t.key)
    modifies t, t.entries, t.head, t.next
    ensures t.Valid() && Unique(t.Entries(), t.key)
    ensures forall c :: c in t.Entries() <==> c in old(t.Entries()) && c.claimer != ci
  {
    hide Table.Valid, Table.Entries, Unique;
    DropWhere(t, (c: Claim) => c.claimer == ci);
  }

  /** The outputs of a transaction dropped. */
  method DropOutsOf(t: Outs, ct: Txid)
    requires t.Valid() && Unique(t.Entries(), t.key)
    modifies t, t.entries, t.head, t.next
    ensures t.Valid() && Unique(t.Entries(), t.key)
    ensures forall o :: o in t.Entries() <==> o in old(t.Entries()) && o.txid !in {ct}
  {
    hide Table.Valid, Table.Entries, Unique;
    DropWhere(t, (o: Out) => o.txid == ct);
  }

  /** Claims that name the slot a node left follow it to its new one. */
  method FollowClaims(t: Claims, last: nat, ci: nat)
    requires t.Valid() && ClaimKeyed(t) && Unique(t.Entries(), t.key)
    modifies t.entries
    ensures t.Valid() && |t.Entries()| == |old(t.Entries())| && Unique(t.Entries(), t.key)
    ensures forall j: nat :: j < |t.Entries()| ==>
      t.Entries()[j] == old(t.Entries())[j].(claimer := if old(t.Entries())[j].claimer == last then ci else old(t.Entries())[j].claimer)
  {
    hide Table.Valid, Table.Entries, Unique;
    ghost var es := t.Entries();
    RenumberClaims(t, (p: int) => if p == last then ci else p);
    t.Live();
    SameKeysUnique(es, t.Entries(), t.key);
  }

  lemma SameKeysUnique(es: seq<Claim>, ds: seq<Claim>, key: Claim -> Outpoint)
    requires |es| == |ds| && Unique(es, key) && forall j: nat :: j < |es| ==> key(ds[j]) == key(es[j])
    ensures Unique(ds, key)
  {
  }

  /** The claims of marked nodes dropped, the others kept in order. */
  method DropClaimsMarked(t: Claims, mark: seq<bool>)
    requires t.Valid() && Unique(t.Entries(), t.key) && forall i: nat :: i < |t.Entries()| ==> 0 <= t.Entries()[i].claimer < |mark|
    modifies t, t.entries, t.head, t.next
    ensures t.Valid() && Unique(t.Entries(), t.key)
    ensures forall c :: c in t.Entries() <==> c in old(t.Entries()) && mark[c.claimer] == false
  {
    hide Table.Valid, Table.Entries, Unique, Kept;
    ghost var cs := t.Entries();
    t.Live();
    var drop: seq<bool> := [];
    for i := 0 to t.n
      modifies {}
      invariant |drop| == i && forall j: nat :: j < i ==> drop[j] == mark[cs[j].claimer]
    {
      assert cs[i] == t.entries[i];
      drop := drop + [mark[t.entries[i].claimer]];
    }
    DropMarked(t, drop);
    KeptHas(cs, drop);
  }

  /** The outputs of marked transactions dropped, each looked up by its txid. */
  method DropOutsMarked(t: Outs, nodes: Nodes, mark: seq<bool>)
    requires t.Valid() && Unique(t.Entries(), t.key) && nodes.Valid() && Keyed(nodes) && Distinct(nodes.Entries()) && |mark| == nodes.n
    requires {t as object, t.entries, t.head, t.next} !! {nodes as object, nodes.entries, nodes.head, nodes.next}
    modifies t, t.entries, t.head, t.next
    ensures t.Valid() && Unique(t.Entries(), t.key)
    ensures |mark| == |old(nodes.Entries())|
    ensures forall o :: o in t.Entries() <==> o in old(t.Entries()) && o.txid !in MarkedIds(old(nodes.Entries()), mark)
  {
    hide Table.Valid, Table.Entries, Unique, Kept, Distinct;
    ghost var os, ns := t.Entries(), nodes.Entries();
    t.Live();
    nodes.Live();
    var drop: seq<bool> := [];
    for i := 0 to t.n
      modifies {}
      invariant |drop| == i && forall j: nat :: j < i ==> drop[j] == (os[j].txid in MarkedIds(ns, mark))
    {
      assert os[i] == t.entries[i];
      var owner := nodes.Find(t.entries[i].txid);
      OwnerMarked(ns, mark, os[i].txid, owner);
      drop := drop + [owner >= 0 && mark[owner]];
    }
    DropMarked(t, drop);
    KeptHas(os, drop);
  }

  lemma OwnerMarked(ns: seq<Node>, mark: seq<bool>, x: Txid, owner: int)
    requires Distinct(ns) && |mark| == |ns|
    requires owner == -1 || (0 <= owner < |ns| && ns[owner].txid == x)
    requires owner == -1 <==> forall i: nat :: i < |ns| ==> ns[i].txid != x
    ensures (owner >= 0 && mark[owner]) <==> x in MarkedIds(ns, mark)
  {
    if x in MarkedIds(ns, mark) {
      var i: nat :| i < |ns| && mark[i] && ns[i].txid == x;
      Differ(ns, i, owner);
    }
  }

  /** Claims follow their claimers through the remap. */
  method FollowRemap(t: Claims, mark: seq<bool>)
    requires t.Valid() && ClaimKeyed(t) && Unique(t.Entries(), t.key)
    requires forall i: nat :: i < |t.Entries()| ==> 0 <= t.Entries()[i].claimer < |mark| && !mark[t.Entries()[i].claimer]
    modifies t.entries
    ensures t.Valid() && |t.Entries()| == |old(t.Entries())| && Unique(t.Entries(), t.key)
    ensures forall j: nat :: j < |t.Entries()| ==>
      t.Entries()[j] == old(t.Entries())[j].(claimer := NewSlot(mark, old(t.Entries())[j].claimer))
  {
    hide Table.Valid, Table.Entries, Unique, KeptFrom;
    ghost var es := t.Entries();
    var remap := BuildRemap(mark);
    RenumberClaims(t, (p: int) => if 0 <= p < |remap| && remap[p] != NONE then remap[p] else p);
    t.Live();
    SameKeysUnique(es, t.Entries(), t.key);
  }
}
