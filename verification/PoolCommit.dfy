/** A transaction entered: its outputs, its claims, its node. */
module PoolCommit {
  import opened ChainTable
  import opened PoolViews
  import opened PoolAncestors
  import opened NodeRemoval
  import opened PoolTables
  import opened PoolState
  import opened PoolInsert
  import opened CacheMoves

  /** The contents with one more transaction. */
  function With(c: Contents, x: Txid, e: Entry, ins: seq<Outpoint>, vals: seq<nat>): Contents {
    Contents(c.graph[x := e], c.spends + (set op | op in ins :: (op, x)), c.outs + (set o | o in NewOuts(x, vals)))
  }

  function NewOuts(x: Txid, vals: seq<nat>): (r: seq<Out>)
    ensures |r| == |vals| && forall i: nat :: i < |vals| ==> r[i] == Out(x, i, vals[i])
  {
    seq(|vals|, i requires 0 <= i < |vals| => Out(x, i, vals[i]))
  }

  function NewClaims(ins: seq<Outpoint>, me: nat): (r: seq<Claim>)
    ensures |r| == |ins| && forall i: nat :: i < |ins| ==> r[i] == Claim(ins[i].0, ins[i].1, me)
  {
    seq(|ins|, i requires 0 <= i < |ins| => Claim(ins[i].0, ins[i].1, me))
  }

  ghost predicate NoRepeats<T(!new)>(s: seq<T>) {
    forall i: nat, j: nat :: i < j < |s| ==> s[i] != s[j]
  }

  lemma UniqueWith<E(!new), K(!new)>(es: seq<E>, fs: seq<E>, key: E -> K)
    requires Unique(es, key) && Unique(fs, key)
    requires forall i: nat, j: nat :: i < |es| && j < |fs| ==> key(es[i]) != key(fs[j])
    ensures Unique(es + fs, key)
  {
  }

  /** Entries put after the others, one at a time. */
  method AddAll<E(!new), K(==,!new)>(t: Table<E, K>, fs: seq<E>)
    requires t.Valid() && t.n + |fs| <= t.entries.Length
    modifies t, t.entries, t.head, t.next
    ensures t.Valid() && t.Entries() == old(t.Entries()) + fs
  {
    hide Table.Valid, Table.Entries;
    ghost var es := t.Entries();
    t.Live();
    assert es + fs[..0] == es;
    for i := 0 to |fs|
      invariant t.Valid() && t.Entries() == es + fs[..i] && t.n == |es| + i
    {
      t.Add(fs[i]);
      t.Live();
      assert es + fs[..i] + [fs[i]] == es + fs[..i + 1];
    }
    assert fs[..|fs|] == fs;
  }

  lemma SpendsWith(ns: seq<Node>, cs: seq<Claim>, nd: Node, ins: seq<Outpoint>)
    requires ClaimsLive(cs, |ns|)
    ensures ClaimsLive(cs + NewClaims(ins, |ns|), |ns| + 1)
    ensures Spends(cs + NewClaims(ins, |ns|), ns + [nd]) == Spends(cs, ns) + (set op | op in ins :: (op, nd.txid))
  {
    var ds, ms := cs + NewClaims(ins, |ns|), ns + [nd];
    var A, B := Spends(ds, ms), Spends(cs, ns) + (set op | op in ins :: (op, nd.txid));
    forall x | x in A ensures x in B {
      var i := SpendOf(ds, ms, x);
      if i < |cs| { IsSpend(cs, ns, i); } else { assert ins[i - |cs|] in ins; }
    }
    forall x | x in B ensures x in A {
      if x in Spends(cs, ns) {
        var i := SpendOf(cs, ns, x);
        assert ds[i] == cs[i];
        IsSpend(ds, ms, i);
      } else {
        var i: nat :| i < |ins| && ins[i] == x.0;
        assert ds[|cs| + i] == NewClaims(ins, |ns|)[i];
        IsSpend(ds, ms, |cs| + i);
      }
    }
  }

  lemma OutsWith(ns: seq<Node>, os: seq<Out>, nd: Node, vals: seq<nat>)
    requires OutsLive(os, ns)
    ensures OutsLive(os + NewOuts(nd.txid, vals), ns + [nd])
    ensures OutSet(os + NewOuts(nd.txid, vals)) == OutSet(os) + (set o | o in NewOuts(nd.txid, vals))
  {
    TxidsWith(ns, nd);
    var fs := NewOuts(nd.txid, vals);
    var ps := os + fs;
    forall o | o in OutSet(os) + (set o | o in fs) ensures o in OutSet(ps) {
      assert o in ps;
    }
    forall o | o in OutSet(ps) ensures o in OutSet(os) + (set o | o in fs) {
      assert o in ps;
    }
  }

  lemma FiguresWith(ns: seq<Node>, nd: Node)
    requires Distinct(ns) && RefsOk(ns) && Fits(ns, nd) && AncExact(ns) && Exact(ns + [nd], |ns|, nd.ancCnt, nd.ancBytes)
    ensures AncExact(ns + [nd])
  {
    hide Exact, Distinct, RefsOk, Fits;
    var ms := ns + [nd];
    forall i: nat | i < |ms| ensures Exact(ms, i, ms[i].ancCnt, ms[i].ancBytes) {
      if i < |ns| { FiguresStayWith(ns, nd, i); }
    }
  }

  /** The three tables with a transaction entered are a pool that holds it. */
  lemma Committed(ns: seq<Node>, cs: seq<Claim>, os: seq<Out>, nd: Node, ins: seq<Outpoint>, vals: seq<nat>)
    requires InOrder(ns, cs, os) && Fits(ns, nd) && Exact(ns + [nd], |ns|, nd.ancCnt, nd.ancBytes)
    ensures InOrder(ns + [nd], cs + NewClaims(ins, |ns|), os + NewOuts(nd.txid, vals))
    ensures Held(ns + [nd], cs + NewClaims(ins, |ns|), os + NewOuts(nd.txid, vals))
      == With(Held(ns, cs, os), nd.txid, Entry(nd.size, nd.fee, Ids(ns, nd.parents)), ins, vals)
  {
    hide Exact, Distinct, RefsOk, Fits, AncExact, ViewOf, Spends, OutSet, Ids, ClaimsLive, OutsLive, NewClaims, NewOuts;
    ViewWith(ns, nd);
    SpendsWith(ns, cs, nd, ins);
    OutsWith(ns, os, nd, vals);
    FiguresWith(ns, nd);
  }

  lemma ClaimsApart(cs: seq<Claim>, ins: seq<Outpoint>, me: nat, key: Claim -> Outpoint)
    requires Unique(cs, key) && NoRepeats(ins) && forall c: Claim :: key(c) == (c.prev, c.index)
    requires forall c :: c in cs ==> (c.prev, c.index) !in ins
    ensures Unique(cs + NewClaims(ins, me), key)
  {
    var fs := NewClaims(ins, me);
    forall i: nat, j: nat | i < |cs| && j < |fs| ensures key(cs[i]) != key(fs[j]) {
      assert cs[i] in cs && ins[j] in ins;
    }
    UniqueWith(cs, fs, key);
  }

  lemma OutsApart(os: seq<Out>, ns: seq<Node>, x: Txid, vals: seq<nat>, key: Out -> Outpoint)
    requires Unique(os, key) && OutsLive(os, ns) && x !in Txids(ns) && forall o: Out :: key(o) == (o.txid, o.index)
    ensures Unique(os + NewOuts(x, vals), key)
  {
    UniqueWith(os, NewOuts(x, vals), key);
  }

  /** Enters a transaction whose figures are known and whose outpoints nobody claims. */
  method Commit(p: Pool, nd: Node, ins: seq<Outpoint>, vals: seq<nat>)
    requires p.Valid() && Fits(p.nodes.Entries(), nd) && Exact(p.nodes.Entries() + [nd], p.nodes.n, nd.ancCnt, nd.ancBytes)
    requires p.nodes.n < p.nodes.entries.Length && nd.ck == Stale
    requires p.claims.n + |ins| <= p.claims.entries.Length && p.outs.n + |vals| <= p.outs.entries.Length
    requires NoRepeats(ins) && forall c :: c in p.claims.Entries() ==> (c.prev, c.index) !in ins
    modifies Parts(p.nodes), Parts(p.claims), Parts(p.outs)
    ensures p.Valid()
    ensures p.Now() == With(old(p.Now()), nd.txid, Entry(nd.size, nd.fee, Ids(old(p.nodes.Entries()), nd.parents)), ins, vals)
    ensures p.nodes.Entries() == old(p.nodes.Entries()) + [nd] && CacheStays(old(p.nodes.Entries()), p.nodes.Entries())
  {
    hide Table.Valid, Table.Entries, InOrder, Held, Unique, Exact, Fits, Ids, With, CacheStays;
    ghost var ns, cs, os := p.nodes.Entries(), p.claims.Entries(), p.outs.Entries();
    p.nodes.Live();
    Absent(ns, cs, os, nd);
    OutsApart(os, ns, nd.txid, vals, p.outs.key);
    AddAll(p.outs, NewOuts(nd.txid, vals));
    ClaimsApart(cs, ins, p.nodes.n, p.claims.key);
    AddAll(p.claims, NewClaims(ins, p.nodes.n));
    p.nodes.Add(nd);
    Committed(ns, cs, os, nd, ins, vals);
    EnteredStays(ns, cs, os, nd);
  }

  lemma Absent(ns: seq<Node>, cs: seq<Claim>, os: seq<Out>, nd: Node)
    requires InOrder(ns, cs, os) && Fits(ns, nd)
    ensures OutsLive(os, ns) && nd.txid !in Txids(ns)
  {
  }

  lemma EnteredStays(ns: seq<Node>, cs: seq<Claim>, os: seq<Out>, nd: Node)
    requires InOrder(ns, cs, os) && Fits(ns, nd) && nd.ck == Stale
    ensures CacheStays(ns, ns + [nd])
  {
    hide CacheStays;
    NewcomerStays(ns, nd);
  }
}
