/** The worst chunk from what the nodes keep, stale clusters walked again first. */
module CachedChunk {
  import opened Bytes
  import opened ChainTable
  import opened PoolViews
  import opened PoolAncestors
  import opened NodeRemoval
  import opened PoolState
  import opened Marking
  import opened ClusterOrder
  import opened ChunkCache
  import opened WorstChunk

  /** One cluster's members all keep what a walk has found, under a new id. */
  ghost predicate Renewed(ns: seq<Node>, ms: seq<Node>, last: Linearizer, i: nat, cid: nat)
    requires i < |ns|
  {
    && |ms| == |ns|
    && forall j: nat :: j < |ns| ==>
      ms[j] == if j in Comp(ns, i) then ns[j].(ck := Keeps(cid, LastOf(ns, last, i), Listed(ns, i), j)) else ns[j]
  }

  lemma RenewedSame(ns: seq<Node>, ms: seq<Node>, last: Linearizer, i: nat, cid: nat)
    requires i < |ns| && Renewed(ns, ms, last, i, cid)
    ensures CkOnly(ns, ms)
  {
    hide Comp, LastOf, Listed;
  }

  /** A cluster not renewed is as it was. */
  lemma Untouched(ns: seq<Node>, ms: seq<Node>, last: Linearizer, i: nat, cid: nat, j: nat)
    requires i < |ns| && j < |ns| && Renewed(ns, ms, last, i, cid) && j !in Comp(ns, i)
    ensures forall x: nat :: x in Comp(ns, j) ==> x < |ns| && ms[x] == ns[x]
  {
    hide LastOf, Listed, Comp;
    CompIs(ns, j);
    forall x: nat | x in Comp(ns, j) ensures ms[x] == ns[x] {
      SameComp(ns, j, x);
      if x in Comp(ns, i) { SameComp(ns, i, x); }
    }
  }

  lemma RenewedTrue(ns: seq<Node>, ms: seq<Node>, last: Linearizer, top: nat, i: nat, j: nat)
    requires i < |ns| && j < |ns| && CacheOk(ns, last, top) && Renewed(ns, ms, last, i, top + 1) && |ms| == |ns| && Settled(ms, j)
    ensures TrueAt(ms, last, j)
  {
    hide LastOf, Listed, Comp;
    RenewedSame(ns, ms, last, i, top + 1);
    SameClusters(ns, ms, last, j);
    CompIs(ns, j);
    if j in Comp(ns, i) {
      SameComp(ns, i, j);
      SameList(ns, last, i, j);
    } else {
      Untouched(ns, ms, last, i, top + 1, j);
      assert Settled(ns, j) by { forall x: nat | x in Comp(ns, j) ensures ns[x].ck.Fresh? { assert x in Comp(ms, j); } }
      assert TrueAt(ns, last, j);
    }
  }

  lemma SameList(ns: seq<Node>, last: Linearizer, i: nat, j: nat)
    requires i < |ns| && j < |ns| && Comp(ns, i) == Comp(ns, j)
    ensures Listed(ns, i) == Listed(ns, j) && LastOf(ns, last, i) == LastOf(ns, last, j)
  {
  }

  /** A renewed cluster is told from all others by its id. */
  lemma RenewedApart(ns: seq<Node>, ms: seq<Node>, last: Linearizer, top: nat, i: nat, j: nat, k: nat)
    requires i < |ns| && j < |ns| && k < |ns| && CacheOk(ns, last, top) && Renewed(ns, ms, last, i, top + 1) && |ms| == |ns| && SameId(ms, j, k)
    ensures Comp(ms, j) == Comp(ms, k)
  {
    hide LastOf, Listed, Comp;
    RenewedSame(ns, ms, last, i, top + 1);
    SameClusters(ns, ms, last, j); SameClusters(ns, ms, last, k);
    CompIs(ns, j); CompIs(ns, k);
    if j in Comp(ns, i) { SameComp(ns, i, j); } else { StillSettled(ns, ms, last, top, i, j); }
    if k in Comp(ns, i) { SameComp(ns, i, k); } else { StillSettled(ns, ms, last, top, i, k); }
    if j !in Comp(ns, i) && k !in Comp(ns, i) { assert SameId(ns, j, k); }
  }

  lemma StillSettled(ns: seq<Node>, ms: seq<Node>, last: Linearizer, top: nat, i: nat, j: nat)
    requires i < |ns| && j < |ns| && CacheOk(ns, last, top) && Renewed(ns, ms, last, i, top + 1) && |ms| == |ns| && Settled(ms, j)
    requires j !in Comp(ns, i)
    ensures Settled(ns, j) && ms[j] == ns[j] && ns[j].ck.Fresh? && ns[j].ck.cid <= top
  {
    hide LastOf, Listed, Comp;
    RenewedSame(ns, ms, last, i, top + 1);
    SameClusters(ns, ms, last, j);
    CompIs(ns, j);
    Untouched(ns, ms, last, i, top + 1, j);
    forall x: nat | x in Comp(ns, j) ensures ns[x].ck.Fresh? { assert x in Comp(ms, j); }
  }

  /** Renewing a cluster under a new id keeps the caches true. */
  lemma RenewalKeeps(ns: seq<Node>, ms: seq<Node>, last: Linearizer, top: nat, i: nat)
    requires i < |ns| && CacheOk(ns, last, top) && Renewed(ns, ms, last, i, top + 1)
    ensures CacheOk(ms, last, top + 1) && ms[i].ck.Fresh? && CkOnly(ns, ms)
    ensures forall j: nat :: j < |ns| && ns[j].ck.Fresh? ==> ms[j].ck.Fresh?
  {
    hide LastOf, Listed, Comp, TrueAt, Settled;
    RenewedSame(ns, ms, last, i, top + 1);
    CompIs(ns, i);
    forall j: nat | j < |ms| && Settled(ms, j) ensures TrueAt(ms, last, j) { RenewedTrue(ns, ms, last, top, i, j); }
    forall j: nat, k: nat | j < |ms| && k < |ms| && SameId(ms, j, k) ensures Comp(ms, j) == Comp(ms, k) {
      RenewedApart(ns, ms, last, top, i, j, k);
    }
  }

  lemma CompFits(ns: seq<Node>, i: nat, j: nat)
    requires Scorable(ns) && i < |ns| && j in Comp(ns, i)
    ensures KidsFit(Adj(ns)) && |Marking.Below(Adj(ns), {j})| <= CLUSTER_MAX && SetOf(Members(Adj(ns), j)) == Comp(ns, i)
  {
    AdjFits(ns);
    SameComp(ns, i, j);
    FitsTables(ns, j);
    MembersAre(Adj(ns), j);
  }

  lemma LeastListed(ns: seq<Node>, i: nat, rep: nat)
    requires i < |ns| && rep in Comp(ns, i) && forall x: nat :: x in Comp(ns, i) ==> rep <= x
    ensures KidsFit(Adj(ns)) && rep < |ns| && Listed(ns, i) == Members(Adj(ns), rep)
  {
    AdjFits(ns);
  }

  /** The members of the cluster of a slot, from its lowest slot. */
  method FromLowest(ns: seq<Node>, adj: seq<seq<nat>>, i: nat) returns (mem: seq<nat>)
    requires adj == Adj(ns) && i < |ns| && Scorable(ns)
    ensures mem == Listed(ns, i)
  {
    hide Adj, Comp, Listed, Scorable, Members, Marking.Below;
    CompIs(ns, i);
    CompFits(ns, i, i);
    mem := Gather(adj, i);
    var rep := i;
    for m := 0 to |mem|
      invariant rep in Comp(ns, i) && forall k: nat :: k < m ==> rep <= mem[k]
    {
      assert mem[m] in SetOf(mem);
      if mem[m] < rep { rep := mem[m]; }
    }
    forall x: nat | x in Comp(ns, i) ensures rep <= x {
      assert x in SetOf(mem);
      var k: nat :| k < |mem| && mem[k] == x;
    }
    LeastListed(ns, i, rep);
    if rep != i {
      CompFits(ns, i, rep);
      mem := Gather(adj, rep);
    }
  }

  ghost predicate Painted(ns: seq<Node>, ms: seq<Node>, done: seq<nat>, ck: Cache) {
    |ms| == |ns| && forall j: nat :: j < |ns| ==> ms[j] == if j in done then ns[j].(ck := ck) else ns[j]
  }

  /** The same note made at every member. */
  method Paint(t: Nodes, mem: seq<nat>, ck: Cache)
    requires t.Valid() && Keyed(t) && forall k: nat :: k < |mem| ==> mem[k] < t.n
    modifies t.entries
    ensures t.Valid() && Painted(old(t.Entries()), t.Entries(), mem, ck)
  {
    hide Threaded;
    ghost var ns := t.Entries();
    for m := 0 to |mem|
      invariant t.Valid() && Painted(ns, t.Entries(), mem[..m], ck)
    {
      ghost var ms := t.Entries();
      assert t.entries[mem[m]] == ms[mem[m]];
      t.Set(mem[m], t.entries[mem[m]].(ck := ck));
      PaintOne(ns, ms, mem, m, ck);
    }
    assert mem[..|mem|] == mem;
  }

  lemma PaintOne(ns: seq<Node>, ms: seq<Node>, mem: seq<nat>, m: nat, ck: Cache)
    requires m < |mem| && mem[m] < |ns| && Painted(ns, ms, mem[..m], ck)
    ensures Painted(ns, ms[mem[m] := ms[mem[m]].(ck := ck)], mem[..m + 1], ck)
  {
    assert mem[..m + 1] == mem[..m] + [mem[m]];
  }

  /** A cluster walked again, and what was found kept at its members. */
  method Renew(t: Nodes, adj: seq<seq<nat>>, last: Linearizer, i: nat, cid: nat)
    requires t.Valid() && Keyed(t) && i < t.n && adj == Adj(t.Entries()) && Scorable(t.Entries()) && Sensible(last)
    modifies t.entries
    ensures t.Valid() && i < |old(t.Entries())| && Renewed(old(t.Entries()), t.Entries(), last, i, cid)
  {
    hide Threaded, Adj, Listed, LastOf, Scorable, Sensible, Comp, Picture, InChunk, Keyed;
    ghost var ns := t.Entries();
    var now := t.entries[..t.n];
    var mem := FromLowest(now, adj, i);
    ListedIs(ns, i);
    var r := last(Picture(now, mem));
    LastIs(ns, last, i);
    if r.None? {
      Paint(t, mem, Fresh(cid, None, false));
    } else {
      Weighs(ns, last, i);
      Paint(t, mem, Fresh(cid, Some((r.value.fee, r.value.size)), false));
      ghost var ms := t.Entries();
      var slots := ChunkSlots(mem, r.value);
      ChunkSlotsAre(mem, r.value);
      Paint(t, slots, Fresh(cid, Some((r.value.fee, r.value.size)), true));
      BothPainted(ns, ms, t.Entries(), last, i, cid, mem, slots);
    }
    forall j: nat | j < |ns| ensures j in mem <==> j in Comp(ns, i) { assert j in SetOf(mem) <==> j in mem; }
  }

  lemma BothPainted(ns: seq<Node>, ms: seq<Node>, es: seq<Node>, last: Linearizer, i: nat, cid: nat, mem: seq<nat>, slots: seq<nat>)
    requires i < |ns| && mem == Listed(ns, i) && LastOf(ns, last, i).Some?
    requires forall j: nat :: j in slots <==> InChunk(mem, LastOf(ns, last, i).value, j)
    requires Painted(ns, ms, mem, Fresh(cid, Some((LastOf(ns, last, i).value.fee, LastOf(ns, last, i).value.size)), false))
    requires Painted(ms, es, slots, Fresh(cid, Some((LastOf(ns, last, i).value.fee, LastOf(ns, last, i).value.size)), true))
    ensures Renewed(ns, es, last, i, cid)
  {
    hide Listed, LastOf, Comp;
    ListedIs(ns, i);
    forall j: nat | j < |ns|
      ensures es[j] == if j in Comp(ns, i) then ns[j].(ck := Keeps(cid, LastOf(ns, last, i), mem, j)) else ns[j]
    {
      assert j in SetOf(mem) <==> j in mem;
    }
  }

  lemma ChunkSlotsAre(mem: seq<nat>, c: Chunk)
    requires forall k: nat :: k < |c.places| ==> c.places[k] < |mem|
    ensures forall j: nat :: j in ChunkSlots(mem, c) <==> InChunk(mem, c, j)
  {
    var r := ChunkSlots(mem, c);
    forall j: nat | InChunk(mem, c, j) ensures j in r {
      var q: nat :| q < |c.places| && c.places[q] < |mem| && mem[c.places[q]] == j;
      assert r[q] == j;
    }
  }

  ghost predicate AllFresh(ns: seq<Node>, n: nat) {
    n <= |ns| && forall i: nat :: i < n ==> ns[i].ck.Fresh?
  }

  lemma StaysScorable(ns: seq<Node>, ms: seq<Node>)
    requires CkOnly(ns, ms) && Scorable(ns)
    ensures Scorable(ms) && Adj(ms) == Adj(ns)
  {
    hide Comp;
    AdjCkOnly(ns, ms);
    forall i: nat | i < |ms| ensures |Comp(ms, i)| <= CLUSTER_MAX && ms[i].size > 0 {
      SameClusters(ns, ms, q => None, i);
      assert ms[i] == ns[i].(ck := ms[i].ck);
      assert |Comp(ns, i)| <= CLUSTER_MAX && ns[i].size > 0;
    }
  }

  lemma CkOnlyOn(ns: seq<Node>, ms: seq<Node>, es: seq<Node>)
    requires CkOnly(ns, ms) && CkOnly(ms, es)
    ensures CkOnly(ns, es)
  {
    forall i: nat | i < |ns| ensures es[i] == ns[i].(ck := es[i].ck) {
      assert ms[i] == ns[i].(ck := ms[i].ck) && es[i] == ms[i].(ck := es[i].ck);
    }
  }

  /** Every stale cluster renewed. */
  method RenewAll(t: Nodes, adj: seq<seq<nat>>, last: Linearizer, top0: nat) returns (top: nat)
    requires t.Valid() && Keyed(t) && adj == Adj(t.Entries()) && Scorable(t.Entries()) && Sensible(last) && CacheOk(t.Entries(), last, top0)
    modifies t.entries
    ensures t.Valid() && CkOnly(old(t.Entries()), t.Entries()) && CacheOk(t.Entries(), last, top) && AllFresh(t.Entries(), t.n)
  {
    hide Table.Valid, Table.Entries, Adj, Scorable, Sensible, CacheOk, Keyed, CkOnly, AllFresh, Renewed;
    ghost var ns := t.Entries();
    top := top0;
    t.Live();
    StartRenewal(ns);
    for i := 0 to t.n
      invariant t.Valid() && CkOnly(ns, t.Entries()) && CacheOk(t.Entries(), last, top) && AllFresh(t.Entries(), i)
    {
      ghost var ms := t.Entries();
      t.Live();
      StaysScorable(ns, ms);
      if t.entries[i].ck.Stale? {
        Renew(t, adj, last, i, top + 1);
        RenewStep(ns, ms, t.Entries(), last, top, i);
        top := top + 1;
      } else {
        FreshNext(ms, i);
      }
    }
  }

  lemma StartRenewal(ns: seq<Node>)
    ensures CkOnly(ns, ns) && AllFresh(ns, 0)
  {
  }

  lemma FreshNext(ns: seq<Node>, i: nat)
    requires AllFresh(ns, i) && i < |ns| && ns[i].ck.Fresh?
    ensures AllFresh(ns, i + 1)
  {
  }

  lemma RenewStep(ns: seq<Node>, ms: seq<Node>, es: seq<Node>, last: Linearizer, top: nat, i: nat)
    requires i < |ms| && CkOnly(ns, ms) && CacheOk(ms, last, top) && AllFresh(ms, i) && Renewed(ms, es, last, i, top + 1)
    ensures CkOnly(ns, es) && CacheOk(es, last, top + 1) && AllFresh(es, i + 1)
  {
    hide CacheOk, Renewed;
    RenewalKeeps(ms, es, last, top, i);
    CkOnlyOn(ns, ms, es);
  }

  /** The ids of the clusters to pass over: the excluded have a part in their last chunks. */
  ghost predicate SkipIs(ns: seq<Node>, excl: seq<Txid>, skip: set<nat>) {
    && (forall x: nat :: x < |ns| && ns[x].txid in excl && InLast(ns[x]) ==> ns[x].ck.cid in skip)
    && (forall c :: c in skip ==> SkipFrom(ns, excl, c))
  }

  predicate InLast(nd: Node) {
    nd.ck.Fresh? && nd.ck.inLast
  }

  ghost predicate SkipFrom(ns: seq<Node>, excl: seq<Txid>, c: nat) {
    exists x: nat :: x < |ns| && ns[x].txid in excl && InLast(ns[x]) && ns[x].ck.cid == c
  }

  method Skips(t: Nodes, excl: seq<Txid>) returns (skip: set<nat>)
    requires t.Valid() && Keyed(t) && Distinct(t.Entries())
    ensures SkipIs(t.Entries(), excl, skip)
  {
    hide Table.Valid, Table.Entries, Keyed, Distinct, SkipIs;
    skip := {};
    ghost var ns := t.Entries();
    t.Live();
    NoneSkipped(ns, excl);
    for e := 0 to |excl|
      invariant SkipIs(ns, excl[..e], skip)
    {
      var x := t.Find(excl[e]);
      NameOf(t, excl[e], x);
      SkipOne(ns, excl, e, skip, x);
      if x >= 0 {
        assert t.entries[x] == ns[x];
        if InLast(t.entries[x]) { skip := skip + {t.entries[x].ck.cid}; }
      }
    }
    assert excl[..|excl|] == excl;
  }

  lemma NoneSkipped(ns: seq<Node>, excl: seq<Txid>)
    ensures SkipIs(ns, excl[..0], {})
  {
  }

  lemma SkipOne(ns: seq<Node>, excl: seq<Txid>, e: nat, skip: set<nat>, x: int)
    requires Distinct(ns) && e < |excl| && SkipIs(ns, excl[..e], skip)
    requires if x < 0 then excl[e] !in Txids(ns) else x < |ns| && ns[x].txid == excl[e]
    ensures x < 0 || !InLast(ns[x]) ==> SkipIs(ns, excl[..e + 1], skip)
    ensures x >= 0 && InLast(ns[x]) ==> SkipIs(ns, excl[..e + 1], skip + {ns[x].ck.cid})
  {
    hide Distinct;
    var now := excl[..e + 1];
    assert now == excl[..e] + [excl[e]];
    forall y: nat | y < |ns| && ns[y].txid in now && InLast(ns[y]) ensures ns[y].txid in excl[..e] || y == x {
      if ns[y].txid == excl[e] { Differ(ns, y, x); }
    }
    forall c | c in skip ensures SkipFrom(ns, now, c) {
      var y: nat :| y < |ns| && ns[y].txid in excl[..e] && InLast(ns[y]) && ns[y].ck.cid == c;
    }
  }

  /** What a node keeps, when none is stale: its cluster's chunk, and whether it is in it. */
  lemma KeepsTruth(ns: seq<Node>, last: Linearizer, top: nat, i: nat)
    requires CacheOk(ns, last, top) && AllFresh(ns, |ns|) && i < |ns|
    ensures Settled(ns, i) && ns[i].ck.Fresh?
    ensures forall j :: j in Comp(ns, i) ==> ns[j].ck == Keeps(ns[i].ck.cid, LastOf(ns, last, i), Listed(ns, i), j)
    ensures ns[i].ck == Keeps(ns[i].ck.cid, LastOf(ns, last, i), Listed(ns, i), i)
  {
    hide LastOf, Listed, Comp;
    CompIs(ns, i);
    assert TrueAt(ns, last, i);
  }

  /** Skipping by id is skipping the clusters whose chunk is to be left out. */
  lemma SkipExcludes(ns: seq<Node>, last: Linearizer, top: nat, excl: seq<Txid>, skip: set<nat>, i: nat)
    requires CacheOk(ns, last, top) && AllFresh(ns, |ns|) && i < |ns| && SkipIs(ns, excl, skip) && LastOf(ns, last, i).Some?
    ensures ns[i].ck.Fresh? && (ns[i].ck.cid in skip <==> Excluded(ns, last, (set t | t in excl), i))
  {
    hide LastOf, Listed, Comp, Settled, InChunk;
    KeepsTruth(ns, last, top, i);
    CompIs(ns, i);
    if ns[i].ck.cid in skip {
      assert SkipFrom(ns, excl, ns[i].ck.cid);
      var x: nat :| x < |ns| && ns[x].txid in excl && InLast(ns[x]) && ns[x].ck.cid == ns[i].ck.cid;
      KeepsTruth(ns, last, top, x);
      assert SameId(ns, i, x);
      CompIs(ns, x);
      assert InChunk(Listed(ns, i), LastOf(ns, last, i).value, x);
    }
    if Excluded(ns, last, (set t | t in excl), i) {
      var j: nat :| j < |ns| && InChunk(Listed(ns, i), LastOf(ns, last, i).value, j) && ns[j].txid in set t | t in excl;
      ChunkWithin(ns, last, i, j);
    }
  }

  lemma ChunkWithin(ns: seq<Node>, last: Linearizer, i: nat, j: nat)
    requires i < |ns| && LastOf(ns, last, i).Some? && InChunk(Listed(ns, i), LastOf(ns, last, i).value, j)
    ensures j in Comp(ns, i)
  {
    hide LastOf, Comp;
    ListedIs(ns, i);
    assert j in SetOf(Listed(ns, i));
  }

  /** A node that is not its cluster's lowest never displaces the best: its cluster has been looked at. */
  lemma OthersNever(ns: seq<Node>, last: Linearizer, excl: set<Txid>, i: nat)
    requires Sensible(last) && Scorable(ns) && i < |ns| && !First(ns, i) && Counts(ns, last, excl, i)
    ensures Best(ns, last, excl, i).Some?
    ensures !Worse(LastOf(ns, last, i).value, LastOf(ns, last, Best(ns, last, excl, i).value).value)
  {
    hide LastOf, Listed, Comp, Sensible, Scorable, InChunk, Worse;
    CompIs(ns, i);
    var m := Least(Comp(ns, i));
    SameComp(ns, i, m);
    SameList(ns, last, i, m);
    BestCovers(ns, last, excl, i, m);
  }

  /** The worst chunk from what the nodes keep: exactly what walking every cluster finds. */
  method CachedWorst(t: Nodes, last: Linearizer, excl: seq<Txid>, top0: nat) returns (r: Option<Worst>, top: nat)
    requires t.Valid() && Keyed(t) && Distinct(t.Entries()) && Sensible(last) && Scorable(t.Entries()) && CacheOk(t.Entries(), last, top0)
    modifies t.entries
    ensures t.Valid() && CkOnly(old(t.Entries()), t.Entries()) && CacheOk(t.Entries(), last, top)
    ensures r == Answer(old(t.Entries()), last, set x | x in excl)
  {
    hide Table.Valid, Table.Entries, Adj, Scorable, Sensible, CacheOk, Keyed, CkOnly, AllFresh, Distinct, Answer, SkipIs;
    ghost var was := t.Entries();
    t.Live();
    var adj := Adj(t.entries[..t.n]);
    assert t.entries[..t.n] == was;
    top := RenewAll(t, adj, last, top0);
    t.Live();
    DistinctStill(was, t.Entries());
    StaysScorable(was, t.Entries());
    var skip := Skips(t, excl);
    t.Live();
    var ns := t.entries[..t.n];
    assert ns == t.Entries();
    r := Choose(ns, adj, last, excl, skip, top);
    SameAnswer(was, ns, last, set x | x in excl);
  }

  lemma DistinctStill(ns: seq<Node>, ms: seq<Node>)
    requires Distinct(ns) && CkOnly(ns, ms)
    ensures Distinct(ms)
  {
    forall i: nat, j: nat | i < j < |ms| ensures ms[i].txid != ms[j].txid {
      assert ms[i] == ns[i].(ck := ms[i].ck) && ms[j] == ns[j].(ck := ms[j].ck);
    }
  }

  lemma {:induction false} SameBest(ns: seq<Node>, ms: seq<Node>, last: Linearizer, excl: set<Txid>, n: nat)
    requires CkOnly(ns, ms) && n <= |ns|
    ensures Best(ns, last, excl, n) == Best(ms, last, excl, n)
  {
    hide LastOf, Listed, Comp, InChunk;
    if n > 0 {
      SameBest(ns, ms, last, excl, n - 1);
      SameCounts(ns, ms, last, excl, n - 1);
      var b := Best(ns, last, excl, n - 1);
      if b.Some? { SameCounts(ns, ms, last, excl, b.value); }
    }
  }

  lemma SameCounts(ns: seq<Node>, ms: seq<Node>, last: Linearizer, excl: set<Txid>, i: nat)
    requires CkOnly(ns, ms) && i < |ns|
    ensures First(ns, i) == First(ms, i) && Counts(ns, last, excl, i) == Counts(ms, last, excl, i)
    ensures LastOf(ns, last, i) == LastOf(ms, last, i) && Listed(ns, i) == Listed(ms, i)
  {
    hide LastOf, Listed, Comp, InChunk;
    SameClusters(ns, ms, last, i);
    assert forall j: nat :: j < |ns| ==> ms[j].txid == ns[j].txid;
  }

  lemma SameAnswer(ns: seq<Node>, ms: seq<Node>, last: Linearizer, excl: set<Txid>)
    requires CkOnly(ns, ms) && Sensible(last) && Scorable(ns) && Scorable(ms)
    ensures Answer(ns, last, excl) == Answer(ms, last, excl)
  {
    hide LastOf, Listed, Comp, Sensible, Scorable;
    SameBest(ns, ms, last, excl, |ns|);
    var b := Best(ns, last, excl, |ns|);
    if b.Some? { SameCounts(ns, ms, last, excl, b.value); }
  }

  /** One pass over the nodes, comparing what they keep; then a walk of the chosen cluster for its slots. */
  method Choose(ns: seq<Node>, adj: seq<seq<nat>>, last: Linearizer, excl: seq<Txid>, skip: set<nat>, ghost top: nat) returns (r: Option<Worst>)
    requires adj == Adj(ns) && Sensible(last) && Scorable(ns) && CacheOk(ns, last, top) && AllFresh(ns, |ns|) && SkipIs(ns, excl, skip)
    ensures r == Answer(ns, last, set t | t in excl)
  {
    hide Adj, Scorable, Sensible, CacheOk, SkipIs, LastOf, Listed, Comp, InChunk, Picture, Excluded, First;
    ghost var E := set t | t in excl;
    var best: Option<nat>, bf, bs := None, 0, 1;
    for i := 0 to |ns|
      invariant best == Best(ns, last, E, i)
      invariant best.Some? ==> bf == LastOf(ns, last, best.value).value.fee && bs == LastOf(ns, last, best.value).value.size
    {
      KeepsTruth(ns, last, top, i);
      var ck := ns[i].ck;
      if ck.chunk.Some? {
        SkipExcludes(ns, last, top, excl, skip, i);
        if ck.cid !in skip {
          if !First(ns, i) { OthersNever(ns, last, E, i); }
          if best.None? || ck.chunk.value.0 * bs < bf * ck.chunk.value.1 {
            best, bf, bs := Some(i), ck.chunk.value.0, ck.chunk.value.1;
          }
        }
      }
    }
    if best.None? { return None; }
    FirstListed(ns, best.value);
    FitsTables(ns, best.value);
    var mem := Gather(adj, best.value);
    ListedIs(ns, best.value);
    LastIs(ns, last, best.value);
    Weighs(ns, last, best.value);
    var c := last(Picture(ns, mem));
    r := Some(Named(mem, c.value));
  }
}
