/** A newcomer let in: the replaced leave, the pool is trimmed, and its node is entered with the figures found before. */
module PoolEntry {
  import opened Bytes
  import opened ChainTable
  import opened PoolViews
  import opened PoolAncestors
  import opened NodeRemoval
  import opened PoolTables
  import opened PoolState
  import opened PoolClusters
  import opened ClusterWalk
  import opened PoolWalks
  import opened PoolInsert
  import opened PoolCommit
  import opened PoolLaws
  import opened PoolAccept
  import opened PoolAdmit
  import opened CacheMoves
  import opened ChunkCache
  import opened WorstChunk
  import opened PoolWorst
  import Eviction
  import Sums

  /** A transaction and all that spends it, removed: what leaves when there are not too many. */
  ghost function Package(v: View, t: Txid): set<Txid> {
    if t !in v then {} else if |Down(v, {t})| > PACKAGE_MAX then {t} else Down(v, {t})
  }

  lemma PackageIs(ids: seq<Txid>, v: View, t: Txid, full: bool)
    requires t in v && (full <==> |Down(v, {t})| > PACKAGE_MAX)
    requires !full ==> |ids| > 0 && ids[0] == t && (set u | u in ids) == Down(v, {t})
    ensures IdSet(if full then [t] else ids[1..] + [t]) == Package(v, t)
  {
    hide Down;
    if !full {
      AllIds(ids);
      IdSetWith(ids[1..], t);
    }
  }

  /** Who leaves with a transaction, in the order they leave: its descendants, then itself. */
  method PackageOf(p: Pool, t: Txid) returns (ids: seq<Txid>)
    requires p.Valid()
    ensures IdSet(ids) == Package(p.Now().graph, t)
  {
    hide Pool.Valid, Pool.Now, Table.Valid, Table.Entries, Down, IdSet, KidsOk, ViewOf, Held, Distinct, Keyed, Txids;
    ghost var frame := Parts(p.nodes) + Parts(p.claims) + Parts(p.outs);
    Opened(p);
    var ci := p.nodes.Find(t);
    NameOf(p.nodes, t, ci);
    NoIds();
    if ci < 0 { return []; }
    var ns := p.nodes.entries[..p.nodes.n];
    var kids := BuildKids(ns);
    var full;
    var slots;
    full, ids, slots := Descendants(ns, kids, ci);
    PackageIs(ids, ViewOf(ns), t, full);
    ids := if full then [t] else ids[1..] + [t];
  }

  /** Removes a transaction with its descendants, they first. */
  method RemovePackage(p: Pool, t: Txid)
    requires p.Valid()
    modifies Parts(p.nodes), Parts(p.claims), Parts(p.outs)
    ensures p.Valid() && p.Now() == Without(old(p.Now()), Package(old(p.Now().graph), t)) && CacheStays(old(p.nodes.Entries()), p.nodes.Entries())
  {
    hide Pool.Valid, Pool.Now, Table.Entries, Package, Without, CacheStays;
    ghost var frame := Parts(p.nodes) + Parts(p.claims) + Parts(p.outs);
    var ids := PackageOf(p, t);
    p.RemoveEach(ids);
  }

  /** In a pool within the limits a package is never too large: it is closed under spending. */
  lemma PackageCloses(v: View, t: Txid, count: nat, bytes: nat)
    requires Lawful(v, count, bytes) && count <= CLUSTER_LIMIT
    ensures KidClosed(v, Package(v, t)) && Package(v, t) <= v.Keys
  {
    if t in v {
      DownInCluster(v, t);
      DownCloses(v, {t});
    }
  }

  /** Transactions have left, each with all that spends it. */
  ghost predicate Left(c: Contents, d: Contents, gone: set<Txid>) {
    d == Without(c, gone) && KidClosed(c.graph, gone)
  }

  /** One member of a closed chunk leaves, with others of the chunk. */
  lemma ChunkStep(d: Contents, R: set<Txid>, W: set<Txid>, t: Txid, count: nat, bytes: nat)
    requires Lawful(d.graph, count, bytes) && count <= CLUSTER_LIMIT && R <= W <= d.graph.Keys && KidClosed(d.graph, W) && t in W
    ensures var P := Package(Remove(d.graph, R), t); R + P <= W && t in R + P && Without(Without(d, R), P) == Without(d, R + P)
  {
    hide Lawful;
    var v := Remove(d.graph, R);
    LawfulRemove(d.graph, R, count, bytes);
    WithoutTwice(d, R, Package(v, t));
    if t in v {
      DownInCluster(v, t) by { LawfulParts(v, count, bytes); }
      DownCloses(v, {t});
      FitsPackage(v, t, count, bytes);
      assert KidClosed(v, W) by {
        forall a, b | a in W && Spender(v, a, b) ensures b in W { assert Spender(d.graph, a, b); }
      }
      forall a | a in Down(v, {t}) ensures a in W { assert {t} <= W; }
    }
  }

  lemma FitsPackage(v: View, t: Txid, count: nat, bytes: nat)
    requires Lawful(v, count, bytes) && count <= CLUSTER_LIMIT && t in v
    ensures Package(v, t) == Down(v, {t})
  {
    DownInCluster(v, t);
  }

  /** The members of a chunk that nothing else spends removed, each with what spends it: exactly the chunk leaves. */
  method RemoveChunk(p: Pool, chunk: seq<Txid>, ghost count: nat, ghost bytes: nat)
    requires p.Valid() && Lawful(p.Now().graph, count, bytes) && count <= CLUSTER_LIMIT
    requires KidClosed(p.Now().graph, IdSet(chunk)) && IdSet(chunk) <= p.Now().graph.Keys
    modifies Parts(p.nodes), Parts(p.claims), Parts(p.outs)
    ensures p.Valid() && p.Now() == Without(old(p.Now()), IdSet(chunk)) && CacheStays(old(p.nodes.Entries()), p.nodes.Entries())
  {
    hide Pool.Valid, Pool.Now, Table.Entries, Package, Without, Lawful, CacheStays, KidClosed, IdSet, Remove;
    ghost var frame := Parts(p.nodes) + Parts(p.claims) + Parts(p.outs);
    ghost var first, d, W, R := p.nodes.Entries(), p.Now(), IdSet(chunk), {};
    StaysSame(first);
    WithoutNone(d);
    IdSetIs(chunk);
    for q := 0 to |chunk|
      invariant p.Valid() && p.Now() == Without(d, R) && R <= W && CacheStays(first, p.nodes.Entries())
      invariant forall k: nat :: k < q ==> chunk[k] in R
    {
      ghost var ns := p.nodes.Entries();
      ChunkStep(d, R, W, chunk[q], count, bytes);
      WithoutGraph(d, R);
      RemovePackage(p, chunk[q]);
      StaysOn(first, ns, p.nodes.Entries());
      R := R + Package(Remove(d.graph, R), chunk[q]);
    }
    assert W <= R;
    assert R == W;
  }

  lemma WithoutGraph(d: Contents, R: set<Txid>)
    ensures Without(d, R).graph == Remove(d.graph, R)
  {
  }

  /** As many parents as before: the same parents. */
  lemma SameParents(v: View, gone: set<Txid>, ins: seq<Outpoint>)
    requires |Parents(Remove(v, gone), ins)| >= |Parents(v, ins)|
    ensures Parents(Remove(v, gone), ins) == Parents(v, ins) && Parents(v, ins) !! gone
  {
    var P, Q := Parents(v, ins), Parents(Remove(v, gone), ins);
    assert Q <= P;
    if Q != P {
      var t :| t in P && t !in Q;
      Sums.SubsetSize(Q, P - {t});
    }
  }

  lemma FewerParents(v: View, gone: set<Txid>, ins: seq<Outpoint>)
    ensures |Parents(Remove(v, gone), ins)| <= |Parents(v, ins)|
    ensures Parents(v, ins) !! gone ==> Parents(Remove(v, gone), ins) == Parents(v, ins)
  {
    var P, Q := Parents(v, ins), Parents(Remove(v, gone), ins);
    Sums.SubsetSize(Q, P);
    if P !! gone {
      forall t | t in P ensures t in Q { }
    }
  }

  /** Some least paying set of a pool, that can leave alone and pays less for its weight than the newcomer, has left. */
  ghost predicate TrimStep(a: Contents, b: Contents, fee: nat, size: nat) {
    exists W: set<Txid>, f: nat, s: nat :: Trimmed(a, b, fee, size, W, f, s)
  }

  ghost predicate Trimmed(a: Contents, b: Contents, fee: nat, size: nat, W: set<Txid>, f: nat, s: nat) {
    Eviction.CheapestOf(a.graph, W, f, s) && b == Without(a, W) && fee * s > f * size
  }

  /** Nothing is left to evict, or the newcomer pays no more for its weight than the least paying does. */
  ghost predicate Outbid(v: View, fee: nat, size: nat) {
    v.Keys == {} || exists W: set<Txid>, f: nat, s: nat :: Eviction.CheapestOf(v, W, f, s) && fee * s <= f * size
  }

  /** The worst chunk removed, if the newcomer pays more. */
  method TrimOnce(p: Pool, last: Linearizer, fee: nat, size: nat, top0: nat, ghost count: nat, ghost bytes: nat)
    returns (ok: bool, top: nat, ghost W: set<Txid>)
    requires p.Valid() && Lawful(p.Now().graph, count, bytes) && count <= CLUSTER_LIMIT && Weighty(p.Now().graph)
    requires Eviction.Own(last) && CacheOk(p.nodes.Entries(), last, top0)
    modifies Parts(p.nodes), Parts(p.claims), Parts(p.outs)
    ensures p.Valid() && CacheOk(p.nodes.Entries(), last, top)
    ensures ok ==> KidClosed(old(p.Now().graph), W) && p.Now() == Without(old(p.Now()), W) && TrimStep(old(p.Now()), p.Now(), fee, size)
    ensures !ok ==> p.Now() == old(p.Now()) && Outbid(p.Now().graph, fee, size)
  {
    hide Pool.Valid, Pool.Now, Table.Valid, Table.Entries, Lawful, Weighty, Eviction.Own, CacheOk, CacheStays, KidClosed, Without, ViewOf,
      Distinct, Keyed, Held, Eviction.CheapestOf, Eviction.LeastPaying, IdSet, Names;
    ghost var frame := Parts(p.nodes) + Parts(p.claims) + Parts(p.outs);
    Opened(p);
    ghost var ns, d := p.nodes.Entries(), p.Now();
    W := {};
    var r;
    r, top := Eviction.PickWorst(p, last, top0, count, bytes);
    if r.None? { NoneHeld(ns); return false, top, W; }
    Eviction.LeastByTxid(ns, r.value);
    Opened(p);
    W := IdSet(Names(ns, r.value.slots));
    CheapestParts(d.graph, W, r.value.fee, r.value.size);
    if fee * r.value.size <= r.value.fee * size { return false, top, W; }
    var ms := p.nodes.entries[..p.nodes.n];
    SameNames(ns, ms, r.value.slots);
    var chunk := Names(ms, r.value.slots);
    ghost var before := p.nodes.Entries();
    RemoveChunk(p, chunk, count, bytes);
    assert Trimmed(d, p.Now(), fee, size, W, r.value.fee, r.value.size);
    StillTrue(before, p.nodes.Entries(), last, top);
    ok := true;
  }

  lemma NoneHeld(ns: seq<Node>)
    requires ns == []
    ensures ViewOf(ns).Keys == {}
  {
  }

  lemma CheapestParts(v: View, W: set<Txid>, f: nat, s: nat)
    requires Eviction.CheapestOf(v, W, f, s)
    ensures KidClosed(v, W) && W <= v.Keys
  {
  }

  lemma SameNames(ns: seq<Node>, ms: seq<Node>, slots: seq<nat>)
    requires CkOnly(ns, ms) && forall k: nat :: k < |slots| ==> slots[k] < |ns|
    ensures (forall k: nat :: k < |slots| ==> slots[k] < |ms|) && Names(ns, slots) == Names(ms, slots)
  {
  }

  lemma StillTrue(ns: seq<Node>, rs: seq<Node>, last: Linearizer, top: nat)
    requires CacheStays(ns, rs) && CacheOk(ns, last, top)
    ensures CacheOk(rs, last, top)
  {
  }

  lemma LeftThen(c: Contents, d: Contents, gone: set<Txid>, W: set<Txid>)
    requires Left(c, d, gone) && KidClosed(d.graph, W)
    ensures Left(c, Without(d, W), gone + W)
  {
    ClosedAfter(c.graph, gone, W);
    WithoutTwice(c, gone, W);
  }

  lemma LeftLawful(c: Contents, d: Contents, gone: set<Txid>, count: nat, bytes: nat)
    requires Left(c, d, gone) && Lawful(c.graph, count, bytes) && Weighty(c.graph)
    ensures Lawful(d.graph, count, bytes) && Weighty(d.graph)
  {
    LawfulRemove(c.graph, gone, count, bytes);
  }

  /** A pool trimmed step by step. */
  ghost predicate TrimRun(steps: seq<Contents>, fee: nat, size: nat) {
    |steps| > 0 && forall k: nat :: k + 1 < |steps| ==> TrimStep(steps[k], steps[k + 1], fee, size)
  }

  lemma RunOn(steps: seq<Contents>, d: Contents, fee: nat, size: nat)
    requires TrimRun(steps, fee, size) && TrimStep(steps[|steps| - 1], d, fee, size)
    ensures TrimRun(steps + [d], fee, size)
  {
  }

  /** Room made by removing the worst chunk as often as the store is full: at every step a least paying set of the pool at that
      moment, as long as the newcomer pays more and none of its parents goes with it. */
  method Trim(p: Pool, last: Linearizer, fulls: nat, fee: nat, size: nat, ins: seq<Outpoint>, before: nat, top0: nat, ghost count: nat, ghost bytes: nat,
              ghost c: Contents, ghost gone0: set<Txid>)
    returns (ok: bool, top: nat, ghost gone: set<Txid>, ghost steps: seq<Contents>)
    requires p.Valid() && Lawful(c.graph, count, bytes) && count <= CLUSTER_LIMIT && Weighty(c.graph) && Left(c, p.Now(), gone0)
    requires before == |Parents(c.graph, ins)| <= MAX_PARENTS && Parents(c.graph, ins) !! gone0
    requires Eviction.Own(last) && CacheOk(p.nodes.Entries(), last, top0)
    modifies Parts(p.nodes), Parts(p.claims), Parts(p.outs)
    ensures p.Valid() && CacheOk(p.nodes.Entries(), last, top) && Left(c, p.Now(), gone) && gone0 <= gone
    ensures TrimRun(steps, fee, size) && steps[0] == old(p.Now()) && steps[|steps| - 1] == p.Now()
    ensures |steps| <= fulls + 1 && (ok <==> Parents(c.graph, ins) !! gone && |steps| == fulls + 1)
    ensures !ok ==> Outbid(p.Now().graph, fee, size) || !(Parents(c.graph, ins) !! gone)
  {
    hide Pool.Valid, Pool.Now, Without, Lawful, Weighty, Left, Parents, Table.Valid, Table.Entries, ViewOf, Collected, Keyed, Distinct, Held,
      CacheOk, Eviction.Own, TrimStep, TrimRun, KidClosed, Outbid;
    ghost var frame := Parts(p.nodes) + Parts(p.claims) + Parts(p.outs);
    gone, top, steps := gone0, top0, [p.Now()];
    RunStarts(p.Now(), fee, size);
    for k := 0 to fulls
      invariant p.Valid() && CacheOk(p.nodes.Entries(), last, top) && Left(c, p.Now(), gone) && gone0 <= gone && Parents(c.graph, ins) !! gone
      invariant |steps| == k + 1 && TrimRun(steps, fee, size) && steps[0] == old(p.Now()) && steps[k] == p.Now()
    {
      ghost var d := p.Now();
      LeftLawful(c, d, gone, count, bytes);
      ghost var W;
      ok, top, W := TrimOnce(p, last, fee, size, top, count, bytes);
      if !ok { return; }
      LeftThen(c, d, gone, W);
      RunOn(steps, p.Now(), fee, size);
      gone, steps := gone + W, steps + [p.Now()];
      ok := ParentsStay(p, ins, before, c, gone);
      if !ok { return; }
    }
    ok := true;
  }

  /** Whether there are as many parents as before: exactly when none has gone. */
  method ParentsStay(p: Pool, ins: seq<Outpoint>, before: nat, ghost c: Contents, ghost gone: set<Txid>) returns (ok: bool)
    requires p.Valid() && Left(c, p.Now(), gone) && before == |Parents(c.graph, ins)| <= MAX_PARENTS
    ensures ok <==> Parents(c.graph, ins) !! gone
  {
    hide Pool.Valid, Pool.Now, Left, Parents, Table.Valid, Table.Entries, ViewOf, Collected, Keyed, Distinct, Held;
    ghost var frame := Parts(p.nodes) + Parts(p.claims) + Parts(p.outs);
    Opened(p);
    var par, cut := CollectParents(p.nodes, ins);
    LeftParents(c, p.Now(), gone, ins, p.nodes.Entries(), par, cut);
    ok := |par| >= before;
  }

  lemma RunStarts(d: Contents, fee: nat, size: nat)
    ensures TrimRun([d], fee, size)
  {
  }

  lemma LeftParents(c: Contents, d: Contents, gone: set<Txid>, ins: seq<Outpoint>, ns: seq<Node>, par: seq<int>, cut: bool)
    requires Left(c, d, gone) && d.graph == ViewOf(ns) && |Parents(c.graph, ins)| <= MAX_PARENTS
    requires !cut ==> Collected(ns, par, Parents(d.graph, ins))
    requires cut <==> |Parents(d.graph, ins)| > MAX_PARENTS
    ensures !cut && (|par| >= |Parents(c.graph, ins)| <==> Parents(c.graph, ins) !! gone)
  {
    hide ViewOf, Parents, KidClosed;
    FewerParents(c.graph, gone, ins);
    if |par| >= |Parents(c.graph, ins)| { SameParents(c.graph, gone, ins); }
  }

  /** The figures found before anyone left are the newcomer's figures after: nobody who left was an ancestor. */
  lemma FiguresHold(ns: seq<Node>, nd: Node, v: View, gone: set<Txid>, ins: seq<Outpoint>, cnt: nat, total: nat, count: nat, bytes: nat)
    requires Distinct(ns) && RefsOk(ns) && Fits(ns, nd) && Grounded(v) && KidClosed(v, gone) && ViewOf(ns) == Remove(v, gone)
    requires Parents(v, ins) !! gone && Ids(ns, nd.parents) == Parents(v, ins) && FiguresOf(v, ins, nd.size, cnt, total)
    requires RoomFor(ViewOf(ns), Parents(v, ins), nd.size, count, bytes) && count <= CLUSTER_LIMIT && bytes <= U32_MAX
    ensures Exact(ns + [nd], |ns|, cnt % (U32_MAX + 1), total % (U32_MAX + 1))
  {
    hide Distinct, RefsOk, Fits, ViewOf, Parents, Up, Weight, Ancestors, KidClosed, Cluster, Remove, Grounded, Ids;
    var w, P, x := ViewOf(ns), Parents(v, ins), nd.txid;
    var e := Entry(nd.size, nd.fee, P);
    var U := Up(v, P);
    ViewGrounded(ns);
    ViewWith(ns, nd);
    NewOne(ns, nd);
    IdsLive(ns, nd.parents);
    NewAncestors(w, x, e);
    UpStays(v, gone, P);
    UpInCluster(w, P);
    SizesStay(v, gone, U, x, e);
    assert ViewOf(ns + [nd]) == w[x := e];
    assert |U| < CLUSTER_LIMIT && nd.size + Weight(w, U) <= bytes;
  }

  lemma NewOne(ns: seq<Node>, nd: Node)
    requires Fits(ns, nd)
    ensures nd.txid !in ViewOf(ns)
  {
  }

  lemma SizesStay(v: View, gone: set<Txid>, U: set<Txid>, x: Txid, e: Entry)
    requires U <= v.Keys && U <= Remove(v, gone).Keys && x !in Remove(v, gone)
    ensures Weight(Remove(v, gone), U) == Weight(v, U) == Weight(Remove(v, gone)[x := e], U)
  {
    WeightSame(v, Remove(v, gone), U);
    WeightSame(v, Remove(v, gone)[x := e], U);
  }

  /** How much a pool holds is how many slots it uses. */
  lemma Sizes(p: Pool)
    requires p.Valid()
    ensures p.nodes.n == |p.Now().graph.Keys| && p.claims.n == |p.Now().spends| && p.outs.n == |p.Now().outs|
  {
    hide Threaded, AncExact, RefsOk, Unique;
    ClaimCount(p.claims.Entries(), p.nodes.Entries(), p.claims.key);
    OutCount(p.outs.Entries(), p.outs.key);
    NodeCount(p.nodes.Entries());
  }

  lemma NodeCount(ns: seq<Node>)
    requires Distinct(ns)
    ensures |ViewOf(ns).Keys| == |ns|
  {
    var ids := seq(|ns|, i requires 0 <= i < |ns| => ns[i].txid);
    SetSize(ids);
    var A := set t | t in ids;
    forall t | t in Txids(ns) ensures t in A {
      var i := SlotOf(ns, t);
      assert ids[i] == t;
    }
    assert A == Txids(ns);
  }

  lemma WithoutSmaller(c: Contents, gone: set<Txid>)
    ensures var d := Without(c, gone);
      |d.graph.Keys| <= |c.graph.Keys| && |d.spends| <= |c.spends| && |d.outs| <= |c.outs|
  {
    var d := Without(c, gone);
    Sums.SubsetSize(d.graph.Keys, c.graph.Keys);
    Sums.SubsetSize(d.spends, c.spends);
    Sums.SubsetSize(d.outs, c.outs);
  }

  /** Nobody left in the pool claims an outpoint of the newcomer's. */
  lemma Unclaimed(ns: seq<Node>, cs: seq<Claim>, os: seq<Out>, c: Contents, gone: set<Txid>, ins: seq<Outpoint>)
    requires ClaimsLive(cs, |ns|) && Held(ns, cs, os) == Without(c, gone) && Rivals(c, ins) <= gone
    ensures forall k :: k in cs ==> (k.prev, k.index) !in ins
  {
    forall k | k in cs ensures (k.prev, k.index) !in ins {
      var i: nat :| i < |cs| && cs[i] == k;
      IsSpend(cs, ns, i);
      var s := ((k.prev, k.index), ns[k.claimer].txid);
      assert s in Held(ns, cs, os).spends;
      assert s in c.spends && s.1 !in gone;
    }
  }

  /** What has been settled when a newcomer's node is to be entered. */
  ghost predicate Settled(p: Pool, c: Contents, gone: set<Txid>, x: Txid, size: nat, ins: seq<Outpoint>, nOut: nat, count: nat, bytes: nat)
    requires p.Valid()
    reads p, Parts(p.nodes), Parts(p.claims), Parts(p.outs)
  {
    && Lawful(c.graph, count, bytes) && Left(c, p.Now(), gone) && x !in c.graph
    && Admissible(c, gone, ins, size, count, bytes) && |Parents(c.graph, ins)| <= MAX_PARENTS
    && HasRoom(p, |ins|, nOut)
  }

  /** The node of a newcomer whose parents all stayed. */
  ghost predicate NodeFor(ns: seq<Node>, nd: Node, c: Contents, ins: seq<Outpoint>) {
    && Fits(ns, nd) && Ids(ns, nd.parents) == Parents(c.graph, ins)
    && Exact(ns + [nd], |ns|, nd.ancCnt, nd.ancBytes)
  }

  lemma NodeFits(ns: seq<Node>, cs: seq<Claim>, os: seq<Out>, nd: Node, c: Contents, gone: set<Txid>, ins: seq<Outpoint>, cnt: nat, total: nat, count: nat, bytes: nat)
    requires InOrder(ns, cs, os) && Held(ns, cs, os) == Without(c, gone) && Lawful(c.graph, count, bytes) && KidClosed(c.graph, gone)
    requires nd.txid !in c.graph && Admissible(c, gone, ins, nd.size, count, bytes) && FiguresOf(c.graph, ins, nd.size, cnt, total)
    requires Collected(ns, nd.parents, Parents(ViewOf(ns), ins)) && count <= CLUSTER_LIMIT && bytes <= U32_MAX
    requires nd.ancCnt == cnt % (U32_MAX + 1) && nd.ancBytes == total % (U32_MAX + 1)
    ensures NodeFor(ns, nd, c, ins) && forall k :: k in cs ==> (k.prev, k.index) !in ins
  {
    hide KidClosed, Parents, FiguresOf, RoomFor, ViewOf, Acyclic, Limited, Grounded, Distinct, RefsOk, AncExact, Ids, Exact, NoDoubles, Txids,
      ClaimsLive, Rivals;
    FewerParents(c.graph, gone, ins);
    assert nd.txid !in Txids(ns);
    FiguresHold(ns, nd, c.graph, gone, ins, cnt, total, count, bytes);
    Unclaimed(ns, cs, os, c, gone, ins);
  }

  /** The newcomer's outputs, claims and node entered. */
  method Finish(p: Pool, x: Txid, size: nat, fee: nat, ins: seq<Outpoint>, vals: seq<nat>, cnt: nat, total: nat,
                ghost c: Contents, ghost gone: set<Txid>, ghost count: nat, ghost bytes: nat)
    requires p.Valid() && Settled(p, c, gone, x, size, ins, |vals|, count, bytes) && NoRepeats(ins)
    requires FiguresOf(c.graph, ins, size, cnt, total) && count <= CLUSTER_LIMIT && bytes <= U32_MAX
    modifies Parts(p.nodes), Parts(p.claims), Parts(p.outs)
    ensures p.Valid() && p.Now() == With(Without(c, gone), x, Entry(size, fee, Parents(c.graph, ins)), ins, vals)
    ensures CacheStays(old(p.nodes.Entries()), p.nodes.Entries())
  {
    hide Pool.Valid, Pool.Now, Table.Valid, Table.Entries, ViewOf, Held, InOrder, Lawful, Admissible, FiguresOf, Collected, Parents, Without, With,
      Keyed, Distinct, KidClosed, NoRepeats, Exact, Fits, Ids, RefsOk, AncExact, CacheStays;
    ghost var frame := Parts(p.nodes) + Parts(p.claims) + Parts(p.outs);
    ghost var ns, cs, os := p.nodes.Entries(), p.claims.Entries(), p.outs.Entries();
    Opened(p);
    OpenedOrder(p);
    var par, cut := CollectParents(p.nodes, ins);
    LeftParents(c, p.Now(), gone, ins, ns, par, cut);
    var nd := Node(x, size, fee, par, cnt % (U32_MAX + 1), total % (U32_MAX + 1), Stale);
    NodeFits(ns, cs, os, nd, c, gone, ins, cnt, total, count, bytes);
    Commit(p, nd, ins, vals);
  }

  lemma OpenedOrder(p: Pool)
    requires p.Valid()
    ensures InOrder(p.nodes.Entries(), p.claims.Entries(), p.outs.Entries())
  {
  }

  lemma StillRoom(p: Pool, c: Contents, gone: set<Txid>, nIn: nat, nOut: nat)
    requires p.Valid() && p.Now() == Without(c, gone) && |c.graph.Keys| < p.nodes.entries.Length
    requires |c.spends| + nIn <= p.claims.entries.Length && |c.outs| + nOut <= p.outs.entries.Length
    ensures HasRoom(p, nIn, nOut)
  {
    hide Pool.Valid, Pool.Now, Without;
    Sizes(p);
    WithoutSmaller(c, gone);
  }

  lemma AdmissibleStill(c: Contents, E: set<Txid>, gone: set<Txid>, ins: seq<Outpoint>, size: nat, count: nat, bytes: nat)
    requires Admissible(c, E, ins, size, count, bytes) && E <= gone && KidClosed(c.graph, gone) && Parents(c.graph, ins) !! gone
    ensures Admissible(c, gone, ins, size, count, bytes)
  {
    MoreRoom(c.graph, E, gone, Parents(c.graph, ins), size, count, bytes);
  }

  /** An entry like this is an allowed change. */
  lemma EntryAllowed(c: Contents, gone: set<Txid>, x: Txid, size: nat, fee: nat, ins: seq<Outpoint>, vals: seq<nat>, count: nat, bytes: nat)
    requires Admissible(c, gone, ins, size, count, bytes) && x !in c.graph
    ensures Allowed(c, Enter(gone, x, size, fee, ins, vals), count, bytes)
    ensures Apply(c, Enter(gone, x, size, fee, ins, vals)) == With(Without(c, gone), x, Entry(size, fee, Parents(c.graph, ins)), ins, vals)
  {
  }

  /** Whoever comes after and spends an outpoint of a newcomer's has it for a rival, on top of those there were; and each of its
      outputs is there, with its value. */
  lemma EnteredClaims(c: Contents, x: Txid, e: Entry, ins: seq<Outpoint>, vals: seq<nat>, later: seq<Outpoint>)
    ensures var d := With(c, x, e, ins, vals);
      && Rivals(d, later) == Rivals(c, later) + (if exists op :: op in ins && op in later then {x} else {})
      && forall i: nat :: i < |vals| ==> Out(x, i, vals[i]) in d.outs
  {
    var d := With(c, x, e, ins, vals);
    forall t | t in Rivals(d, later) ensures t in Rivals(c, later) + (if exists op :: op in ins && op in later then {x} else {}) {
      var s :| s in d.spends && s.0 in later && s.1 == t;
    }
    if op :| op in ins && op in later { assert (op, x) in d.spends; }
    forall i: nat | i < |vals| ensures Out(x, i, vals[i]) in d.outs { assert NewOuts(x, vals)[i] in NewOuts(x, vals); }
  }

  /** Taking a newcomer out again undoes its entry. */
  lemma EntryUndone(c: Contents, x: Txid, e: Entry, ins: seq<Outpoint>, vals: seq<nat>)
    requires Grounded(c.graph) && x !in c.graph && (forall s :: s in c.spends ==> s.1 != x) && (forall o :: o in c.outs ==> o.txid != x)
    ensures Without(With(c, x, e, ins, vals), {x}) == c
  {
    var d := Without(With(c, x, e, ins, vals), {x});
    forall t | t in c.graph ensures t in d.graph && d.graph[t] == c.graph[t] {
      assert c.graph[t].parents - {x} == c.graph[t].parents;
    }
    assert d.graph == c.graph;
    assert d.spends == c.spends;
    assert d.outs == c.outs;
  }

  /** The replaced leave, then as many chunks as the store asks for. */
  method MakeWay(p: Pool, evict: seq<Txid>, last: Linearizer, fulls: nat, fee: nat, size: nat, ins: seq<Outpoint>, nOut: nat, top0: nat,
                 ghost count: nat, ghost bytes: nat)
    returns (ok: bool, top: nat, ghost gone: set<Txid>, ghost steps: seq<Contents>)
    requires p.Valid() && Lawful(p.Now().graph, count, bytes) && count <= CLUSTER_LIMIT && HasRoom(p, |ins|, nOut) && Weighty(p.Now().graph)
    requires Admissible(p.Now(), IdSet(evict), ins, size, count, bytes) && |Parents(p.Now().graph, ins)| <= MAX_PARENTS
    requires Eviction.Own(last) && CacheOk(p.nodes.Entries(), last, top0)
    modifies Parts(p.nodes), Parts(p.claims), Parts(p.outs)
    ensures p.Valid() && Left(old(p.Now()), p.Now(), gone) && HasRoom(p, |ins|, nOut) && CacheOk(p.nodes.Entries(), last, top) && IdSet(evict) <= gone
    ensures TrimRun(steps, fee, size) && steps[0] == Without(old(p.Now()), IdSet(evict)) && steps[|steps| - 1] == p.Now()
    ensures ok ==> Admissible(old(p.Now()), gone, ins, size, count, bytes)
    ensures |steps| <= fulls + 1 && (ok <==> Parents(old(p.Now().graph), ins) !! gone && |steps| == fulls + 1)
    ensures !ok ==> Outbid(p.Now().graph, fee, size) || !(Parents(old(p.Now().graph), ins) !! gone)
  {
    hide Pool.Valid, Pool.Now, Table.Valid, Table.Entries, ViewOf, Held, Lawful, Admissible, Collected, Parents, Without, Keyed, Distinct,
      IdSet, Left, CacheStays, CacheOk, Eviction.Own, TrimRun, Weighty, Outbid;
    ghost var frame := Parts(p.nodes) + Parts(p.claims) + Parts(p.outs);
    ghost var c, E, first := p.Now(), IdSet(evict), p.nodes.Entries();
    Sizes(p);
    AdmissibleParts(c, E, ins, size, count, bytes);
    p.RemoveEach(evict);
    IdSetIs(evict);
    LeftFirst(c, p.Now(), E);
    StillTrue(first, p.nodes.Entries(), last, top0);
    Opened(p);
    var par, cut := CollectParents(p.nodes, ins);
    StillParents(c, p.Now(), E, ins, p.nodes.Entries(), par, cut);
    ok, top, gone, steps := Trim(p, last, fulls, fee, size, ins, |par|, top0, count, bytes, c, E);
    LeftIs(c, p.Now(), gone);
    StillRoom(p, c, gone, |ins|, nOut);
    if ok { AdmissibleStill(c, E, gone, ins, size, count, bytes); }
  }

  lemma IdSetIs(ids: seq<Txid>)
    ensures IdSet(ids) == set t | t in ids
  {
  }

  lemma AdmissibleParts(c: Contents, E: set<Txid>, ins: seq<Outpoint>, size: nat, count: nat, bytes: nat)
    requires Admissible(c, E, ins, size, count, bytes)
    ensures KidClosed(c.graph, E) && Parents(c.graph, ins) !! E
  {
  }

  lemma LeftFirst(c: Contents, d: Contents, gone: set<Txid>)
    requires d == Without(c, gone) && KidClosed(c.graph, gone)
    ensures Left(c, d, gone)
  {
  }

  lemma LeftIs(c: Contents, d: Contents, gone: set<Txid>)
    requires Left(c, d, gone)
    ensures d == Without(c, gone) && KidClosed(c.graph, gone)
  {
  }

  /** Nobody the newcomer spends was replaced, so its parents are as many as before. */
  lemma StillParents(c: Contents, d: Contents, gone: set<Txid>, ins: seq<Outpoint>, ns: seq<Node>, par: seq<int>, cut: bool)
    requires Left(c, d, gone) && d.graph == ViewOf(ns) && |Parents(c.graph, ins)| <= MAX_PARENTS && Parents(c.graph, ins) !! gone
    requires !cut ==> Collected(ns, par, Parents(d.graph, ins))
    requires cut <==> |Parents(d.graph, ins)| > MAX_PARENTS
    ensures !cut && |par| == |Parents(c.graph, ins)|
  {
    FewerParents(c.graph, gone, ins);
  }

  /** How an entry that was found admissible ends. */
  ghost predicate Ends(a: PoolAccept.Answer, c: Contents, d: Contents, ch: Change, evicted: set<Txid>, steps: seq<Contents>, count: nat, bytes: nat)
    requires ch.Enter?
  {
    && evicted <= ch.gone && TrimRun(steps, ch.fee, ch.size)
    && steps[0] == Without(c, evicted) && steps[|steps| - 1] == Without(c, ch.gone)
    && Lawful(d.graph, count, bytes) && Weighty(d.graph)
    && if a == Accepted then Allowed(c, ch, count, bytes) && d == Apply(c, ch) else d == Apply(c, Drop(ch.gone)) && (ch.gone == {} || a == MempoolFull)
  }

  lemma NothingDone(a: PoolAccept.Answer, c: Contents, ch: Change, count: nat, bytes: nat)
    requires a != Accepted && ch.Enter? && ch.gone == {} && Lawful(c.graph, count, bytes) && Weighty(c.graph)
    ensures Ends(a, c, c, ch, {}, [c], count, bytes)
  {
    hide Without, Lawful;
    WithoutNone(c);
  }

  lemma GivenUp(c: Contents, d: Contents, ch: Change, evicted: set<Txid>, steps: seq<Contents>, count: nat, bytes: nat)
    requires ch.Enter? && Left(c, d, ch.gone) && evicted <= ch.gone && TrimRun(steps, ch.fee, ch.size)
    requires steps[0] == Without(c, evicted) && steps[|steps| - 1] == d && Lawful(c.graph, count, bytes) && Weighty(c.graph)
    ensures Ends(MempoolFull, c, d, ch, evicted, steps, count, bytes)
  {
    hide Without, Lawful, TrimRun, Weighty;
    LeftLawful(c, d, ch.gone, count, bytes);
  }

  lemma LetInAs(c: Contents, d: Contents, e: Contents, ch: Change, evicted: set<Txid>, steps: seq<Contents>, count: nat, bytes: nat)
    requires ch.Enter? && Left(c, d, ch.gone) && evicted <= ch.gone && TrimRun(steps, ch.fee, ch.size) && ch.size > 0
    requires steps[0] == Without(c, evicted) && steps[|steps| - 1] == d && Lawful(c.graph, count, bytes) && Weighty(c.graph)
    requires Admissible(c, ch.gone, ch.ins, ch.size, count, bytes) && ch.x !in c.graph
    requires e == With(d, ch.x, Entry(ch.size, ch.fee, Parents(c.graph, ch.ins)), ch.ins, ch.vals)
    ensures Ends(Accepted, c, e, ch, evicted, steps, count, bytes)
  {
    hide Without, Lawful, TrimRun, Weighty, Admissible, Parents, With, Allowed, Apply;
    LeftLawful(c, d, ch.gone, count, bytes);
    LeftIs(c, d, ch.gone);
    EntryAllowed(c, ch.gone, ch.x, ch.size, ch.fee, ch.ins, ch.vals, count, bytes);
    ChangeLawful(c, ch, count, bytes);
    WeightyWith(d, ch.x, ch.size, ch.fee, Parents(c.graph, ch.ins), ch.ins, ch.vals);
  }

  /** A newcomer that may enter does so exactly when the store takes it in the end and the trimming went through, which stops
      early only where the newcomer is outbid or would lose a parent. */
  ghost predicate Concludes(a: PoolAccept.Answer, c: Contents, ins: seq<Outpoint>, fee: nat, size: nat, fulls: nat, stored: bool, gone: set<Txid>, steps: seq<Contents>) {
    && a in {Accepted, MempoolFull} && 0 < |steps| <= fulls + 1
    && (a == Accepted <==> stored && |steps| == fulls + 1 && Parents(c.graph, ins) !! gone)
    && (|steps| <= fulls ==> Outbid(steps[|steps| - 1].graph, fee, size) || !(Parents(c.graph, ins) !! gone))
  }

  /** Where the newcomer can be trimmed for, it is not outbid: the two never hold together. */
  lemma TrimOrOutbid(a: Contents, b: Contents, fee: nat, size: nat)
    requires TrimStep(a, b, fee, size)
    ensures !Outbid(a.graph, fee, size)
  {
    hide Eviction.CheapestOf;
    var W: set<Txid>, f: nat, s: nat :| Trimmed(a, b, fee, size, W, f, s);
    CheapestParts(a.graph, W, f, s);
    forall V: set<Txid>, g: nat, t: nat | Eviction.CheapestOf(a.graph, V, g, t) ensures fee * t > g * size {
      SameRate(a.graph, W, f, s, V, g, t);
      Cross(fee, size, f, s, g, t);
    }
    assert W != {} by { CheapestSome(a.graph, W, f, s); }
  }

  lemma CheapestSome(v: View, W: set<Txid>, f: nat, s: nat)
    requires Eviction.CheapestOf(v, W, f, s)
    ensures W != {} && s > 0
  {
  }

  lemma SameRate(v: View, W: set<Txid>, f: nat, s: nat, V: set<Txid>, g: nat, t: nat)
    requires Eviction.CheapestOf(v, W, f, s) && Eviction.CheapestOf(v, V, g, t)
    ensures f * t == g * s && s > 0 && t > 0
  {
    hide KidClosed, FeeSum, Weight;
    assert f * Weight(v, V) <= FeeSum(v, V) * s;
    assert g * Weight(v, W) <= FeeSum(v, W) * t;
  }

  lemma Cross(fee: nat, size: nat, f: nat, s: nat, g: nat, t: nat)
    requires f * t == g * s && s > 0 && t > 0 && fee * s > f * size
    ensures fee * t > g * size
  {
    assert t * (fee * s) > t * (f * size);
    assert s * (g * size) == (g * s) * size == (f * t) * size == t * (f * size);
    assert t * (fee * s) == s * (fee * t);
    LessByFactor(s, g * size, fee * t);
  }

  lemma LessByFactor(s: nat, x: int, y: int)
    ensures s * x < s * y ==> x < y
  {
    if x >= y { assert s * x >= s * y; }
  }

  lemma Concluded(a: PoolAccept.Answer, c: Contents, d: Contents, ins: seq<Outpoint>, fee: nat, size: nat, fulls: nat, stored: bool, gone: set<Txid>,
                  steps: seq<Contents>, ok: bool)
    requires TrimRun(steps, fee, size) && steps[|steps| - 1] == d && a == if ok && stored then Accepted else MempoolFull
    requires |steps| <= fulls + 1 && (ok <==> Parents(c.graph, ins) !! gone && |steps| == fulls + 1)
    requires !ok ==> Outbid(d.graph, fee, size) || !(Parents(c.graph, ins) !! gone)
    ensures Concludes(a, c, ins, fee, size, fulls, stored, gone, steps)
  {
    hide Outbid, Parents, TrimStep;
  }

  /** Room made for a newcomer that may enter, and its entry. */
  method MoveIn(p: Pool, x: Txid, size: nat, fee: nat, ins: seq<Outpoint>, vals: seq<nat>, evict: seq<Txid>, cnt: nat, total: nat,
                last: Linearizer, fulls: nat, stored: bool, top0: nat, ghost count: nat, ghost bytes: nat)
    returns (a: PoolAccept.Answer, top: nat, ghost gone: set<Txid>, ghost evicted: set<Txid>, ghost steps: seq<Contents>)
    requires p.Valid() && Lawful(p.Now().graph, count, bytes) && count <= CLUSTER_LIMIT && bytes <= U32_MAX && NoRepeats(ins)
    requires Weighty(p.Now().graph) && size > 0 && Eviction.Own(last) && CacheOk(p.nodes.Entries(), last, top0)
    requires x !in p.Now().graph && Admissible(p.Now(), IdSet(evict), ins, size, count, bytes) && HasRoom(p, |ins|, |vals|)
    requires FiguresOf(p.Now().graph, ins, size, cnt, total) && |Parents(p.Now().graph, ins)| <= MAX_PARENTS
    modifies Parts(p.nodes), Parts(p.claims), Parts(p.outs)
    ensures p.Valid() && CacheOk(p.nodes.Entries(), last, top) && evicted == IdSet(evict)
    ensures Ends(a, old(p.Now()), p.Now(), Enter(gone, x, size, fee, ins, vals), evicted, steps, count, bytes)
    ensures Concludes(a, old(p.Now()), ins, fee, size, fulls, stored, gone, steps)
  {
    hide Pool.Valid, Pool.Now, Table.Valid, Table.Entries, Lawful, Admissible, Parents, Without, With, IdSet, Left, FiguresOf,
      NoRepeats, CacheStays, CacheOk, Eviction.Own, Weighty, TrimRun, Outbid, KidClosed, Ends, HasRoom, Concludes;
    ghost var frame := Parts(p.nodes) + Parts(p.claims) + Parts(p.outs);
    ghost var c := p.Now();
    evicted := IdSet(evict);
    var ok;
    ok, top, gone, steps := MakeWay(p, evict, last, fulls, fee, size, ins, |vals|, top0, count, bytes);
    ghost var d, ns, ch := p.Now(), p.nodes.Entries(), Enter(gone, x, size, fee, ins, vals);
    a := if ok && stored then Accepted else MempoolFull;
    Concluded(a, c, d, ins, fee, size, fulls, stored, gone, steps, ok);
    if !ok || !stored {
      GivenUp(c, d, ch, evicted, steps, count, bytes);
      return;
    }
    LeftIs(c, d, gone);
    Finish(p, x, size, fee, ins, vals, cnt, total, c, gone, count, bytes);
    StillTrue(ns, p.nodes.Entries(), last, top);
    LetInAs(c, d, p.Now(), ch, evicted, steps, count, bytes);
  }

  /** Whether the newcomer pays more for its weight than the worst chunk that those who leave have no part in. */
  ghost predicate Worth(ns: seq<Node>, last: Linearizer, E: set<Txid>, fee: nat, size: nat) {
    && Sensible(last) && Scorable(ns) && WorstChunk.Answer(ns, last, E).Some?
    && var w := WorstChunk.Answer(ns, last, E).value; fee * w.size > w.fee * size
  }

  /** A newcomer that may enter: it is let in, or the pool is full for it. */
  method LetIn(p: Pool, x: Txid, size: nat, fee: nat, ins: seq<Outpoint>, vals: seq<nat>, evict: seq<Txid>, cnt: nat, total: nat,
               last: Linearizer, tight: bool, fulls: nat, stored: bool, top0: nat, ghost count: nat, ghost bytes: nat)
    returns (a: PoolAccept.Answer, top: nat, ghost gone: set<Txid>, ghost evicted: set<Txid>, ghost steps: seq<Contents>)
    requires p.Valid() && Lawful(p.Now().graph, count, bytes) && count <= CLUSTER_LIMIT && bytes <= U32_MAX && NoRepeats(ins)
    requires Weighty(p.Now().graph) && size > 0 && Eviction.Own(last) && CacheOk(p.nodes.Entries(), last, top0)
    requires x !in p.Now().graph && Admissible(p.Now(), IdSet(evict), ins, size, count, bytes) && HasRoom(p, |ins|, |vals|)
    requires FiguresOf(p.Now().graph, ins, size, cnt, total) && |Parents(p.Now().graph, ins)| <= MAX_PARENTS
    modifies Parts(p.nodes), Parts(p.claims), Parts(p.outs)
    ensures p.Valid() && CacheOk(p.nodes.Entries(), last, top)
    ensures Ends(a, old(p.Now()), p.Now(), Enter(gone, x, size, fee, ins, vals), evicted, steps, count, bytes)
    ensures var through := tight ==> Worth(old(p.nodes.Entries()), last, IdSet(evict), fee, size);
      if through then evicted == IdSet(evict) && Concludes(a, old(p.Now()), ins, fee, size, fulls, stored, gone, steps)
      else a == MempoolFull && gone == evicted == {}
  {
    hide Pool.Valid, Pool.Now, Table.Valid, Table.Entries, Lawful, Admissible, Parents, Without, With, IdSet, Left, FiguresOf,
      NoRepeats, CacheStays, CacheOk, Eviction.Own, Weighty, TrimRun, Outbid, KidClosed, Ends, Worth, Concludes;
    ghost var frame := Parts(p.nodes) + Parts(p.claims) + Parts(p.outs);
    ghost var c := p.Now();
    gone, evicted, top, steps := {}, {}, top0, [c];
    if tight {
      var pays;
      pays, top := PaysEnough(p, last, evict, fee, size, top0, count, bytes);
      if !pays {
        a := MempoolFull;
        NothingDone(a, c, Enter(gone, x, size, fee, ins, vals), count, bytes);
        return;
      }
    }
    a, top, gone, evicted, steps := MoveIn(p, x, size, fee, ins, vals, evict, cnt, total, last, fulls, stored, top, count, bytes);
  }

  /** Whether a newcomer gets as far as sending anyone away. */
  ghost predicate GoesAhead(c: Contents, ns: seq<Node>, x: Txid, size: nat, fee: nat, ins: seq<Outpoint>, count: nat, bytes: nat,
                            standard: bool, fees: bool, swap: bool, last: Linearizer, tight: bool, room: bool)
  {
    && MayEnter(c, x, size, ins, count, bytes, standard, fees, swap) && room
    && (tight ==> Worth(ns, last, SentAway(c, ins, swap), fee, size))
  }

  /**
   * A newcomer offered to the pool. Whatever the answer, and whatever had to leave, the laws hold. It is let in exactly when the
   * rules about the graph allow it, it pays more than the worst chunk where that is asked, every trim the store asks for goes
   * through and the store then takes it; what is replaced is exactly what its rivals take along, and its lone sibling where that
   * is called for. A refusal that has already trimmed the pool is the only one that leaves it changed. Beyond those it replaces,
   * only least paying sets leave, each of the pool at that moment. Overran stands for no answer: the walk up has come to the end
   * of its list with ancestors left, and what is said is of the pool at that moment.
   */
  method Accept(p: Pool, x: Txid, size: nat, fee: nat, ins: seq<Outpoint>, vals: seq<nat>, count: nat, bytes: nat,
                standard: bool, fees: bool, swap: bool, last: Linearizer, tight: bool, fulls: nat, stored: bool, top0: nat)
    returns (a: PoolAccept.Answer, top: nat, ghost gone: set<Txid>, ghost evicted: set<Txid>, ghost steps: seq<Contents>)
    requires p.Valid() && Lawful(p.Now().graph, count, bytes) && count <= CLUSTER_LIMIT && bytes <= U32_MAX && NoRepeats(ins)
    requires Weighty(p.Now().graph) && size > 0 && Eviction.Own(last) && CacheOk(p.nodes.Entries(), last, top0)
    modifies Parts(p.nodes), Parts(p.claims), Parts(p.outs)
    ensures p.Valid() && CacheOk(p.nodes.Entries(), last, top)
    ensures Ends(a, old(p.Now()), p.Now(), Enter(gone, x, size, fee, ins, vals), evicted, steps, count, bytes)
    ensures if MayEnter(old(p.Now()), x, size, ins, count, bytes, standard, fees, swap) && old(HasRoom(p, |ins|, |vals|)) then a in {Accepted, MempoolFull}
      else Answered(old(p.Now()), a, x, size, ins, count, bytes, standard, fees, swap, old(p.nodes.n < p.nodes.entries.Length), false)
    ensures if GoesAhead(old(p.Now()), old(p.nodes.Entries()), x, size, fee, ins, count, bytes, standard, fees, swap, last, tight, old(HasRoom(p, |ins|, |vals|)))
      then evicted == SentAway(old(p.Now()), ins, swap) && Concludes(a, old(p.Now()), ins, fee, size, fulls, stored, gone, steps)
      else a != Accepted && gone == evicted == {}
  {
    hide Pool.Valid, Pool.Now, Table.Valid, Table.Entries, Lawful, Admissible, Parents, Without, With, IdSet, FiguresOf, HasRoom,
      RoomFor, NoRepeats, Remove, Down, Rivals, CacheOk, Eviction.Own, Weighty, TrimRun, Ends, Answered, MayEnter, Worth, SentAway, Concludes;
    ghost var frame := Parts(p.nodes) + Parts(p.claims) + Parts(p.outs);
    ghost var c, free, room := p.Now(), p.nodes.n < p.nodes.entries.Length, HasRoom(p, |ins|, |vals|);
    var evict, cnt, total;
    a, evict, cnt, total := Admit(p, x, size, ins, |vals|, count, bytes, standard, fees, swap);
    AnsweredIs(c, a, x, size, ins, count, bytes, standard, fees, swap, free, room);
    gone, evicted, top, steps := {}, {}, top0, [c];
    if a != Accepted {
      NothingDone(a, c, Enter(gone, x, size, fee, ins, vals), count, bytes);
      return;
    }
    a, top, gone, evicted, steps := LetIn(p, x, size, fee, ins, vals, evict, cnt, total, last, tight, fulls, stored, top0, count, bytes);
    ConcludesIn(a, c, ins, fee, size, fulls, stored, gone, steps);
  }

  lemma AnsweredIs(c: Contents, a: PoolAccept.Answer, x: Txid, size: nat, ins: seq<Outpoint>, count: nat, bytes: nat,
                   standard: bool, fees: bool, swap: bool, free: bool, room: bool)
    requires Answered(c, a, x, size, ins, count, bytes, standard, fees, swap, free, room)
    ensures a == Accepted <==> MayEnter(c, x, size, ins, count, bytes, standard, fees, swap) && room
    ensures a != Accepted ==> Answered(c, a, x, size, ins, count, bytes, standard, fees, swap, free, false)
    ensures a == Accepted ==> x !in c.graph
  {
    hide TooManyLeave, RivalList, Spares, Overruns, Fitting, RoomFor, LoneOf, PlacesFor, Up, Down, Rivals, Reaches, Remove;
  }

  lemma ConcludesIn(a: PoolAccept.Answer, c: Contents, ins: seq<Outpoint>, fee: nat, size: nat, fulls: nat, stored: bool, gone: set<Txid>, steps: seq<Contents>)
    ensures Concludes(a, c, ins, fee, size, fulls, stored, gone, steps) ==> a in {Accepted, MempoolFull}
  {
  }

  lemma WeightyWith(c: Contents, x: Txid, size: nat, fee: nat, P: set<Txid>, ins: seq<Outpoint>, vals: seq<nat>)
    requires Weighty(c.graph) && size > 0
    ensures Weighty(With(c, x, Entry(size, fee, P), ins, vals).graph)
  {
  }

  /** There is a chunk, and the newcomer pays more for its weight. */
  predicate Pays(w: Option<Worst>, fee: nat, size: nat) {
    w.Some? && fee * w.value.size > w.value.fee * size
  }

  /** Before anyone is evicted for a newcomer that will not fit: whether it pays more for its weight than the worst chunk that the
      evicted have no part in. */
  method PaysEnough(p: Pool, last: Linearizer, evict: seq<Txid>, fee: nat, size: nat, top0: nat, ghost count: nat, ghost bytes: nat)
    returns (pays: bool, top: nat)
    requires p.Valid() && Lawful(p.Now().graph, count, bytes) && count <= CLUSTER_LIMIT && Weighty(p.Now().graph)
    requires Eviction.Own(last) && CacheOk(p.nodes.Entries(), last, top0)
    modifies p.nodes.entries
    ensures p.Valid() && p.Now() == old(p.Now()) && CacheOk(p.nodes.Entries(), last, top)
    ensures pays <==> Worth(old(p.nodes.Entries()), last, IdSet(evict), fee, size)
  {
    hide Pool.Valid, Pool.Now, Table.Valid, Table.Entries, Lawful, Weighty, CacheOk, Eviction.Own, Sensible, Scorable, WorstChunk.Answer;
    Eviction.OwnIsSensible(last);
    var r;
    AllIds(evict);
    r, top := WorstOf(p, last, evict, top0, count, bytes);
    pays := Pays(r, fee, size);
  }
}
