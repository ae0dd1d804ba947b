/** The decision about a newcomer, before anything is changed. */
module PoolAdmit {
  import opened ChainTable
  import opened PoolViews
  import opened PoolAncestors
  import opened NodeRemoval
  import opened PoolTables
  import opened PoolState
  import opened PoolClusters
  import opened ClusterWalk
  import opened PoolWalks
  import opened PoolLaws
  import opened PoolAccept
  import Sums

  /** Those who leave take their spenders along and spare what is spent; nobody else claims an outpoint; the cluster has room. */
  ghost predicate Admissible(c: Contents, E: set<Txid>, ins: seq<Outpoint>, size: nat, count: nat, bytes: nat) {
    && KidClosed(c.graph, E) && Parents(c.graph, ins) !! E && Rivals(c, ins) <= E
    && RoomFor(Remove(c.graph, E), Parents(c.graph, ins), size, count, bytes)
  }

  /** Does the newcomer spend an output of something it evicts? */
  method SpendsAny(ins: seq<Outpoint>, evict: seq<Txid>) returns (r: bool)
    ensures r <==> exists op :: op in ins && op.0 in IdSet(evict)
  {
    r := false;
    for i := 0 to |ins|
      invariant !r && forall op :: op in ins[..i] ==> op.0 !in evict
    {
      if ins[i].0 in evict {
        assert ins[i] in ins;
        return true;
      }
    }
    assert ins[..|ins|] == ins;
  }

  lemma SparesParents(v: View, ins: seq<Outpoint>, E: set<Txid>)
    requires !exists op :: op in ins && op.0 in E
    ensures Parents(v, ins) !! E
  {
  }

  lemma SeedsAre(ns: seq<Node>, par: seq<int>, E: set<Txid>, P: set<Txid>)
    requires Collected(ns, par, P) && P !! E
    ensures P == set k: nat | k < |par| && 0 <= par[k] < |ns| && ns[par[k]].txid !in E :: ns[par[k]].txid
  {
  }

  /** The limits, as the walk over the cluster sees them: exactly whether there is room. */
  method FitsCluster(ns: seq<Node>, kids: seq<seq<nat>>, evict: seq<Txid>, par: seq<int>, size: nat, count: nat, bytes: nat,
                     ghost P: set<Txid>)
    returns (fits: bool)
    requires Distinct(ns) && KidsOk(ns, kids) && Collected(ns, par, P) && P !! IdSet(evict) && count <= CLUSTER_LIMIT
    ensures fits <==> RoomFor(Remove(ViewOf(ns), IdSet(evict)), P, size, count, bytes)
  {
    hide Distinct, KidsOk, Collected, ViewOf, Remove, Cluster, Weight;
    SeedsAre(ns, par, IdSet(evict), P);
    var full, c, b := Measure(ns, kids, IdSet(evict), par, P);
    fits := !full && c + 1 <= count && b + size <= bytes;
  }

  /** More parents than can be recorded is a cluster over any limit. */
  lemma CutIsTooLarge(v: View, ins: seq<Outpoint>, E: set<Txid>, size: nat, count: nat, bytes: nat)
    requires |Parents(v, ins)| > MAX_PARENTS && Parents(v, ins) !! E && count <= CLUSTER_LIMIT
    ensures !RoomFor(Remove(v, E), Parents(v, ins), size, count, bytes)
  {
    var w, P := Remove(v, E), Parents(v, ins);
    ClusterClosed(w, P);
    Sums.SubsetSize(P, Cluster(w, P));
  }

  /** s is all that spends the one parent, and the parent is all that s descends from. */
  ghost predicate Lone(v: View, P: set<Txid>, s: Txid) {
    s in v && exists q :: q in v && P == {q} && q != s && Down(v, {q}) == {q, s} && Ancestors(v, s) == {q}
  }

  /** The newcomer's lone sibling, if it would have one. */
  ghost function LoneOf(v: View, P: set<Txid>): set<Txid> {
    set s | s in v && Lone(v, P, s)
  }

  lemma NoneLone(v: View, P: set<Txid>)
    requires forall q :: P == {q} ==> |Down(v, {q})| != 2
    ensures LoneOf(v, P) == {}
  {
    hide Down, Ancestors;
    forall s | s in v ensures !Lone(v, P, s) {
      forall q | q in v && P == {q} && q != s ensures Down(v, {q}) != {q, s} {
        assert |{q, s}| == 2;
      }
    }
  }

  /** A sole child is lone exactly when it has one ancestor. */
  lemma LoneIs(v: View, P: set<Txid>, q: Txid, s: Txid)
    requires q in v && s in v && P == {q} && q != s && Down(v, {q}) == {q, s}
    ensures LoneOf(v, P) == if |Ancestors(v, s)| == 1 then {s} else {}
  {
    ChildOf(v, q, s);
    hide Down, Ancestors;
    if |Ancestors(v, s)| == 1 {
      Sums.SubsetSize({q}, Ancestors(v, s));
      OnlyOne(Ancestors(v, s), q);
      assert Lone(v, P, s);
    }
    forall u | u in v && Lone(v, P, u) ensures u == s && |Ancestors(v, s)| == 1 {
      var r :| r in v && P == {r} && r != u && Down(v, {r}) == {r, u} && Ancestors(v, u) == {r};
      assert r == q by { assert r in P; }
      assert u in {q, s};
    }
  }

  lemma OnlyOne(A: set<Txid>, q: Txid)
    requires |A| == 1 && q in A
    ensures A == {q}
  {
    forall a | a in A ensures a == q {
      if a != q { Sums.SubsetSize({a, q}, A); }
    }
  }

  lemma ChildOf(v: View, q: Txid, s: Txid)
    requires q in v && s in v && q != s && Down(v, {q}) == {q, s}
    ensures q in Ancestors(v, s)
  {
    if q !in v[s].parents {
      DownCloses(v, {q});
      assert KidClosed(v, {q});
    }
  }

  /** The one other child of the newcomer's one parent joins those who leave, exactly when it is lone and the list has a place. */
  method Sibling(t: Nodes, ns: seq<Node>, kids: seq<seq<nat>>, par: seq<int>, evict: seq<Txid>, ghost P: set<Txid>)
    returns (ok: bool, r: seq<Txid>)
    requires t.Valid() && Keyed(t) && ns == t.Entries() && Distinct(ns) && KidsOk(ns, kids) && Collected(ns, par, P) && Acyclic(ViewOf(ns)) && AncExact(ns)
    requires KidClosed(ViewOf(ns), IdSet(evict)) && P !! IdSet(evict)
    ensures KidClosed(ViewOf(ns), IdSet(r)) && P !! IdSet(r) && IdSet(evict) <= IdSet(r)
    ensures ok <==> LoneOf(ViewOf(ns), P) != {} && |evict| < 6400
    ensures IdSet(r) == if ok then IdSet(evict) + LoneOf(ViewOf(ns), P) else IdSet(evict)
  {
    hide Distinct, KidsOk, ViewOf, Down, KidClosed, Acyclic, IdSet, Ids, Threaded, LoneOf, Keyed, AncExact, Txids, Table.Valid, Table.Entries, Names;
    ok, r := false, evict;
    if |par| == 1 && |evict| < MAX_EVICT {
      OneParent(ns, par, P);
      var full, ids, _ := Descendants(ns, kids, par[0]);
      if !full && |ids| == 2 {
        var s := t.Find(ids[1]);
        NameOf(t, ids[1], s);
        AllIds(ids);
        SoleSibling(ns, P, ids, s);
        if ns[s].ancCnt == 2 {
          SiblingLeaves(ns, par, P, evict, ids);
          IdSetWith(evict, ids[1]);
          ok, r := true, evict + [ids[1]];
        }
      } else {
        NoneLone(ViewOf(ns), P);
      }
    } else if |par| != 1 {
      NoneLone(ViewOf(ns), P);
    }
  }

  /** What the stored count says of a sole child. */
  lemma SoleSibling(ns: seq<Node>, P: set<Txid>, ids: seq<Txid>, s: int)
    requires Distinct(ns) && AncExact(ns) && |ids| == 2 && P == {ids[0]} && ids[0] in ViewOf(ns)
    requires IdSet(ids) == Down(ViewOf(ns), {ids[0]}) && |Down(ViewOf(ns), {ids[0]})| == 2
    requires if s < 0 then ids[1] !in Txids(ns) else s < |ns| && ns[s].txid == ids[1]
    ensures 0 <= s < |ns| && LoneOf(ViewOf(ns), P) == if ns[s].ancCnt == 2 then {ids[1]} else {}
  {
    hide Distinct, Down, Ancestors, LoneOf, ViewOf;
    var v := ViewOf(ns);
    TwoIds(ids);
    DownInView(ns, ids[0], ids[1]);
    LoneIs(v, P, ids[0], ids[1]);
    assert Exact(ns, s, ns[s].ancCnt, ns[s].ancBytes);
  }

  lemma DownInView(ns: seq<Node>, q: Txid, s: Txid)
    requires q in ViewOf(ns) && s in Down(ViewOf(ns), {q})
    ensures s in ViewOf(ns) && s in Txids(ns)
  {
  }

  lemma SiblingLeaves(ns: seq<Node>, par: seq<int>, P: set<Txid>, evict: seq<Txid>, ids: seq<Txid>)
    requires Distinct(ns) && Collected(ns, par, P) && |par| == 1 && Acyclic(ViewOf(ns)) && |ids| == 2 && ids[0] == ns[par[0]].txid
    requires IdSet(ids) == Down(ViewOf(ns), {ids[0]}) && |Down(ViewOf(ns), {ids[0]})| == 2
    requires KidClosed(ViewOf(ns), IdSet(evict)) && P !! IdSet(evict)
    ensures KidClosed(ViewOf(ns), IdSet(evict + [ids[1]])) && P !! IdSet(evict + [ids[1]]) && IdSet(evict) <= IdSet(evict + [ids[1]])
  {
    hide Distinct, ViewOf, Down, Acyclic;
    var v, q, s := ViewOf(ns), ids[0], ids[1];
    ViewGrounded(ns);
    TwoIds(ids);
    assert q in v by { ViewAt(ns, par[0]); }
    SoleChild(v, q, s);
    assert P == {q} by { OneParent(ns, par, P); }
    IdSetWith(evict, s);
    assert KidClosed(v, IdSet(evict) + {s});
  }

  lemma TwoIds(ids: seq<Txid>)
    requires |ids| == 2 && |IdSet(ids)| == 2
    ensures ids[0] != ids[1] && IdSet(ids) == {ids[0], ids[1]}
  {
    assert IdSet(ids) == {ids[0], ids[1]};
  }

  lemma OneParent(ns: seq<Node>, par: seq<int>, P: set<Txid>)
    requires Collected(ns, par, P) && |par| == 1
    ensures P == {ns[par[0]].txid}
  {
    forall t | t in P ensures t == ns[par[0]].txid { }
    assert ns[par[0]].txid in P;
  }

  /** Whether there are slots for a transaction. */
  predicate HasRoom(p: Pool, nIn: nat, nOut: nat)
    reads p.nodes, p.claims, p.outs
  {
    && p.nodes.n < p.nodes.entries.Length
    && p.claims.n + nIn <= p.claims.entries.Length && p.outs.n + nOut <= p.outs.entries.Length
  }

  /** The newcomer's figures, from the graph as it is before anyone leaves. */
  ghost predicate FiguresOf(v: View, ins: seq<Outpoint>, size: nat, cnt: nat, total: nat) {
    var U := Up(v, Parents(v, ins));
    cnt == 1 + |U| && total == size + Weight(v, U)
  }

  /** What a pool is made of. */
  lemma Opened(p: Pool)
    requires p.Valid()
    ensures p.nodes.Valid() && Keyed(p.nodes) && Distinct(p.nodes.Entries()) && p.nodes.n == |p.nodes.Entries()| <= p.nodes.entries.Length
    ensures p.nodes.Entries() == p.nodes.entries[..p.nodes.n]
    ensures p.Now() == Held(p.nodes.Entries(), p.claims.Entries(), p.outs.Entries()) && p.Now().graph == ViewOf(p.nodes.Entries())
  {
    hide Threaded;
  }

  /** The newcomer spends nothing of what it sends away. */
  ghost predicate Spares(c: Contents, ins: seq<Outpoint>) {
    forall op :: op in ins ==> op.0 !in Down(c.graph, Rivals(c, ins))
  }

  /** Whom the newcomer replaces: its rivals and all that spends them, unless they are too many or it spends one of those itself. */
  ghost predicate Settles(c: Contents, ins: seq<Outpoint>, a: Answer, evict: seq<Txid>) {
    && a in {Accepted, TooManyReplacements, SpendsConflicting}
    && (a == TooManyReplacements <==> TooManyLeave(c.graph, RivalList(c, ins)))
    && (a != TooManyReplacements ==> IdSet(evict) == Down(c.graph, Rivals(c, ins)) && |evict| == PlacesFor(c.graph, RivalList(c, ins)))
    && (a == Accepted ==> Spares(c, ins)) && (a == SpendsConflicting ==> !Spares(c, ins))
  }

  /** The evicted, from the conflicts; none of them is spent by the newcomer. */
  method Replaced(p: Pool, ns: seq<Node>, kids: seq<seq<nat>>, ins: seq<Outpoint>) returns (a: Answer, evict: seq<Txid>)
    requires p.Valid() && ns == p.nodes.Entries() && KidsOk(ns, kids)
    ensures Settles(p.Now(), ins, a, evict)
  {
    hide Pool.Valid, Pool.Now, Table.Valid, Table.Entries, InOrder, Unique, Keyed, ClaimKeyed, OutKeyed, Rivals, Down, IdSet, KidsOk,
      ViewOf, Remove, RoomFor, Parents, Up, Weight, Collected, KidClosed, Acyclic, Limited, Grounded, Lawful, Held, Distinct, Txids,
      Admissible, FiguresOf, HasRoom, Names, All, Overruns, TooManyLeave, PlacesFor, RivalList;
    ghost var frame := Parts(p.nodes) + Parts(p.claims) + Parts(p.outs);
    Opened(p);
    var conf := Conflicts(p, ins);
    a, evict := Opposed(ns, kids, conf, ins);
  }

  /** What the rivals take along, and whether the newcomer spends any of it. */
  method Opposed(ns: seq<Node>, kids: seq<seq<nat>>, conf: seq<nat>, ins: seq<Outpoint>) returns (a: Answer, evict: seq<Txid>)
    requires Distinct(ns) && KidsOk(ns, kids) && All(conf, |ns|)
    ensures a in {Accepted, TooManyReplacements, SpendsConflicting}
    ensures a == TooManyReplacements <==> TooManyLeave(ViewOf(ns), Names(ns, conf))
    ensures a != TooManyReplacements ==> IdSet(evict) == Down(ViewOf(ns), IdSet(Names(ns, conf))) && |evict| == PlacesFor(ViewOf(ns), Names(ns, conf))
    ensures a == SpendsConflicting ==> exists op :: op in ins && op.0 in IdSet(evict)
    ensures a == Accepted ==> forall op :: op in ins ==> op.0 !in IdSet(evict)
  {
    hide Distinct, KidsOk, ViewOf, Down, IdSet, Names, Taken, Repeats, PaidTwice, FeeSum, TooManyLeave, PlacesFor;
    var ok, fees;
    ok, evict, fees := EvictSet(ns, kids, conf);
    TakenAre(ns, conf);
    TooManyIs(ns, conf);
    RepeatsAre(ns, conf);
    if !ok { return TooManyReplacements, evict; }
    var clash := SpendsAny(ins, evict);
    a := if clash then SpendsConflicting else Accepted;
  }

  lemma TakenAre(ns: seq<Node>, conf: seq<nat>)
    requires All(conf, |ns|)
    ensures Taken(ns, conf) == Down(ViewOf(ns), IdSet(Names(ns, conf)))
  {
  }

  /** More ancestors than the newcomer's list of them holds, from parents that are few enough to be listed. */
  ghost predicate Overruns(v: View, ins: seq<Outpoint>) {
    |Parents(v, ins)| <= MAX_PARENTS && |Up(v, Parents(v, ins))| > ANC_LIST
  }

  /** Whether the newcomer's lone sibling can be sent away where that is called for. */
  ghost predicate Swaps(v: View, P: set<Txid>, places: nat, swap: bool) {
    swap ==> LoneOf(v, P) != {} && places < 6400
  }

  /** Who leaves for the newcomer: what its rivals take along and, where that is called for, its lone sibling. */
  ghost function SentAway(c: Contents, ins: seq<Outpoint>, swap: bool): set<Txid> {
    Down(c.graph, Rivals(c, ins)) + if swap then LoneOf(c.graph, Parents(c.graph, ins)) else {}
  }

  /** How the look at the newcomer's surroundings ends, L being those who leave already, on a list of so many places. */
  ghost predicate Joined(v: View, ins: seq<Outpoint>, L: set<Txid>, places: nat, size: nat, count: nat, bytes: nat, swap: bool, a: Answer, E: set<Txid>) {
    var P := Parents(v, ins);
    var over, fits := Overruns(v, ins), RoomFor(Remove(v, L), P, size, count, bytes);
    && (a == Overran <==> over) && (a == TooLargeCluster <==> !over && !fits)
    && (a == Unfit <==> !over && fits && !Swaps(v, P, places, swap))
    && (a == Accepted <==> !over && fits && Swaps(v, P, places, swap))
    && (a == Accepted ==> E == L + (if swap then LoneOf(v, P) else {}) && KidClosed(v, E) && P !! E && RoomFor(Remove(v, E), P, size, count, bytes))
  }

  lemma JoinedNot(v: View, ins: seq<Outpoint>, L: set<Txid>, places: nat, size: nat, count: nat, bytes: nat, swap: bool, a: Answer, E: set<Txid>)
    requires a in {Overran, TooLargeCluster} && (a == Overran <==> Overruns(v, ins))
    requires a == TooLargeCluster ==> !RoomFor(Remove(v, L), Parents(v, ins), size, count, bytes)
    ensures Joined(v, ins, L, places, size, count, bytes, swap, a, E)
  {
    hide Overruns, RoomFor, Remove, Parents, KidClosed, Swaps, LoneOf;
  }

  lemma JoinedThen(v: View, ins: seq<Outpoint>, L: set<Txid>, places: nat, size: nat, count: nat, bytes: nat, swap: bool, ok: bool, E: set<Txid>)
    requires !Overruns(v, ins) && RoomFor(Remove(v, L), Parents(v, ins), size, count, bytes)
    requires if swap then ok <==> LoneOf(v, Parents(v, ins)) != {} && places < 6400 else ok
    requires E == if swap && ok then L + LoneOf(v, Parents(v, ins)) else L
    requires KidClosed(v, E) && Parents(v, ins) !! E
    ensures Joined(v, ins, L, places, size, count, bytes, swap, if ok then Accepted else Unfit, E)
  {
    hide Overruns, RoomFor, Remove, Parents, KidClosed, LoneOf;
    MoreRoom(v, L, E, Parents(v, ins), size, count, bytes);
    assert L + {} == L;
  }

  /** The newcomer's parents and figures, its cluster as it will be, and its sibling when that has to go too. */
  method Joins(t: Nodes, ns: seq<Node>, kids: seq<seq<nat>>, ins: seq<Outpoint>, leaving: seq<Txid>,
               size: nat, count: nat, bytes: nat, swap: bool)
    returns (a: Answer, evict: seq<Txid>, cnt: nat, total: nat)
    requires t.Valid() && Keyed(t) && ns == t.Entries() && Distinct(ns) && KidsOk(ns, kids) && Acyclic(ViewOf(ns)) && count <= CLUSTER_LIMIT
    requires Limited(ViewOf(ns), count, bytes) && AncExact(ns)
    requires KidClosed(ViewOf(ns), IdSet(leaving)) && forall op :: op in ins ==> op.0 !in IdSet(leaving)
    ensures a in {Accepted, TooLargeCluster, Overran, Unfit}
    ensures Joined(ViewOf(ns), ins, IdSet(leaving), |leaving|, size, count, bytes, swap, a, IdSet(evict))
    ensures a == Accepted ==> FiguresOf(ViewOf(ns), ins, size, cnt, total) && |Parents(ViewOf(ns), ins)| <= MAX_PARENTS
  {
    hide *;
    a, evict, cnt, total := TooLargeCluster, leaving, 0, 0;
    ghost var v, P, L, n := ViewOf(ns), Parents(ViewOf(ns), ins), IdSet(leaving), |leaving|;
    SparesParents(v, ins, L);
    var par, cut := CollectParents(t, ins);
    if cut {
      CutIsTooLarge(v, ins, L, size, count, bytes);
      CutNotWalked(v, ins);
      JoinedNot(v, ins, L, n, size, count, bytes, swap, a, L);
      return;
    }
    var w;
    w, cnt, total := Climb(ns, par, size);
    FewCollected(ns, par, P, count);
    assert Limited(v, count, bytes);
    WalkEnds(ns, par, ins, w);
    if w != Inside {
      a := Overran;
      JoinedNot(v, ins, L, n, size, count, bytes, swap, a, L);
      return;
    }
    FiguresFound(ns, par, ins, size, cnt, total);
    var fits := FitsCluster(ns, kids, leaving, par, size, count, bytes, P);
    if !fits { JoinedNot(v, ins, L, n, size, count, bytes, swap, a, L); return; }
    var ok := true;
    if swap { ok, evict := Sibling(t, ns, kids, par, leaving, P); }
    JoinedThen(v, ins, L, n, size, count, bytes, swap, ok, IdSet(evict));
    a := if ok then Accepted else Unfit;
  }

  /** Nothing stops the newcomer before its ancestors are walked; `free` says whether there is a slot for it. */
  ghost predicate Reaches(c: Contents, ins: seq<Outpoint>, fees: bool, free: bool) {
    !TooManyLeave(c.graph, RivalList(c, ins)) && Spares(c, ins) && fees && free
  }

  /** The newcomer fits: not too many ancestors, and a cluster within the limits once those it replaces have left. */
  ghost predicate Fitting(c: Contents, ins: seq<Outpoint>, size: nat, count: nat, bytes: nat) {
    RoomFor(Remove(c.graph, Down(c.graph, Rivals(c, ins))), Parents(c.graph, ins), size, count, bytes)
  }

  /** The answer about the graph, for a newcomer that is not in it. */
  ghost predicate Decided(c: Contents, a: Answer, ins: seq<Outpoint>, size: nat, count: nat, bytes: nat, fees: bool, free: bool, swap: bool) {
    && (a == TooManyReplacements <==> TooManyLeave(c.graph, RivalList(c, ins)))
    && (a == SpendsConflicting <==> !TooManyLeave(c.graph, RivalList(c, ins)) && !Spares(c, ins))
    && (a == Overran <==> Reaches(c, ins, fees, free) && Overruns(c.graph, ins))
    && (a == TooLargeCluster <==> Reaches(c, ins, fees, free) && !Overruns(c.graph, ins) && !Fitting(c, ins, size, count, bytes))
    && (a == Accepted <==> && Reaches(c, ins, fees, free) && !Overruns(c.graph, ins) && Fitting(c, ins, size, count, bytes)
                           && Swaps(c.graph, Parents(c.graph, ins), PlacesFor(c.graph, RivalList(c, ins)), swap))
  }

  /** The rules about the graph, for a newcomer that is not in it. */
  method Decide(p: Pool, ns: seq<Node>, kids: seq<seq<nat>>, size: nat, ins: seq<Outpoint>, count: nat, bytes: nat, fees: bool, swap: bool)
    returns (a: Answer, evict: seq<Txid>, cnt: nat, total: nat)
    requires p.Valid() && Lawful(p.Now().graph, count, bytes) && count <= CLUSTER_LIMIT && ns == p.nodes.Entries() && KidsOk(ns, kids)
    ensures a !in {AlreadyIn, Malformed}
    ensures Decided(p.Now(), a, ins, size, count, bytes, fees, p.nodes.n < p.nodes.entries.Length, swap)
    ensures a == Accepted ==> IdSet(evict) == SentAway(p.Now(), ins, swap)
    ensures a == Accepted ==> p.nodes.n < p.nodes.entries.Length && Admissible(p.Now(), IdSet(evict), ins, size, count, bytes)
    ensures a == Accepted ==> FiguresOf(p.Now().graph, ins, size, cnt, total) && |Parents(p.Now().graph, ins)| <= MAX_PARENTS
  {
    hide Pool.Valid, Pool.Now, Table.Valid, Table.Entries, InOrder, Unique, Keyed, ClaimKeyed, OutKeyed, Rivals, Down, IdSet, KidsOk,
      ViewOf, Remove, RoomFor, Parents, Up, Weight, Collected, KidClosed, Acyclic, Limited, Grounded, Lawful, Held, Distinct, Txids,
      Admissible, FiguresOf, HasRoom, Names, All, Overruns, TooManyLeave, RivalList, PlacesFor, Swaps, LoneOf, AncExact, Joined, Decided, Settles, Reaches,
      SentAway;
    ghost var frame := Parts(p.nodes) + Parts(p.claims) + Parts(p.outs);
    Opened(p);
    CountsExact(p);
    cnt, total := 0, 0;
    a, evict := Replaced(p, ns, kids, ins);
    ghost var c, free := p.Now(), p.nodes.n < p.nodes.entries.Length;
    if a != Accepted || !fees || p.nodes.n >= p.nodes.entries.Length {
      DecidedEarly(c, a, evict, ins, size, count, bytes, fees, free, swap);
      a := if a != Accepted then a else if !fees then Unfit else MempoolFull;
      return;
    }
    SettlesIs(c, ins, evict, fees, free);
    RivalsLeave(ns, p.claims.Entries(), p.outs.Entries(), ins);
    LawfulParts(ViewOf(ns), count, bytes);
    a, evict, cnt, total := Joins(p.nodes, ns, kids, ins, evict, size, count, bytes, swap);
    DecidedThen(p.Now(), a, IdSet(evict), ins, size, count, bytes, fees, swap);
  }

  lemma DecidedThen(c: Contents, a: Answer, E: set<Txid>, ins: seq<Outpoint>, size: nat, count: nat, bytes: nat, fees: bool, swap: bool)
    requires Reaches(c, ins, fees, true) && Rivals(c, ins) <= Down(c.graph, Rivals(c, ins)) && a in {Accepted, TooLargeCluster, Overran, Unfit}
    requires Joined(c.graph, ins, Down(c.graph, Rivals(c, ins)), PlacesFor(c.graph, RivalList(c, ins)), size, count, bytes, swap, a, E)
    ensures Decided(c, a, ins, size, count, bytes, fees, true, swap)
    ensures a == Accepted ==> E == SentAway(c, ins, swap) && Admissible(c, E, ins, size, count, bytes)
  {
    hide Rivals, Down, RoomFor, Remove, Parents, KidClosed, Overruns, TooManyLeave, RivalList, PlacesFor, Swaps, LoneOf;
  }

  lemma DecidedEarly(c: Contents, a: Answer, evict: seq<Txid>, ins: seq<Outpoint>, size: nat, count: nat, bytes: nat, fees: bool, free: bool, swap: bool)
    requires Settles(c, ins, a, evict) && (a == Accepted ==> !fees || !free)
    ensures a in {Accepted, TooManyReplacements, SpendsConflicting}
    ensures Decided(c, if a != Accepted then a else if !fees then Unfit else MempoolFull, ins, size, count, bytes, fees, free, swap)
  {
    hide Rivals, Down, RoomFor, Remove, Parents, Overruns, TooManyLeave, RivalList, PlacesFor, Swaps, Spares, IdSet;
  }

  lemma SettlesIs(c: Contents, ins: seq<Outpoint>, evict: seq<Txid>, fees: bool, free: bool)
    requires Settles(c, ins, Accepted, evict) && fees && free
    ensures Reaches(c, ins, fees, true) && IdSet(evict) == Down(c.graph, Rivals(c, ins)) && |evict| == PlacesFor(c.graph, RivalList(c, ins))
    ensures forall op :: op in ins ==> op.0 !in IdSet(evict)
  {
    hide Rivals, Down, TooManyLeave, RivalList, PlacesFor, IdSet;
  }

  lemma CountsExact(p: Pool)
    requires p.Valid()
    ensures AncExact(p.nodes.Entries())
  {
  }

  /** How many inputs a transaction may have. */
  predicate Parses(ins: seq<Outpoint>) {
    0 < |ins| <= MAX_INPUTS
  }

  /** Whether a newcomer may enter, as far as the graph goes. */
  ghost predicate MayEnter(c: Contents, x: Txid, size: nat, ins: seq<Outpoint>, count: nat, bytes: nat, standard: bool, fees: bool, swap: bool) {
    var E, P := Down(c.graph, Rivals(c, ins)), Parents(c.graph, ins);
    && 0 < |ins| <= 2048 && standard && fees && x !in c.graph
    && !TooManyLeave(c.graph, RivalList(c, ins)) && (forall op :: op in ins ==> op.0 !in E)
    && |P| <= 63 && |Up(c.graph, P)| <= 2080 && RoomFor(Remove(c.graph, E), P, size, count, bytes)
    && (swap ==> LoneOf(c.graph, P) != {} && PlacesFor(c.graph, RivalList(c, ins)) < 6400)
  }

  /** The answer to a newcomer; `free` says whether there is a slot for it, `room` whether there are slots for all it brings. */
  ghost predicate Answered(c: Contents, a: Answer, x: Txid, size: nat, ins: seq<Outpoint>, count: nat, bytes: nat,
                           standard: bool, fees: bool, swap: bool, free: bool, room: bool)
  {
    var unknown := Parses(ins) && standard && x !in c.graph;
    && (a == Malformed <==> !Parses(ins)) && (a == AlreadyIn <==> Parses(ins) && standard && x in c.graph)
    && (a == TooManyReplacements <==> unknown && TooManyLeave(c.graph, RivalList(c, ins)))
    && (a == SpendsConflicting <==> unknown && !TooManyLeave(c.graph, RivalList(c, ins)) && !Spares(c, ins))
    && (a == Overran <==> unknown && Reaches(c, ins, fees, free) && Overruns(c.graph, ins))
    && (a == TooLargeCluster <==> unknown && Reaches(c, ins, fees, free) && !Overruns(c.graph, ins) && !Fitting(c, ins, size, count, bytes))
    && (a == Accepted <==> MayEnter(c, x, size, ins, count, bytes, standard, fees, swap) && room)
  }

  /** A cluster with room has few enough parents. */
  lemma MayEnterIs(c: Contents, x: Txid, size: nat, ins: seq<Outpoint>, count: nat, bytes: nat, standard: bool, fees: bool, swap: bool)
    requires count <= CLUSTER_LIMIT
    ensures MayEnter(c, x, size, ins, count, bytes, standard, fees, swap) <==>
      && Parses(ins) && standard && x !in c.graph && Reaches(c, ins, fees, true) && !Overruns(c.graph, ins) && Fitting(c, ins, size, count, bytes)
      && Swaps(c.graph, Parents(c.graph, ins), PlacesFor(c.graph, RivalList(c, ins)), swap)
  {
    hide Rivals, Down, TooManyLeave, RivalList, PlacesFor, LoneOf, RoomFor, Remove, Up;
    var E := Down(c.graph, Rivals(c, ins));
    if |Parents(c.graph, ins)| > MAX_PARENTS && Spares(c, ins) {
      SparesParents(c.graph, ins, E);
      CutIsTooLarge(c.graph, ins, E, size, count, bytes);
    }
  }

  lemma AnsweredEarly(c: Contents, a: Answer, x: Txid, size: nat, ins: seq<Outpoint>, count: nat, bytes: nat,
                      standard: bool, fees: bool, swap: bool, free: bool, room: bool)
    requires if !Parses(ins) then a == Malformed else if !standard then a == Unfit else x in c.graph && a == AlreadyIn
    ensures Answered(c, a, x, size, ins, count, bytes, standard, fees, swap, free, room)
  {
    hide TooManyLeave, RivalList, Spares, Overruns, Fitting, RoomFor, LoneOf, PlacesFor, Up;
  }

  lemma AnsweredThen(c: Contents, a: Answer, x: Txid, size: nat, ins: seq<Outpoint>, count: nat, bytes: nat,
                     standard: bool, fees: bool, swap: bool, free: bool, room: bool)
    requires Parses(ins) && standard && x !in c.graph && count <= CLUSTER_LIMIT && (room ==> free) && a !in {AlreadyIn, Malformed}
    requires Decided(c, a, ins, size, count, bytes, fees, free, swap)
    ensures Answered(c, if a == Accepted && !room then MempoolFull else a, x, size, ins, count, bytes, standard, fees, swap, free, room)
  {
    hide TooManyLeave, RivalList, Spares, Overruns, Fitting, MayEnter, Swaps, PlacesFor;
    MayEnterIs(c, x, size, ins, count, bytes, standard, fees, swap);
  }

  /** Whether a newcomer may enter, whom it sends away, and its figures. */
  method Admit(p: Pool, x: Txid, size: nat, ins: seq<Outpoint>, nOut: nat, count: nat, bytes: nat, standard: bool, fees: bool, swap: bool)
    returns (a: Answer, evict: seq<Txid>, cnt: nat, total: nat)
    requires p.Valid() && Lawful(p.Now().graph, count, bytes) && count <= CLUSTER_LIMIT
    ensures Answered(p.Now(), a, x, size, ins, count, bytes, standard, fees, swap, p.nodes.n < p.nodes.entries.Length, HasRoom(p, |ins|, nOut))
    ensures a == Accepted ==> IdSet(evict) == SentAway(p.Now(), ins, swap)
    ensures a == Accepted ==> Admissible(p.Now(), IdSet(evict), ins, size, count, bytes)
    ensures a == Accepted ==> FiguresOf(p.Now().graph, ins, size, cnt, total) && |Parents(p.Now().graph, ins)| <= MAX_PARENTS
  {
    hide Pool.Valid, Pool.Now, Table.Valid, Table.Entries, InOrder, Unique, Keyed, ClaimKeyed, OutKeyed, Rivals, Down, IdSet, KidsOk,
      ViewOf, Remove, RoomFor, Parents, Up, Weight, Collected, KidClosed, Acyclic, Limited, Grounded, Lawful, Held, Distinct, Txids,
      Admissible, FiguresOf, Names, All, Answered, Decided, SentAway;
    ghost var frame := Parts(p.nodes) + Parts(p.claims) + Parts(p.outs);
    Opened(p);
    evict, cnt, total := [], 0, 0;
    ghost var c, free, room := p.Now(), p.nodes.n < p.nodes.entries.Length, HasRoom(p, |ins|, nOut);
    a := if !Parses(ins) then Malformed else Unfit;
    if !Parses(ins) || !standard {
      AnsweredEarly(c, a, x, size, ins, count, bytes, standard, fees, swap, free, room);
      return;
    }
    var at := p.nodes.Find(x);
    NameOf(p.nodes, x, at);
    if at >= 0 {
      a := AlreadyIn;
      AnsweredEarly(c, a, x, size, ins, count, bytes, standard, fees, swap, free, room);
      return;
    }
    var ns := p.nodes.entries[..p.nodes.n];
    var kids := BuildKids(ns);
    a, evict, cnt, total := Decide(p, ns, kids, size, ins, count, bytes, fees, swap);
    AnsweredThen(c, a, x, size, ins, count, bytes, standard, fees, swap, free, room);
    if a == Accepted && (p.claims.n + |ins| > p.claims.entries.Length || p.outs.n + nOut > p.outs.entries.Length) { a := MempoolFull; }
  }

  lemma Room(p: Pool, nIn: nat, nOut: nat)
    requires p.nodes.n < p.nodes.entries.Length
    requires p.claims.n + nIn <= p.claims.entries.Length && p.outs.n + nOut <= p.outs.entries.Length
    ensures HasRoom(p, nIn, nOut)
  {
  }

  lemma LawfulParts(v: View, count: nat, bytes: nat)
    requires Lawful(v, count, bytes)
    ensures Grounded(v) && Acyclic(v) && Limited(v, count, bytes)
  {
  }

  lemma FewCollected(ns: seq<Node>, par: seq<int>, P: set<Txid>, count: nat)
    requires Collected(ns, par, P) && |P| <= MAX_PARENTS && count <= CLUSTER_LIMIT
    ensures |par| == |P| && |par| + count < ANC_STACK
  {
  }

  lemma CutNotWalked(v: View, ins: seq<Outpoint>)
    requires |Parents(v, ins)| > MAX_PARENTS
    ensures !Overruns(v, ins)
  {
  }

  lemma WalkEnds(ns: seq<Node>, par: seq<int>, ins: seq<Outpoint>, w: Walked)
    requires Collected(ns, par, Parents(ViewOf(ns), ins)) && |par| <= MAX_PARENTS && w != PastStack
    requires w == Inside ==> |Up(ViewOf(ns), Ids(ns, par))| <= ANC_LIST
    requires w == PastList ==> |Up(ViewOf(ns), Ids(ns, par))| > ANC_LIST
    ensures Overruns(ViewOf(ns), ins) <==> w != Inside
  {
  }

  lemma FiguresFound(ns: seq<Node>, par: seq<int>, ins: seq<Outpoint>, size: nat, cnt: nat, total: nat)
    requires Collected(ns, par, Parents(ViewOf(ns), ins))
    requires cnt == 1 + |Up(ViewOf(ns), Ids(ns, par))| && total == size + Weight(ViewOf(ns), Up(ViewOf(ns), Ids(ns, par)))
    ensures FiguresOf(ViewOf(ns), ins, size, cnt, total)
  {
  }

  /** The rivals and what spends them are in the pool, and leave together. */
  lemma RivalsLeave(ns: seq<Node>, cs: seq<Claim>, os: seq<Out>, ins: seq<Outpoint>)
    ensures Rivals(Held(ns, cs, os), ins) <= Down(ViewOf(ns), Rivals(Held(ns, cs, os), ins))
    ensures KidClosed(ViewOf(ns), Down(ViewOf(ns), Rivals(Held(ns, cs, os), ins)))
  {
    var R := Rivals(Held(ns, cs, os), ins);
    forall t | t in R ensures t in ViewOf(ns) {
      var s :| s in Spends(cs, ns) && s.0 in ins && s.1 == t;
      var i := SpendOf(cs, ns, s);
    }
    DownCloses(ViewOf(ns), R);
  }

  lemma MoreRoom(v: View, E: set<Txid>, F: set<Txid>, P: set<Txid>, size: nat, count: nat, bytes: nat)
    requires E <= F && RoomFor(Remove(v, E), P, size, count, bytes)
    ensures RoomFor(Remove(v, F), P, size, count, bytes)
  {
    RemoveRemove(v, E, F);
    assert E + F == F;
    RoomStays(Remove(v, E), F, P, size, count, bytes);
  }
}
