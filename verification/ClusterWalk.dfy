/** The walk that measures the cluster a newcomer would join, before anything is changed. */
module ClusterWalk {
  import opened PoolViews
  import opened PoolAncestors
  import opened PoolClusters
  import Sums

  const CLUSTER_LIMIT := 64

  /** kids[p] lists the nodes that have node p for a parent. */
  ghost predicate KidsOk(ns: seq<Node>, kids: seq<seq<nat>>) {
    KidsBelow(ns, kids, |ns|)
  }

  /** The children of every node, from the parents of every node. */
  method BuildKids(ns: seq<Node>) returns (kids: seq<seq<nat>>)
    ensures KidsOk(ns, kids)
  {
    kids := seq(|ns|, _ => []);
    for i := 0 to |ns|
      invariant KidsBelow(ns, kids, i)
    {
      kids := AddKid(ns, kids, i);
    }
  }

  predicate HasParent(ns: seq<Node>, c: nat, p: nat) {
    c < |ns| && p in ns[c].parents
  }

  ghost predicate KidsBelow(ns: seq<Node>, kids: seq<seq<nat>>, i: nat) {
    && |kids| == |ns|
    && (forall p: nat, c: nat {:trigger c in kids[p]} :: p < |ns| && c in kids[p] ==> c < i && HasParent(ns, c, p))
    && (forall p: nat, c: nat {:trigger HasParent(ns, c, p)} :: p < |ns| && c < i && HasParent(ns, c, p) ==> c in kids[p])
  }

  /** Node i entered under each of its parents. */
  method AddKid(ns: seq<Node>, before: seq<seq<nat>>, i: nat) returns (kids: seq<seq<nat>>)
    requires KidsBelow(ns, before, i) && i < |ns|
    ensures KidsBelow(ns, kids, i + 1)
  {
    kids := before;
    for k := 0 to |ns[i].parents|
      invariant |kids| == |ns|
      invariant forall p: nat :: p < |ns| ==> kids[p] == before[p] || (HasParent(ns, i, p) && Extends(kids[p], before[p], i))
      invariant forall p: nat :: p < |ns| && p in ns[i].parents[..k] ==> i in kids[p]
    {
      var p := ns[i].parents[k];
      if 0 <= p < |ns| { kids := kids[p := kids[p] + [i]]; }
    }
    assert ns[i].parents[..|ns[i].parents|] == ns[i].parents;
    forall p: nat, c: nat | p < |ns| && c in kids[p] ensures c < i + 1 && HasParent(ns, c, p) {
      assert c in before[p] || c == i;
    }
    forall p: nat, c: nat | p < |ns| && c < i + 1 && HasParent(ns, c, p) ensures c in kids[p] {
      if c != i { assert c in before[p]; }
    }
  }

  /** A list with nothing but i added. */
  ghost predicate Extends(s: seq<nat>, t: seq<nat>, i: nat) {
    t <= s && forall c :: c in s ==> c in t || c == i
  }

  /** The pool as it will be once the evicted have left. */
  ghost function Rest(ns: seq<Node>, evicted: set<Txid>): View {
    Remove(ViewOf(ns), evicted)
  }

  /** Nothing but the cluster of P has been seen, and every link of what is done. */
  ghost predicate Reached(w: View, P: set<Txid>, S: set<Txid>, done: set<Txid>) {
    && S <= w.Keys && (forall C: set<Txid> :: P <= C && LinkClosed(w, C) ==> S <= C)
    && (forall t, u :: t in done && Linked(w, t, u) ==> u in S)
  }

  lemma ReachMore(w: View, P: set<Txid>, S: set<Txid>, done: set<Txid>, x: Txid)
    requires Reached(w, P, S, done) && x in w && (x in P || exists t :: t in S && Linked(w, t, x))
    ensures Reached(w, P, S + {x}, done)
  {
    forall C: set<Txid> | P <= C && LinkClosed(w, C) ensures S + {x} <= C { }
  }

  lemma ReachDone(w: View, P: set<Txid>, S: set<Txid>, done: set<Txid>, t: Txid)
    requires Reached(w, P, S, done) && forall u :: Linked(w, t, u) ==> u in S
    ensures Reached(w, P, S, done + {t})
  {
  }

  lemma ReachEnds(w: View, P: set<Txid>, S: set<Txid>)
    requires Reached(w, P, S, S) && P <= S
    ensures S == Cluster(w, P)
  {
    ClusterLeast(w, P, S);
  }

  /** A slot looked at: pushed unless it is gone, evicted or seen; no room means the cluster is too big. */
  method Visit(ns: seq<Node>, evicted: set<Txid>, q: int, seen: seq<nat>, stack: seq<nat>,
               ghost P: set<Txid>, ghost S: set<Txid>, ghost busy: set<Txid>, ghost done: set<Txid>)
    returns (seen': seq<nat>, stack': seq<nat>, full: bool, ghost S': set<Txid>)
    requires Distinct(ns) && Tracked(ns, seen, stack, S, busy) && Reached(Rest(ns, evicted), P, S, done) && |seen| <= CLUSTER_LIMIT
    requires 0 <= q < |ns| && ns[q].txid !in evicted ==>
      ns[q].txid in P || exists t :: t in S && Linked(Rest(ns, evicted), t, ns[q].txid)
    ensures S <= S' && |seen'| <= CLUSTER_LIMIT
    ensures !full ==> Tracked(ns, seen', stack', S', busy) && Reached(Rest(ns, evicted), P, S', done)
    ensures !full && 0 <= q < |ns| && ns[q].txid !in evicted ==> ns[q].txid in S'
    ensures full ==> |Cluster(Rest(ns, evicted), P)| > CLUSTER_LIMIT
  {
    hide Tracked, Reached, Rest, Distinct, Cluster, Linked;
    seen', stack', full, S' := seen, stack, false, S;
    if 0 <= q < |ns| && ns[q].txid !in evicted {
      SeenIs(ns, seen, stack, S, busy, q);
      if q !in seen {
        InRest(ns, evicted, q);
        ReachMore(Rest(ns, evicted), P, S, done, ns[q].txid);
        if |seen| >= CLUSTER_LIMIT {
          TooBig(ns, seen, stack, S, busy, Rest(ns, evicted), P, done, q);
          return seen, stack, true, S;
        }
        PushTracked(ns, seen, stack, S, busy, q);
        seen', stack', S' := seen + [q], stack + [q], S + {ns[q].txid};
      }
    }
  }

  lemma InRest(ns: seq<Node>, evicted: set<Txid>, q: nat)
    requires Distinct(ns) && q < |ns| && ns[q].txid !in evicted
    ensures ns[q].txid in Rest(ns, evicted)
  {
    ViewAt(ns, q);
  }

  lemma TooBig(ns: seq<Node>, seen: seq<nat>, stack: seq<nat>, S: set<Txid>, busy: set<Txid>, w: View, P: set<Txid>, done: set<Txid>, q: nat)
    requires Tracked(ns, seen, stack, S, busy) && |seen| >= CLUSTER_LIMIT && q < |ns| && q !in seen
    requires Reached(w, P, S + {ns[q].txid}, done)
    ensures |Cluster(w, P)| > CLUSTER_LIMIT
  {
    var T := S + {ns[q].txid};
    forall a | a in T ensures a in Cluster(w, P) { }
    Sums.SubsetSize(T, Cluster(w, P));
  }

  /** Every slot of a list looked at. */
  method VisitAll(ns: seq<Node>, evicted: set<Txid>, refs: seq<int>, seen0: seq<nat>, stack0: seq<nat>,
                  ghost P: set<Txid>, ghost S0: set<Txid>, ghost busy: set<Txid>, ghost done: set<Txid>)
    returns (seen: seq<nat>, stack: seq<nat>, full: bool, ghost S: set<Txid>)
    requires Distinct(ns) && Tracked(ns, seen0, stack0, S0, busy) && Reached(Rest(ns, evicted), P, S0, done) && |seen0| <= CLUSTER_LIMIT
    requires forall k: nat :: k < |refs| && 0 <= refs[k] < |ns| && ns[refs[k]].txid !in evicted ==>
      ns[refs[k]].txid in P || exists t :: t in S0 && Linked(Rest(ns, evicted), t, ns[refs[k]].txid)
    ensures S0 <= S && |seen| <= CLUSTER_LIMIT
    ensures !full ==> Tracked(ns, seen, stack, S, busy) && Reached(Rest(ns, evicted), P, S, done)
    ensures !full ==> forall k: nat :: k < |refs| && 0 <= refs[k] < |ns| && ns[refs[k]].txid !in evicted ==> ns[refs[k]].txid in S
    ensures full ==> |Cluster(Rest(ns, evicted), P)| > CLUSTER_LIMIT
  {
    hide Tracked, Reached, Rest, Distinct, Cluster, Linked;
    seen, stack, full, S := seen0, stack0, false, S0;
    for k := 0 to |refs|
      invariant S0 <= S && |seen| <= CLUSTER_LIMIT && !full
      invariant Tracked(ns, seen, stack, S, busy) && Reached(Rest(ns, evicted), P, S, done)
      invariant forall j: nat :: j < k && 0 <= refs[j] < |ns| && ns[refs[j]].txid !in evicted ==> ns[refs[j]].txid in S
    {
      seen, stack, full, S := Visit(ns, evicted, refs[k], seen, stack, P, S, busy, done);
      if full { return; }
    }
  }

  /** The parents of a node that stay are linked to it. */
  lemma ParentLinks(ns: seq<Node>, evicted: set<Txid>, a: nat, k: nat)
    requires Distinct(ns) && a < |ns| && ns[a].txid !in evicted && k < |ns[a].parents| && 0 <= ns[a].parents[k] < |ns|
    requires ns[ns[a].parents[k]].txid !in evicted
    ensures Linked(Rest(ns, evicted), ns[a].txid, ns[ns[a].parents[k]].txid)
  {
    ViewAt(ns, a); ViewAt(ns, ns[a].parents[k]);
  }

  lemma KidLinks(ns: seq<Node>, evicted: set<Txid>, a: nat, c: nat)
    requires Distinct(ns) && a < |ns| && c < |ns| && a in ns[c].parents && ns[a].txid !in evicted && ns[c].txid !in evicted
    ensures Linked(Rest(ns, evicted), ns[a].txid, ns[c].txid)
  {
    ViewAt(ns, a); ViewAt(ns, c);
  }

  /** There are no other links than to parents and to kids. */
  lemma LinksAre(ns: seq<Node>, kids: seq<seq<nat>>, evicted: set<Txid>, a: nat, S: set<Txid>)
    requires Distinct(ns) && KidsOk(ns, kids) && a < |ns|
    requires forall k: nat ::
      (k < |ns[a].parents| && 0 <= ns[a].parents[k] < |ns| && ns[ns[a].parents[k]].txid !in evicted
       ==> ns[ns[a].parents[k]].txid in S)
    requires forall k: nat :: k < |kids[a]| && kids[a][k] < |ns| && ns[kids[a][k]].txid !in evicted ==> ns[kids[a][k]].txid in S
    ensures forall u :: Linked(Rest(ns, evicted), ns[a].txid, u) ==> u in S
  {
    var w, t := Rest(ns, evicted), ns[a].txid;
    ViewAt(ns, a);
    forall u | Linked(w, t, u) ensures u in S {
      var c := SlotOf(ns, u);
      ViewAt(ns, c);
      if u in w[t].parents {
        var k: nat :| k < |ns[a].parents| && 0 <= ns[a].parents[k] < |ns| && ns[ns[a].parents[k]].txid == u;
      } else {
        var k: nat :| k < |ns[c].parents| && 0 <= ns[c].parents[k] < |ns| && ns[ns[c].parents[k]].txid == t;
        Differ(ns, ns[c].parents[k], a);
        assert HasParent(ns, c, a);
        assert c in kids[a];
        var j: nat :| j < |kids[a]| && kids[a][j] == c;
      }
    }
  }

  /** One node taken off the stack: its parents and its kids looked at. */
  method Expand(ns: seq<Node>, kids: seq<seq<nat>>, evicted: set<Txid>, a: nat, seen0: seq<nat>, stack0: seq<nat>,
                ghost P: set<Txid>, ghost S0: set<Txid>, ghost busy: set<Txid>, ghost done: set<Txid>)
    returns (seen: seq<nat>, stack: seq<nat>, full: bool, ghost S: set<Txid>)
    requires Distinct(ns) && KidsOk(ns, kids) && a < |ns| && ns[a].txid in S0 && ns[a].txid !in evicted
    requires Tracked(ns, seen0, stack0, S0, busy) && Reached(Rest(ns, evicted), P, S0, done) && |seen0| <= CLUSTER_LIMIT
    ensures S0 <= S && |seen| <= CLUSTER_LIMIT
    ensures !full ==> Tracked(ns, seen, stack, S, busy) && Reached(Rest(ns, evicted), P, S, done + {ns[a].txid})
    ensures full ==> |Cluster(Rest(ns, evicted), P)| > CLUSTER_LIMIT
  {
    hide Tracked, Reached, Rest, Distinct, Cluster, Linked;
    forall k: nat | k < |ns[a].parents| && 0 <= ns[a].parents[k] < |ns| && ns[ns[a].parents[k]].txid !in evicted
      ensures exists t :: t in S0 && Linked(Rest(ns, evicted), t, ns[ns[a].parents[k]].txid)
    {
      ParentLinks(ns, evicted, a, k);
    }
    seen, stack, full, S := VisitAll(ns, evicted, ns[a].parents, seen0, stack0, P, S0, busy, done);
    if full { return; }
    ghost var S1 := S;
    var down: seq<int> := kids[a];
    forall k: nat | k < |down| && 0 <= down[k] < |ns| && ns[down[k]].txid !in evicted
      ensures exists t :: t in S1 && Linked(Rest(ns, evicted), t, ns[down[k]].txid)
    {
      assert kids[a][k] in kids[a];
      assert HasParent(ns, kids[a][k], a);
      KidLinks(ns, evicted, a, kids[a][k]);
    }
    seen, stack, full, S := VisitAll(ns, evicted, down, seen, stack, P, S, busy, done);
    if full { return; }
    LinksAre(ns, kids, evicted, a, S);
    ReachDone(Rest(ns, evicted), P, S, done, ns[a].txid);
  }

  /** The cluster the seeds belong to once the evicted have left: its members and weight, unless there are too many. */
  method Measure(ns: seq<Node>, kids: seq<seq<nat>>, evicted: set<Txid>, seeds: seq<int>, ghost P: set<Txid>)
    returns (full: bool, count: nat, bytes: nat)
    requires Distinct(ns) && KidsOk(ns, kids)
    requires P == set k: nat | k < |seeds| && 0 <= seeds[k] < |ns| && ns[seeds[k]].txid !in evicted :: ns[seeds[k]].txid
    ensures full <==> |Cluster(Rest(ns, evicted), P)| > CLUSTER_LIMIT
    ensures !full ==> count == |Cluster(Rest(ns, evicted), P)| && bytes == Weight(Rest(ns, evicted), Cluster(Rest(ns, evicted), P))
  {
    hide Tracked, Reached, Rest, Distinct, Cluster, Linked, KidsOk, Txids;
    ghost var w := Rest(ns, evicted);
    ghost var S, done := {}, {};
    NothingTracked(ns, w, P);
    forall k: nat | k < |seeds| && 0 <= seeds[k] < |ns| && ns[seeds[k]].txid !in evicted ensures ns[seeds[k]].txid in P { }
    var seen, stack;
    seen, stack, full, S := VisitAll(ns, evicted, seeds, [], [], P, {}, {}, {});
    count, bytes := 0, 0;
    NoWeightIn(w);
    if !full { TrackedSize(ns, seen, stack, S, done); }
    while |stack| > 0 && !full
      invariant done <= Txids(ns) && |done| <= |Txids(ns)| && done <= w.Keys && count == |done| && bytes == Weight(w, done)
      invariant !full ==> Tracked(ns, seen, stack, S, done) && Reached(w, P, S, done) && |seen| <= CLUSTER_LIMIT && P <= S
      invariant full ==> |Cluster(w, P)| > CLUSTER_LIMIT
      decreases |Txids(ns)| - |done|
    {
      var a := stack[|stack| - 1];
      PopTracked(ns, seen, stack, S, done);
      stack := stack[..|stack| - 1];
      SizeInRest(ns, evicted, P, S, done, a);
      count, bytes := count + 1, bytes + ns[a].size;
      seen, stack, full, S := Expand(ns, kids, evicted, a, seen, stack, P, S, done + {ns[a].txid}, done);
      done := done + {ns[a].txid};
      Counted(ns, done);
    }
    if !full {
      assert stack == [];
      AllDone(ns, seen, S, done);
      ReachEnds(w, P, S);
      Few(ns, seen, stack, S, done);
    }
  }

  lemma NothingTracked(ns: seq<Node>, w: View, P: set<Txid>)
    ensures Tracked(ns, [], [], {}, {}) && Reached(w, P, {}, {})
  {
  }

  lemma NoWeightIn(w: View)
    ensures Weight(w, {}) == 0
  {
  }

  lemma Counted(ns: seq<Node>, done: set<Txid>)
    requires done <= Txids(ns)
    ensures |done| <= |Txids(ns)|
  {
    Sums.SubsetSize(done, Txids(ns));
  }

  lemma SizeInRest(ns: seq<Node>, evicted: set<Txid>, P: set<Txid>, S: set<Txid>, done: set<Txid>, a: nat)
    requires Distinct(ns) && a < |ns| && Reached(Rest(ns, evicted), P, S, done) && ns[a].txid in S - done && done <= Rest(ns, evicted).Keys
    ensures ns[a].txid !in evicted && ns[a].txid in Rest(ns, evicted) && ns[a].txid in Txids(ns)
    ensures Weight(Rest(ns, evicted), done + {ns[a].txid}) == Weight(Rest(ns, evicted), done) + ns[a].size
  {
    ViewAt(ns, a);
    WeightWith(Rest(ns, evicted), done, ns[a].txid);
  }

  lemma AllDone(ns: seq<Node>, seen: seq<nat>, S: set<Txid>, done: set<Txid>)
    requires Tracked(ns, seen, [], S, done)
    ensures S == done
  {
    forall x | x in S ensures x in done {
      var p := SlotOf(ns, x);
      assert p !in [];
    }
  }
}
