/** The two walks of an acceptance: down, for what leaves with a transaction, and up, for a newcomer's figures. */
module PoolWalks {
  import opened PoolViews
  import opened PoolAncestors
  import opened PoolClusters
  import opened ClusterWalk
  import Sums

  const PACKAGE_MAX := 128
  const ANC_LIST := 2080
  const ANC_STACK := 2064

  /** u spends t. */
  ghost predicate Spender(v: View, t: Txid, u: Txid) {
    u in v && t in v[u].parents
  }

  ghost predicate KidClosed(v: View, C: set<Txid>) {
    forall t, u :: t in C && Spender(v, t, u) ==> u in C
  }

  ghost predicate Beneath(v: View, S: set<Txid>, a: Txid) {
    forall C: set<Txid> :: S <= C && KidClosed(v, C) ==> a in C
  }

  /** S and all that spends it, directly or through others. */
  ghost function Down(v: View, S: set<Txid>): (D: set<Txid>)
    ensures D <= v.Keys
  {
    set a | a in v && Beneath(v, S, a)
  }

  lemma DownLeast(v: View, S: set<Txid>, D: set<Txid>)
    requires S <= D <= v.Keys && KidClosed(v, D) && forall C: set<Txid> :: S <= C && KidClosed(v, C) ==> D <= C
    ensures D == Down(v, S)
  {
  }

  lemma DownCloses(v: View, S: set<Txid>)
    requires S <= v.Keys
    ensures S <= Down(v, S) && KidClosed(v, Down(v, S))
  {
    forall t, u | t in Down(v, S) && Spender(v, t, u) ensures u in Down(v, S) {
      forall C: set<Txid> | S <= C && KidClosed(v, C) ensures u in C { assert t in C; }
    }
  }

  /** What spends a transaction is in its cluster. */
  lemma DownInCluster(v: View, t: Txid)
    requires Grounded(v) && t in v
    ensures Down(v, {t}) <= Cluster(v, {t}) && |Down(v, {t})| <= |Cluster(v, {t})|
  {
    forall a | a in Down(v, {t}) ensures a in Cluster(v, {t}) {
      forall C: set<Txid> | {t} <= C && LinkClosed(v, C) ensures a in C {
        assert KidClosed(v, C) by {
          forall x, y | x in C && Spender(v, x, y) ensures y in C { assert Linked(v, x, y); }
        }
      }
    }
    Sums.SubsetSize(Down(v, {t}), Cluster(v, {t}));
  }

  ghost predicate Climbs(v: View, P: set<Txid>, a: Txid) {
    forall C: set<Txid> :: P <= C && UpClosed(v, C) ==> a in C
  }

  /** P and all it spends, directly or through others. */
  ghost function Up(v: View, P: set<Txid>): (U: set<Txid>)
    ensures U <= v.Keys
  {
    set a | a in v && Climbs(v, P, a)
  }

  /** The newcomer's ancestors are already there. */
  lemma NewAncestors(v: View, x: Txid, e: Entry)
    requires Grounded(v) && x !in v && e.parents <= v.Keys
    ensures Ancestors(v[x := e], x) == Up(v, e.parents)
  {
    var w := v[x := e];
    forall a | a in Ancestors(w, x) ensures a in Up(v, e.parents) {
      assert UpClosed(w, v.Keys);
      forall C: set<Txid> | e.parents <= C && UpClosed(v, C) ensures a in C {
        assert UpClosed(w, C - {x});
      }
    }
    forall a | a in Up(v, e.parents) ensures a in Ancestors(w, x) {
      forall C: set<Txid> | w[x].parents <= C && UpClosed(w, C) ensures a in C {
        assert UpClosed(v, C);
      }
    }
  }

  /** When what leaves takes its spenders along and spares P, the ancestors of P all stay. */
  lemma UpStays(v: View, gone: set<Txid>, P: set<Txid>)
    requires Grounded(v) && KidClosed(v, gone) && P <= v.Keys && P !! gone
    ensures Up(Remove(v, gone), P) == Up(v, P)
  {
    var w := Remove(v, gone);
    forall u | u in w ensures w[u].parents == v[u].parents {
      forall t | t in v[u].parents ensures t !in gone { assert Spender(v, t, u); }
    }
    assert UpClosed(v, w.Keys);
    forall a | a in Up(v, P) ensures a in Up(w, P) {
      assert a in w.Keys;
      forall C: set<Txid> | P <= C && UpClosed(w, C) ensures a in C { assert UpClosed(v, C * w.Keys); }
    }
    forall a | a in Up(w, P) ensures a in Up(v, P) {
      forall C: set<Txid> | P <= C && UpClosed(v, C) ensures a in C { assert UpClosed(w, C); }
    }
  }

  /** Nothing but what lies below t has been seen, and every spender of what is done. */
  ghost predicate Sunk(v: View, S0: set<Txid>, S: set<Txid>, done: set<Txid>) {
    && S <= v.Keys && (forall C: set<Txid> :: S0 <= C && KidClosed(v, C) ==> S <= C)
    && (forall t, u :: t in done && Spender(v, t, u) ==> u in S)
  }

  lemma SinkMore(v: View, S0: set<Txid>, S: set<Txid>, done: set<Txid>, t: Txid, u: Txid)
    requires Sunk(v, S0, S, done) && t in S && Spender(v, t, u)
    ensures Sunk(v, S0, S + {u}, done)
  {
    forall C: set<Txid> | S0 <= C && KidClosed(v, C) ensures S + {u} <= C { assert t in C; }
  }

  lemma SinkDone(v: View, S0: set<Txid>, S: set<Txid>, done: set<Txid>, t: Txid)
    requires Sunk(v, S0, S, done) && forall u :: Spender(v, t, u) ==> u in S
    ensures Sunk(v, S0, S, done + {t})
  {
  }

  lemma KidSpends(ns: seq<Node>, kids: seq<seq<nat>>, a: nat, c: nat)
    requires Distinct(ns) && KidsOk(ns, kids) && a < |ns| && c in kids[a]
    ensures c < |ns| && Spender(ViewOf(ns), ns[a].txid, ns[c].txid)
  {
    assert HasParent(ns, c, a);
    ViewAt(ns, c);
  }

  lemma SpendersAre(ns: seq<Node>, kids: seq<seq<nat>>, a: nat, S: set<Txid>)
    requires Distinct(ns) && KidsOk(ns, kids) && a < |ns|
    requires forall k: nat :: k < |kids[a]| && kids[a][k] < |ns| ==> ns[kids[a][k]].txid in S
    ensures forall u :: Spender(ViewOf(ns), ns[a].txid, u) ==> u in S
  {
    var t := ns[a].txid;
    forall u | Spender(ViewOf(ns), t, u) ensures u in S {
      var c := SlotOf(ns, u);
      ViewAt(ns, c);
      var k: nat :| k < |ns[c].parents| && 0 <= ns[c].parents[k] < |ns| && ns[ns[c].parents[k]].txid == t;
      Differ(ns, ns[c].parents[k], a);
      assert HasParent(ns, c, a);
      var j: nat :| j < |kids[a]| && kids[a][j] == c;
    }
  }

  ghost predicate All(slots: seq<nat>, n: nat) {
    forall k: nat :: k < |slots| ==> slots[k] < n
  }

  /** The kids of a node pushed, until there is no room. */
  method SinkKids(ns: seq<Node>, kids: seq<seq<nat>>, a: nat, seen0: seq<nat>, stack0: seq<nat>,
                  ghost S0: set<Txid>, ghost R: set<Txid>, ghost busy: set<Txid>, ghost done: set<Txid>)
    returns (seen: seq<nat>, stack: seq<nat>, full: bool, ghost S: set<Txid>)
    requires Distinct(ns) && KidsOk(ns, kids) && a < |ns| && ns[a].txid in S0
    requires Tracked(ns, seen0, stack0, S0, busy) && Sunk(ViewOf(ns), R, S0, done) && |seen0| <= PACKAGE_MAX && All(seen0, |ns|)
    ensures S0 <= S && |seen| <= PACKAGE_MAX && seen0 <= seen && All(seen, |ns|)
    ensures !full ==> Tracked(ns, seen, stack, S, busy) && Sunk(ViewOf(ns), R, S, done + {ns[a].txid})
    ensures full ==> |Down(ViewOf(ns), R)| > PACKAGE_MAX
  {
    hide Tracked, Sunk, ViewOf, Distinct, Spender, KidsOk, Down;
    seen, stack, full, S := seen0, stack0, false, S0;
    KidsSize(ns, kids);
    for k := 0 to |kids[a]|
      invariant S0 <= S && |seen| <= PACKAGE_MAX && !full && seen0 <= seen && All(seen, |ns|)
      invariant Tracked(ns, seen, stack, S, busy) && Sunk(ViewOf(ns), R, S, done)
      invariant forall j: nat :: j < k && kids[a][j] < |ns| ==> ns[kids[a][j]].txid in S
    {
      var c := kids[a][k];
      KidSpends(ns, kids, a, c);
      SeenIs(ns, seen, stack, S, busy, c);
      if c !in seen {
        SinkMore(ViewOf(ns), R, S, done, ns[a].txid, ns[c].txid);
        if |seen| >= PACKAGE_MAX {
          TooDeep(ns, seen, stack, S, busy, R, done, c);
          full := true;
          return;
        }
        PushTracked(ns, seen, stack, S, busy, c);
        seen, stack, S := seen + [c], stack + [c], S + {ns[c].txid};
      }
    }
    SpendersAre(ns, kids, a, S);
    SinkDone(ViewOf(ns), R, S, done, ns[a].txid);
  }

  lemma KidsSize(ns: seq<Node>, kids: seq<seq<nat>>)
    requires KidsOk(ns, kids)
    ensures |kids| == |ns|
  {
  }

  lemma TooDeep(ns: seq<Node>, seen: seq<nat>, stack: seq<nat>, S: set<Txid>, busy: set<Txid>, R: set<Txid>, done: set<Txid>, c: nat)
    requires Tracked(ns, seen, stack, S, busy) && |seen| >= PACKAGE_MAX && c < |ns| && c !in seen
    requires Sunk(ViewOf(ns), R, S + {ns[c].txid}, done)
    ensures |Down(ViewOf(ns), R)| > PACKAGE_MAX
  {
    var T := S + {ns[c].txid};
    forall a | a in T ensures a in Down(ViewOf(ns), R) { }
    Sums.SubsetSize(T, Down(ViewOf(ns), R));
  }

  /** The txids of some slots. */
  function Names(ns: seq<Node>, slots: seq<nat>): (r: seq<Txid>)
    requires forall k: nat :: k < |slots| ==> slots[k] < |ns|
    ensures |r| == |slots| && forall k: nat :: k < |slots| ==> r[k] == ns[slots[k]].txid
  {
    seq(|slots|, k requires 0 <= k < |slots| => ns[slots[k]].txid)
  }

  /** A transaction's descendants, itself first: all of them, unless there are more than the tables hold. */
  method Descendants(ns: seq<Node>, kids: seq<seq<nat>>, ci: nat) returns (full: bool, ids: seq<Txid>, slots: seq<nat>)
    requires Distinct(ns) && KidsOk(ns, kids) && ci < |ns|
    ensures full <==> |Down(ViewOf(ns), {ns[ci].txid})| > PACKAGE_MAX
    ensures !full ==> |ids| == |Down(ViewOf(ns), {ns[ci].txid})| > 0 && ids[0] == ns[ci].txid
    ensures !full ==> (set t | t in ids) == Down(ViewOf(ns), {ns[ci].txid})
    ensures All(slots, |ns|) && ids == Names(ns, slots)
  {
    hide Tracked, Sunk, ViewOf, Distinct, KidsOk, Down, Txids;
    ghost var R, S, done := {ns[ci].txid}, {ns[ci].txid}, {};
    StartSunk(ns, ci);
    var seen, stack := [ci], [ci];
    full := false;
    TrackedSize(ns, seen, stack, S, done);
    while |stack| > 0 && !full
      invariant done <= Txids(ns) && |done| <= |Txids(ns)| && |seen| <= PACKAGE_MAX && R <= S && [ci] <= seen && All(seen, |ns|)
      invariant !full ==> Tracked(ns, seen, stack, S, done) && Sunk(ViewOf(ns), R, S, done)
      invariant full ==> |Down(ViewOf(ns), R)| > PACKAGE_MAX
      decreases |Txids(ns)| - |done|
    {
      var a := stack[|stack| - 1];
      PopTracked(ns, seen, stack, S, done);
      stack := stack[..|stack| - 1];
      NotYet(ns, S, done, seen, stack, a);
      seen, stack, full, S := SinkKids(ns, kids, a, seen, stack, S, R, done + {ns[a].txid}, done);
      done := done + {ns[a].txid};
    }
    ids, slots := [], [];
    if !full {
      assert stack == [];
      AllDone(ns, seen, S, done);
      SunkEnds(ViewOf(ns), R, S);
      Few(ns, seen, stack, S, done);
      SeenNames(ns, seen, S, done);
      ids, slots := Names(ns, seen), seen;
    }
  }

  lemma NotYet(ns: seq<Node>, S: set<Txid>, done: set<Txid>, seen: seq<nat>, stack: seq<nat>, a: nat)
    requires a < |ns| && Tracked(ns, seen, stack, S, done + {ns[a].txid}) && ns[a].txid !in done
    ensures |done| < |done + {ns[a].txid}| <= |Txids(ns)| && ns[a].txid in Txids(ns)
  {
    Sums.SubsetSize(done + {ns[a].txid}, Txids(ns));
  }

  lemma StartSunk(ns: seq<Node>, ci: nat)
    requires Distinct(ns) && ci < |ns|
    ensures Tracked(ns, [ci], [ci], {ns[ci].txid}, {}) && Sunk(ViewOf(ns), {ns[ci].txid}, {ns[ci].txid}, {})
  {
    ViewAt(ns, ci);
    NothingTracked(ns, ViewOf(ns), {});
    PushTracked(ns, [], [], {}, {}, ci);
    assert [] + [ci] == [ci] && {} + {ns[ci].txid} == {ns[ci].txid};
  }

  lemma SunkEnds(v: View, R: set<Txid>, S: set<Txid>)
    requires Sunk(v, R, S, S) && R <= S
    ensures S == Down(v, R)
  {
    DownLeast(v, R, S);
  }

  lemma SeenNames(ns: seq<Node>, seen: seq<nat>, S: set<Txid>, busy: set<Txid>)
    requires Tracked(ns, seen, [], S, busy) && forall k: nat :: k < |seen| ==> seen[k] < |ns|
    ensures (set t | t in Names(ns, seen)) == S
  {
    var ids := Names(ns, seen);
    forall t | t in ids ensures t in S {
      var k: nat :| k < |ids| && ids[k] == t;
      assert seen[k] in seen;
    }
    forall t | t in S ensures t in ids {
      var p := SlotOf(ns, t);
      var k: nat :| k < |seen| && seen[k] == p;
      assert ids[k] == t;
    }
  }

  /** Nothing but P and its ancestors has been seen, and all parents of what is done. */
  ghost predicate Risen(v: View, P: set<Txid>, S: set<Txid>, done: set<Txid>) {
    && S <= v.Keys && (forall C: set<Txid> :: P <= C && UpClosed(v, C) ==> S <= C)
    && (forall t :: t in done && t in v ==> v[t].parents <= S)
  }

  /** May be seen: one of P, or a parent of something seen. */
  ghost predicate MayRise(v: View, P: set<Txid>, S: set<Txid>, x: Txid) {
    x in v && (x in P || exists t :: t in S && t in v && x in v[t].parents)
  }

  lemma RiseMore(v: View, P: set<Txid>, S: set<Txid>, done: set<Txid>, x: Txid)
    requires Risen(v, P, S, done) && MayRise(v, P, S, x)
    ensures Risen(v, P, S + {x}, done)
  {
    forall C: set<Txid> | P <= C && UpClosed(v, C) ensures S + {x} <= C { }
  }

  lemma RisenEnds(v: View, P: set<Txid>, S: set<Txid>)
    requires Risen(v, P, S, S) && P <= S
    ensures S == Up(v, P)
  {
    forall a | a in S ensures Climbs(v, P, a) { }
  }

  /** The unmarked slots of a list pushed, as long as there is room. */
  method RiseAll(ns: seq<Node>, refs: seq<int>, seen0: seq<nat>, stack0: seq<nat>,
                 ghost P: set<Txid>, ghost S0: set<Txid>, ghost busy: set<Txid>, ghost done: set<Txid>)
    returns (full: bool, seen: seq<nat>, stack: seq<nat>, ghost S: set<Txid>)
    requires Distinct(ns) && Tracked(ns, seen0, stack0, S0, busy) && Risen(ViewOf(ns), P, S0, done) && |stack0| <= ANC_STACK
    requires forall k: nat :: k < |refs| && 0 <= refs[k] < |ns| ==> MayRise(ViewOf(ns), P, S0, ns[refs[k]].txid)
    ensures Tracked(ns, seen, stack, S, busy) && Risen(ViewOf(ns), P, S, done) && S0 <= S
    ensures stack0 <= stack && |stack| <= |stack0| + |refs| && |stack| <= ANC_STACK && Pushed(ns, refs, stack, |stack0|)
    ensures if full then |stack| == ANC_STACK else Ids(ns, refs) <= S
  {
    hide Tracked, Risen, ViewOf, Distinct, MayRise, Ids, Pushed;
    full, seen, stack, S := false, seen0, stack0, S0;
    NothingPushed(ns, refs, stack);
    for k := 0 to |refs|
      invariant Tracked(ns, seen, stack, S, busy) && Risen(ViewOf(ns), P, S, done) && S0 <= S
      invariant forall j: nat :: j < k && 0 <= refs[j] < |ns| ==> ns[refs[j]].txid in S
      invariant stack0 <= stack && |stack| <= |stack0| + k && |stack| <= ANC_STACK && Pushed(ns, refs, stack, |stack0|)
    {
      var p := refs[k];
      if 0 <= p < |ns| {
        SeenIs(ns, seen, stack, S, busy, p);
        if p !in seen {
          if |stack| >= ANC_STACK { return true, seen, stack, S; }
          MayStill(ViewOf(ns), P, S0, S, ns[p].txid);
          RiseMore(ViewOf(ns), P, S, done, ns[p].txid);
          PushTracked(ns, seen, stack, S, busy, p);
          OnePushed(ns, refs, stack, |stack0|, k);
          seen, stack, S := seen + [p], stack + [p], S + {ns[p].txid};
        }
      }
    }
    IdsWithin(ns, refs, S);
  }

  /** What stands on the stack from b on are slots the list names. */
  ghost predicate Pushed(ns: seq<Node>, refs: seq<int>, stack: seq<nat>, b: nat) {
    forall k: nat :: b <= k < |stack| ==> stack[k] < |ns| && ns[stack[k]].txid in Ids(ns, refs)
  }

  lemma NothingPushed(ns: seq<Node>, refs: seq<int>, stack: seq<nat>)
    ensures Pushed(ns, refs, stack, |stack|)
  {
  }

  lemma OnePushed(ns: seq<Node>, refs: seq<int>, stack: seq<nat>, b: nat, k: nat)
    requires Pushed(ns, refs, stack, b) && k < |refs| && 0 <= refs[k] < |ns|
    ensures Pushed(ns, refs, stack + [refs[k] as nat], b)
  {
  }

  /** The stack of a walk from a list of at most n slots: some of those it began with, and above them members of one cluster. */
  ghost predicate Heaped(ns: seq<Node>, stack: seq<nat>, n: nat) {
    exists b: nat, x :: b <= n && b <= |stack| && x in ViewOf(ns) && HeapedOn(ns, stack, b, x)
  }

  ghost predicate HeapedOn(ns: seq<Node>, stack: seq<nat>, b: nat, x: Txid) {
    forall k: nat :: b <= k < |stack| ==> stack[k] < |ns| && ns[stack[k]].txid in Cluster(ViewOf(ns), {x})
  }

  /** A slot taken off and its parents put on leave such a stack. */
  lemma HeapedNext(ns: seq<Node>, stack: seq<nat>, next: seq<nat>, n: nat)
    requires Distinct(ns) && |stack| > 0 && stack[|stack| - 1] < |ns| && (|stack| <= n || Heaped(ns, stack, n))
    requires stack[..|stack| - 1] <= next && Pushed(ns, ns[stack[|stack| - 1]].parents, next, |stack| - 1)
    ensures Heaped(ns, next, n)
  {
    hide ViewOf, Cluster, Distinct, Ids;
    var a, m := stack[|stack| - 1], |stack| - 1;
    var v, t := ViewOf(ns), ns[stack[|stack| - 1]].txid;
    ViewAt(ns, a);
    ViewGrounded(ns);
    if m < n {
      ParentsNear(ns, a, t);
      assert HeapedOn(ns, next, m, t);
    } else {
      var b: nat, x :| b <= n && b <= |stack| && x in v && HeapedOn(ns, stack, b, x);
      ParentsNear(ns, a, x);
      forall k: nat | b <= k < |next| ensures next[k] < |ns| && ns[next[k]].txid in Cluster(v, {x}) {
        if k < m { assert next[k] == stack[..m][k] == stack[k]; }
      }
      assert HeapedOn(ns, next, b, x);
    }
  }

  lemma ParentsNear(ns: seq<Node>, a: nat, x: Txid)
    requires Distinct(ns) && a < |ns| && x in ViewOf(ns) && (ns[a].txid == x || ns[a].txid in Cluster(ViewOf(ns), {x}))
    ensures Ids(ns, ns[a].parents) <= Cluster(ViewOf(ns), {x})
  {
    hide Ids;
    ViewAt(ns, a);
    ViewGrounded(ns);
    ClusterClosed(ViewOf(ns), {x});
    forall q | q in Ids(ns, ns[a].parents) ensures q in Cluster(ViewOf(ns), {x}) { assert Linked(ViewOf(ns), ns[a].txid, q); }
  }

  /** Such a stack is no higher than what it began with and one cluster together. */
  lemma HeapedLow(ns: seq<Node>, seen: seq<nat>, stack: seq<nat>, S: set<Txid>, busy: set<Txid>, n: nat, count: nat, bytes: nat)
    requires Distinct(ns) && Tracked(ns, seen, stack, S, busy) && Heaped(ns, stack, n) && Limited(ViewOf(ns), count, bytes)
    ensures |stack| <= n + count
  {
    hide ViewOf, Cluster;
    var b: nat, x :| b <= n && b <= |stack| && x in ViewOf(ns) && HeapedOn(ns, stack, b, x);
    DistinctFit(ns, stack[b..], Cluster(ViewOf(ns), {x}));
  }

  lemma {:induction false} DistinctFit(ns: seq<Node>, s: seq<nat>, K: set<Txid>)
    requires Distinct(ns) && (forall k: nat :: k < |s| ==> s[k] < |ns| && ns[s[k]].txid in K)
    requires forall j: nat, k: nat :: j < k < |s| ==> s[j] != s[k]
    ensures |s| <= |K|
  {
    if s != [] {
      var n := |s| - 1;
      var t := ns[s[n]].txid;
      forall k: nat | k < n ensures ns[s[k]].txid in K - {t} { assert s[k] != s[n]; }
      DistinctFit(ns, s[..n], K - {t});
    }
  }

  lemma MayStill(v: View, P: set<Txid>, S0: set<Txid>, S: set<Txid>, x: Txid)
    requires MayRise(v, P, S0, x) && S0 <= S
    ensures MayRise(v, P, S, x)
  {
  }

  lemma ParentMayRise(ns: seq<Node>, P: set<Txid>, S: set<Txid>, a: nat, k: nat)
    requires Distinct(ns) && a < |ns| && ns[a].txid in S && k < |ns[a].parents| && 0 <= ns[a].parents[k] < |ns|
    ensures MayRise(ViewOf(ns), P, S, ns[ns[a].parents[k]].txid)
  {
    ViewAt(ns, a);
  }

  lemma RiseDone(ns: seq<Node>, P: set<Txid>, S: set<Txid>, done: set<Txid>, a: nat)
    requires Distinct(ns) && a < |ns| && Risen(ViewOf(ns), P, S, done) && Ids(ns, ns[a].parents) <= S
    ensures Risen(ViewOf(ns), P, S, done + {ns[a].txid})
  {
    ViewAt(ns, a);
  }

  /** How a walk over fixed tables ends: within them, or at the first entry past the list or past the stack. */
  datatype Walked = Inside | PastList | PastStack

  function SizesOf(ns: seq<Node>, list: seq<nat>): nat
    requires All(list, |ns|)
  {
    if list == [] then 0 else SizesOf(ns, list[..|list| - 1]) + ns[list[|list| - 1]].size
  }

  method SumSizes(ns: seq<Node>, list: seq<nat>) returns (bytes: nat)
    requires All(list, |ns|)
    ensures bytes == SizesOf(ns, list)
  {
    bytes := 0;
    for k := 0 to |list|
      invariant All(list[..k], |ns|) && bytes == SizesOf(ns, list[..k])
    {
      assert list[..k + 1][..k] == list[..k];
      bytes := bytes + ns[list[k]].size;
    }
    assert list[..|list|] == list;
  }

  /** What has been listed: as many slots as transactions, of the same weight. */
  ghost predicate Listing(ns: seq<Node>, list: seq<nat>, done: set<Txid>) {
    done <= Txids(ns) && All(list, |ns|) && |list| == |done| && SizesOf(ns, list) == Weight(ViewOf(ns), done)
  }

  lemma ListNone(ns: seq<Node>)
    ensures Listing(ns, [], {})
  {
    NoWeight(ns);
  }

  lemma ListOne(ns: seq<Node>, list: seq<nat>, done: set<Txid>, a: nat)
    requires Distinct(ns) && Listing(ns, list, done) && a < |ns| && ns[a].txid !in done
    ensures Listing(ns, list + [a], done + {ns[a].txid})
  {
    hide ViewOf, Weight, Distinct, SizesOf;
    WeighOne(ns, done, a);
    SizesNext(ns, list, a);
  }

  lemma SizesNext(ns: seq<Node>, list: seq<nat>, a: nat)
    requires All(list, |ns|) && a < |ns|
    ensures All(list + [a], |ns|) && SizesOf(ns, list + [a]) == SizesOf(ns, list) + ns[a].size
  {
    assert (list + [a])[..|list|] == list;
  }

  /** A newcomer's figures: itself and everything its parents' slots lead up to, found with a list of 2080 places and a stack of
      2064. The list is overrun exactly when there is more than it holds; the stack never, where clusters keep to their limit. */
  method Climb(ns: seq<Node>, refs: seq<int>, size: nat) returns (w: Walked, cnt: nat, bytes: nat)
    requires Distinct(ns)
    ensures w == Inside ==> |Up(ViewOf(ns), Ids(ns, refs))| <= ANC_LIST
    ensures w == Inside ==> cnt == 1 + |Up(ViewOf(ns), Ids(ns, refs))| && bytes == size + Weight(ViewOf(ns), Up(ViewOf(ns), Ids(ns, refs)))
    ensures w == PastList ==> |Up(ViewOf(ns), Ids(ns, refs))| > ANC_LIST
    ensures forall count, total :: Limited(ViewOf(ns), count, total) && |refs| + count < ANC_STACK ==> w != PastStack
  {
    hide Tracked, Risen, ViewOf, Distinct, Up, Txids, MayRise, Ids, Pushed, Heaped, Listing, Limited;
    ghost var P, S, done := Ids(ns, refs), {}, {};
    StartRise(ns, refs);
    cnt, bytes := 0, 0;
    var full, seen, stack;
    full, seen, stack, S := RiseAll(ns, refs, [], [], P, {}, {}, {});
    if full { return PastStack, cnt, bytes; }
    var list: seq<nat> := [];
    ListNone(ns);
    TrackedSize(ns, seen, stack, S, done);
    while |stack| > 0
      invariant done <= Txids(ns) && |done| <= |Txids(ns)| && P <= S && |stack| <= ANC_STACK
      invariant Tracked(ns, seen, stack, S, done) && Risen(ViewOf(ns), P, S, done)
      invariant |stack| <= |refs| || Heaped(ns, stack, |refs|)
      invariant Listing(ns, list, done) && |list| <= ANC_LIST
      decreases |Txids(ns)| - |done|
    {
      var a := stack[|stack| - 1];
      ghost var was := stack;
      PopTracked(ns, seen, stack, S, done);
      stack := stack[..|stack| - 1];
      NotYet(ns, S, done, seen, stack, a);
      if |list| >= ANC_LIST { MoreThanListed(ns, seen, stack, list, P, S, done, a); return PastList, cnt, bytes; }
      ListOne(ns, list, done, a);
      list := list + [a];
      forall k: nat | k < |ns[a].parents| && 0 <= ns[a].parents[k] < |ns|
        ensures MayRise(ViewOf(ns), P, S, ns[ns[a].parents[k]].txid)
      {
        ParentMayRise(ns, P, S, a, k);
      }
      full, seen, stack, S := RiseAll(ns, ns[a].parents, seen, stack, P, S, done + {ns[a].txid}, done);
      HeapedNext(ns, was, stack, |refs|);
      if full { StackHolds(ns, seen, stack, S, done + {ns[a].txid}, |refs|); return PastStack, cnt, bytes; }
      RiseDone(ns, P, S, done, a);
      done := done + {ns[a].txid};
    }
    assert stack == [];
    AllDone(ns, seen, S, done);
    RisenEnds(ViewOf(ns), P, S);
    var sum := SumListed(ns, list, done);
    w, cnt, bytes := Inside, 1 + |list|, size + sum;
  }

  method SumListed(ns: seq<Node>, list: seq<nat>, ghost done: set<Txid>) returns (bytes: nat)
    requires Listing(ns, list, done)
    ensures |list| == |done| && done <= Txids(ns) && bytes == Weight(ViewOf(ns), done)
  {
    bytes := SumSizes(ns, list);
  }

  lemma StackHolds(ns: seq<Node>, seen: seq<nat>, stack: seq<nat>, S: set<Txid>, busy: set<Txid>, n: nat)
    requires Distinct(ns) && Tracked(ns, seen, stack, S, busy) && Heaped(ns, stack, n) && |stack| == ANC_STACK
    ensures forall count, total :: Limited(ViewOf(ns), count, total) ==> n + count >= ANC_STACK
  {
    hide Tracked, Heaped, Limited, ViewOf;
    forall count, total | Limited(ViewOf(ns), count, total) ensures n + count >= ANC_STACK {
      HeapedLow(ns, seen, stack, S, busy, n, count, total);
    }
  }

  /** Everything seen is among the ancestors, so one more than the list holds are too. */
  lemma MoreThanListed(ns: seq<Node>, seen: seq<nat>, stack: seq<nat>, list: seq<nat>, P: set<Txid>, S: set<Txid>, done: set<Txid>, a: nat)
    requires Listing(ns, list, done) && |list| >= ANC_LIST && Risen(ViewOf(ns), P, S, done) && a < |ns|
    requires Tracked(ns, seen, stack, S, done + {ns[a].txid}) && ns[a].txid !in done
    ensures |Up(ViewOf(ns), P)| > ANC_LIST
  {
    hide ViewOf, Weight, SizesOf;
    var T := done + {ns[a].txid};
    forall t | t in T ensures t in Up(ViewOf(ns), P) { }
    Sums.SubsetSize(T, Up(ViewOf(ns), P));
  }

  lemma StartRise(ns: seq<Node>, refs: seq<int>)
    requires Distinct(ns)
    ensures Tracked(ns, [], [], {}, {}) && Risen(ViewOf(ns), Ids(ns, refs), {}, {})
    ensures forall k: nat :: k < |refs| && 0 <= refs[k] < |ns| ==> MayRise(ViewOf(ns), Ids(ns, refs), {}, ns[refs[k]].txid)
  {
    NothingTracked(ns, ViewOf(ns), {});
  }
}
