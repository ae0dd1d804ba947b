/** How many ancestors a node has and what they weigh with it, found by a walk up from it. */
module PoolAncestors {
  import opened PoolViews
  import Sums

  const SEEN_MAX := 128
  const U32_MAX := 0xffff_ffff

  /** Everything of S is in every closed set that holds what t spends. */
  ghost predicate Within(v: View, t: Txid, S: set<Txid>)
    requires t in v
  {
    forall C: set<Txid> :: v[t].parents <= C && UpClosed(v, C) ==> S <= C
  }

  /** Which slots have been seen and which wait on the stack: S names the seen, less those in hand and done. */
  ghost predicate Tracked(ns: seq<Node>, seen: seq<nat>, stack: seq<nat>, S: set<Txid>, busy: set<Txid>) {
    && S <= Txids(ns) && |S| == |seen| && busy <= S
    && (forall p: nat :: p < |ns| ==> (p in seen <==> ns[p].txid in S))
    && (forall k: nat :: k < |stack| ==> stack[k] < |ns| && ns[stack[k]].txid in S - busy)
    && (forall p: nat :: p < |ns| && ns[p].txid in S - busy ==> p in stack)
    && (forall j: nat, k: nat :: j < k < |stack| ==> stack[j] != stack[k])
  }

  /** Nothing but ancestors has been seen, and all parents of what is done. */
  ghost predicate Sound(ns: seq<Node>, i: nat, S: set<Txid>, done: set<Txid>) {
    && i < |ns| && ns[i].txid in ViewOf(ns) && Within(ViewOf(ns), ns[i].txid, S)
    && forall p: nat :: p < |ns| && ns[p].txid in done ==> Ids(ns, ns[p].parents) <= S
  }

  lemma Differ(ns: seq<Node>, p: nat, q: nat)
    requires Distinct(ns) && p < |ns| && q < |ns| && ns[p].txid == ns[q].txid
    ensures p == q
  {
  }

  lemma PushTracked(ns: seq<Node>, seen: seq<nat>, stack: seq<nat>, S: set<Txid>, busy: set<Txid>, p: nat)
    requires Distinct(ns) && Tracked(ns, seen, stack, S, busy) && p < |ns| && p !in seen
    ensures Tracked(ns, seen + [p], stack + [p], S + {ns[p].txid}, busy)
  {
    hide Distinct;
    var x, seen', stack' := ns[p].txid, seen + [p], stack + [p];
    assert x !in S;
    forall q: nat | q < |ns| ensures q in seen' <==> ns[q].txid in S + {x} {
      if ns[q].txid == x { Differ(ns, p, q); }
    }
    forall q: nat | q < |ns| && ns[q].txid in S + {x} - busy ensures q in stack' {
      if ns[q].txid == x { Differ(ns, p, q); }
    }
    forall j: nat, k: nat | j < k < |stack'| ensures stack'[j] != stack'[k] {
      assert ns[stack[j]].txid in S;
    }
  }

  lemma PushSound(ns: seq<Node>, i: nat, S: set<Txid>, done: set<Txid>, x: Txid)
    requires Sound(ns, i, S, done) && Within(ViewOf(ns), ns[i].txid, {x})
    ensures Sound(ns, i, S + {x}, done)
  {
    hide ViewOf, Ids, UpClosed;
    forall C: set<Txid> | ViewOf(ns)[ns[i].txid].parents <= C && UpClosed(ViewOf(ns), C) ensures S + {x} <= C {
      assert S <= C && {x} <= C;
    }
  }

  lemma PopTracked(ns: seq<Node>, seen: seq<nat>, stack: seq<nat>, S: set<Txid>, busy: set<Txid>)
    requires Distinct(ns) && Tracked(ns, seen, stack, S, busy) && |stack| > 0
    ensures var a := stack[|stack| - 1];
      a < |ns| && ns[a].txid in S - busy && Tracked(ns, seen, stack[..|stack| - 1], S, busy + {ns[a].txid})
  {
    hide Distinct, Txids;
    var a, rest := stack[|stack| - 1], stack[..|stack| - 1];
    var x := ns[a].txid;
    forall k: nat | k < |rest| ensures rest[k] < |ns| && ns[rest[k]].txid in S - (busy + {x}) {
      assert stack[k] < |ns| && ns[stack[k]].txid in S - busy && stack[k] != a;
      if ns[stack[k]].txid == x { Differ(ns, stack[k], a); }
    }
    forall p: nat | p < |ns| && ns[p].txid in S - (busy + {x}) ensures p in rest {
      assert p in stack && p != a;
      var k: nat :| k < |stack| && stack[k] == p;
      assert rest[k] == p;
    }
  }

  /** A parent of something seen belongs to the ancestors. */
  lemma ParentWithin(ns: seq<Node>, i: nat, S: set<Txid>, a: nat, k: nat)
    requires Distinct(ns) && i < |ns| && a < |ns| && ns[i].txid in ViewOf(ns) && k < |ns[a].parents| && 0 <= ns[a].parents[k] < |ns|
    requires a == i || (ns[a].txid in S && Within(ViewOf(ns), ns[i].txid, S))
    ensures Within(ViewOf(ns), ns[i].txid, {ns[ns[a].parents[k]].txid})
  {
    var v, t, x := ViewOf(ns), ns[i].txid, ns[ns[a].parents[k]].txid;
    ViewAt(ns, a); ViewAt(ns, i);
    assert x in Ids(ns, ns[a].parents);
    forall C: set<Txid> | v[t].parents <= C && UpClosed(v, C) ensures {x} <= C {
      if a != i { assert S <= C; }
    }
  }

  /** When the stack is empty everything that was seen is an ancestor and there are no others. */
  lemma WalkEnds(ns: seq<Node>, i: nat, seen: seq<nat>, S: set<Txid>, done: set<Txid>)
    requires Distinct(ns) && Tracked(ns, seen, [], S, done) && Sound(ns, i, S, done) && Ids(ns, ns[i].parents) <= S
    ensures S == done == Ancestors(ViewOf(ns), ns[i].txid)
  {
    var v, t := ViewOf(ns), ns[i].txid;
    ViewAt(ns, i);
    forall x | x in S ensures x in done {
      var p := SlotOf(ns, x);
      assert p !in [];
    }
    forall x | x in S && x in v ensures v[x].parents <= S {
      var p := SlotOf(ns, x);
      ViewAt(ns, p);
    }
    AncestorsLeast(v, t, S);
  }

  /** No live parent is listed twice. */
  ghost predicate NoDoubles(ns: seq<Node>, refs: seq<int>) {
    forall j: nat, k: nat :: j < k < |refs| && 0 <= refs[j] < |ns| ==> refs[j] != refs[k]
  }

  /** The figures a walk of more than the table holds gives up on. */
  function Capped(x: nat): nat {
    if x > U32_MAX then U32_MAX else x
  }

  /** The figures of a node: itself and its ancestors, or as high as they go when there are too many. */
  ghost predicate Exact(ns: seq<Node>, i: nat, cnt: nat, bytes: nat) {
    && i < |ns| && ns[i].txid in ViewOf(ns)
    && var A := Ancestors(ViewOf(ns), ns[i].txid);
      if |A| <= SEEN_MAX then cnt == 1 + |A| && bytes == Capped(ns[i].size + Weight(ViewOf(ns), A))
      else cnt == U32_MAX && bytes == U32_MAX
  }

  /** The live, unseen parents of node a put on the stack, until there is no room. */
  method PushParents(ns: seq<Node>, i: nat, a: nat, seen0: seq<nat>, stack0: seq<nat>, ghost S0: set<Txid>, ghost busy: set<Txid>,
                     ghost done: set<Txid>)
    returns (seen: seq<nat>, stack: seq<nat>, full: bool, ghost S: set<Txid>)
    requires Distinct(ns) && a < |ns| && Tracked(ns, seen0, stack0, S0, busy) && Sound(ns, i, S0, done)
    requires a == i || ns[a].txid in S0
    requires |seen0| <= SEEN_MAX
    ensures Tracked(ns, seen, stack, S, busy) && Sound(ns, i, S, done) && S0 <= S && |seen| <= SEEN_MAX
    ensures !full ==> Ids(ns, ns[a].parents) <= S
    ensures full ==> |Ancestors(ViewOf(ns), ns[i].txid)| > SEEN_MAX
  {
    hide Tracked, Sound, ViewOf, Distinct, Txids;
    seen, stack, full, S := seen0, stack0, false, S0;
    for k := 0 to |ns[a].parents|
      invariant Tracked(ns, seen, stack, S, busy) && Sound(ns, i, S, done) && S0 <= S && |seen| <= SEEN_MAX
      invariant forall j: nat :: j < k && 0 <= ns[a].parents[j] < |ns| ==> ns[ns[a].parents[j]].txid in S
    {
      var p := ns[a].parents[k];
      if 0 <= p < |ns| {
        SeenIs(ns, seen, stack, S, busy, p);
        if p !in seen {
          NewAncestor(ns, i, S, done, a, k);
          if |seen| >= SEEN_MAX {
            TooMany(ns, i, seen, stack, S, busy, done, p);
            return seen, stack, true, S;
          }
          PushTracked(ns, seen, stack, S, busy, p);
          PushSound(ns, i, S, done, ns[p].txid);
          seen, stack, S := seen + [p], stack + [p], S + {ns[p].txid};
        }
      }
    }
    IdsWithin(ns, ns[a].parents, S);
  }

  lemma SeenIs(ns: seq<Node>, seen: seq<nat>, stack: seq<nat>, S: set<Txid>, busy: set<Txid>, p: nat)
    requires Tracked(ns, seen, stack, S, busy) && p < |ns|
    ensures p in seen <==> ns[p].txid in S
  {
  }

  lemma NewAncestor(ns: seq<Node>, i: nat, S: set<Txid>, done: set<Txid>, a: nat, k: nat)
    requires Distinct(ns) && Sound(ns, i, S, done) && a < |ns| && (a == i || ns[a].txid in S)
    requires k < |ns[a].parents| && 0 <= ns[a].parents[k] < |ns|
    ensures i < |ns| && ns[i].txid in ViewOf(ns) && Within(ViewOf(ns), ns[i].txid, {ns[ns[a].parents[k]].txid})
  {
    hide Within;
    ParentWithin(ns, i, S, a, k);
  }

  lemma IdsWithin(ns: seq<Node>, refs: seq<int>, S: set<Txid>)
    requires forall j: nat :: j < |refs| && 0 <= refs[j] < |ns| ==> ns[refs[j]].txid in S
    ensures Ids(ns, refs) <= S
  {
  }

  /** One ancestor more than the table holds. */
  lemma TooMany(ns: seq<Node>, i: nat, seen: seq<nat>, stack: seq<nat>, S: set<Txid>, busy: set<Txid>, done: set<Txid>, p: nat)
    requires Tracked(ns, seen, stack, S, busy) && Sound(ns, i, S, done) && |seen| >= SEEN_MAX && p < |ns| && p !in seen
    requires i < |ns| && ns[i].txid in ViewOf(ns) && Within(ViewOf(ns), ns[i].txid, {ns[p].txid})
    ensures |Ancestors(ViewOf(ns), ns[i].txid)| > SEEN_MAX
  {
    var A, T := Ancestors(ViewOf(ns), ns[i].txid), S + {ns[p].txid};
    forall x | x in T ensures x in A {
    }
    Sums.SubsetSize(T, A);
  }

  /** The live parents of the node itself, none of them listed twice. */
  method PushFirst(ns: seq<Node>, i: nat) returns (seen: seq<nat>, stack: seq<nat>, full: bool, ghost S: set<Txid>)
    requires Distinct(ns) && i < |ns| && NoDoubles(ns, ns[i].parents)
    ensures Tracked(ns, seen, stack, S, {}) && Sound(ns, i, S, {}) && |seen| <= SEEN_MAX
    ensures !full ==> Ids(ns, ns[i].parents) <= S
    ensures full ==> ns[i].txid in ViewOf(ns) && |Ancestors(ViewOf(ns), ns[i].txid)| > SEEN_MAX
  {
    hide Tracked, Sound, ViewOf, Distinct, Txids;
    seen, stack, full, S := [], [], false, {};
    NothingSeen(ns, i);
    for k := 0 to |ns[i].parents|
      invariant Tracked(ns, seen, stack, S, {}) && Sound(ns, i, S, {}) && |seen| <= SEEN_MAX
      invariant forall p :: p in seen ==> exists j: nat :: j < k && ns[i].parents[j] == p
      invariant forall j: nat :: j < k && 0 <= ns[i].parents[j] < |ns| ==> ns[ns[i].parents[j]].txid in S
    {
      var p := ns[i].parents[k];
      if 0 <= p < |ns| {
        assert p !in seen;
        NewAncestor(ns, i, S, {}, i, k);
        if |seen| >= SEEN_MAX {
          TooMany(ns, i, seen, stack, S, {}, {}, p);
          return seen, stack, true, S;
        }
        PushTracked(ns, seen, stack, S, {}, p);
        PushSound(ns, i, S, {}, ns[p].txid);
        seen, stack, S := seen + [p], stack + [p], S + {ns[p].txid};
      }
    }
    IdsWithin(ns, ns[i].parents, S);
  }

  lemma NothingSeen(ns: seq<Node>, i: nat)
    requires Distinct(ns) && i < |ns|
    ensures Tracked(ns, [], [], {}, {}) && Sound(ns, i, {}, {})
  {
    ViewAt(ns, i);
  }

  /** A node taken off the stack and its parents seen to: done. */
  lemma OneDone(ns: seq<Node>, i: nat, S: set<Txid>, done: set<Txid>, a: nat)
    requires Distinct(ns) && Sound(ns, i, S, done) && a < |ns| && Ids(ns, ns[a].parents) <= S
    ensures Sound(ns, i, S, done + {ns[a].txid})
  {
    hide ViewOf, Ids, Within;
    forall p: nat | p < |ns| && ns[p].txid in done + {ns[a].txid} ensures Ids(ns, ns[p].parents) <= S {
      if ns[p].txid == ns[a].txid { Differ(ns, p, a); }
    }
  }

  lemma WeighOne(ns: seq<Node>, done: set<Txid>, a: nat)
    requires Distinct(ns) && a < |ns| && done <= Txids(ns) && ns[a].txid !in done
    ensures Weight(ViewOf(ns), done + {ns[a].txid}) == Weight(ViewOf(ns), done) + ns[a].size
  {
    ViewAt(ns, a);
    WeightWith(ViewOf(ns), done, ns[a].txid);
  }

  lemma NoWeight(ns: seq<Node>)
    ensures Weight(ViewOf(ns), {}) == 0
  {
  }

  lemma TrackedSize(ns: seq<Node>, seen: seq<nat>, stack: seq<nat>, S: set<Txid>, busy: set<Txid>)
    requires Tracked(ns, seen, stack, S, busy)
    ensures busy <= Txids(ns) && |busy| <= |Txids(ns)|
  {
    Sums.SubsetSize(busy, Txids(ns));
  }

  /** A node's figures, by walking up. */
  method Recompute(ns: seq<Node>, i: nat) returns (cnt: nat, bytes: nat)
    requires Distinct(ns) && i < |ns| && NoDoubles(ns, ns[i].parents)
    ensures Exact(ns, i, cnt, bytes)
  {
    hide Tracked, Sound, ViewOf, Distinct, Txids, Ids;
    ViewAt(ns, i);
    var seen, stack, full;
    ghost var S, done := {}, {};
    seen, stack, full, S := PushFirst(ns, i);
    cnt, bytes := 1, ns[i].size;
    NoWeight(ns);
    TrackedSize(ns, seen, stack, S, done);
    while |stack| > 0 && !full
      invariant done <= Txids(ns) && |done| <= |Txids(ns)|
      invariant !full ==> Tracked(ns, seen, stack, S, done) && Sound(ns, i, S, done) && |seen| <= SEEN_MAX
      invariant !full ==> Ids(ns, ns[i].parents) <= S
      invariant cnt == 1 + |done| && bytes == ns[i].size + Weight(ViewOf(ns), done)
      invariant full ==> |Ancestors(ViewOf(ns), ns[i].txid)| > SEEN_MAX
      decreases |Txids(ns)| - |done|
    {
      var a := stack[|stack| - 1];
      PopTracked(ns, seen, stack, S, done);
      stack := stack[..|stack| - 1];
      WeighOne(ns, done, a);
      cnt, bytes := cnt + 1, bytes + ns[a].size;
      ghost var S0 := S;
      seen, stack, full, S := PushParents(ns, i, a, seen, stack, S, done + {ns[a].txid}, done);
      if !full { OneDone(ns, i, S, done, a); }
      done := done + {ns[a].txid};
      TrackedSize(ns, seen, stack, S, done);
    }
    if full {
      cnt, bytes := U32_MAX, U32_MAX;
    } else {
      assert stack == [];
      WalkEnds(ns, i, seen, S, done);
      Few(ns, seen, stack, S, done);
      bytes := Capped(bytes);
    }
  }

  lemma Few(ns: seq<Node>, seen: seq<nat>, stack: seq<nat>, S: set<Txid>, busy: set<Txid>)
    requires Tracked(ns, seen, stack, S, busy)
    ensures |S| == |seen|
  {
  }
}
