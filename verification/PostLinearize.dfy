/** PostLinearize: a backward and a forward pass of merging and swapping groups. */
module PostLinearize {
  import opened Clusters
  import opened Diagrams
  import opened Chunking
  import opened Linearize
  import opened TightRuns
  import opened Passes
  import opened GroupOrder
  import opened LastMember

  method DependsOn(cl: Cluster, P: Group, C: Group, backward: bool) returns (yes: bool)
    requires InRange(cl, C.idx)
    ensures yes <==> Depends(cl, P, C, backward)
  {
    var link: set<nat> := {};
    for k := 0 to |C.idx|
      invariant link !! P.members <==> forall j: nat :: j < k ==>
        (if backward then cl.m[C.idx[j]].descendants else cl.m[C.idx[j]].ancestors) !! P.members
    {
      link := link + if backward then cl.m[C.idx[k]].descendants else cl.m[C.idx[k]].ancestors;
    }
    yes := !(link !! P.members);
  }

  /** The last group on its way: everything the pass keeps, and an order no worse than it started from. */
  ghost predicate Moving(cl: Cluster, lin: seq<int>, step: nat, g0: seq<Group>, g: seq<Group>, pos: nat, x: nat, backward: bool) {
    && step <= |lin| && Passing(cl, lin, step, g, backward) && Going(cl, lin, g, pos, x, backward) && Solo(cl, lin, step, g, pos, backward)
    && Improves(cl, Full(lin, step, g0, backward), Full(lin, step, g, backward))
  }

  lemma MovingStarts(cl: Cluster, lin: seq<int>, step: nat, g: seq<Group>, pos: nat, x: nat, backward: bool)
    requires Passing(cl, lin, step, g, backward) && Going(cl, lin, g, pos, x, backward) && Solo(cl, lin, step, g, pos, backward)
    ensures Moving(cl, lin, step, g, g, pos, x, backward)
  {
    hide Going, Solo;
    StepInside(cl, lin, step, g, backward);
  }

  lemma MovingMerges(cl: Cluster, lin: seq<int>, step: nat, g0: seq<Group>, g: seq<Group>, pos: nat, x: nat, backward: bool)
    requires Moving(cl, lin, step, g0, g, pos, x, backward) && 0 < pos < |g| && InRange(cl, g[pos].idx)
    requires OutOfOrder(g[pos - 1], g[pos], backward) && Depends(cl, g[pos - 1], g[pos], backward)
    ensures Moving(cl, lin, step, g0, MergedAt(g, pos), pos - 1, x, backward)
  {
    hide Passing, Going, Solo, Improves, Full, OutOfOrder, Depends, MergedAt, InRange;
    PassMerges(cl, lin, step, g, backward, pos);
    MergedAtIs(g, pos);
    GoingMerges(cl, lin, step, g, pos, x, backward);
    SoloMerges(cl, lin, step, g, pos, backward);
    MergedFull(lin, step, g, pos, backward);
  }

  lemma MovingSwaps(cl: Cluster, lin: seq<int>, step: nat, g0: seq<Group>, g: seq<Group>, pos: nat, x: nat, backward: bool)
    requires Moving(cl, lin, step, g0, g, pos, x, backward) && 0 < pos < |g| && InRange(cl, g[pos].idx)
    requires OutOfOrder(g[pos - 1], g[pos], backward) && !Depends(cl, g[pos - 1], g[pos], backward)
    ensures Moving(cl, lin, step, g0, Swapped(g, pos), pos - 1, x, backward)
  {
    hide Passing, Going, Solo, Improves, Full, OutOfOrder, Depends, Swapped, InRange;
    PassSwaps(cl, lin, step, g, backward, pos);
    GoingSwaps(cl, lin, step, g, pos, x, backward);
    SoloSwaps(cl, lin, step, g, pos, backward);
    SwappedFull(cl, lin, step, g0, g, pos, backward);
  }

  lemma MovingEnds(cl: Cluster, lin: seq<int>, step: nat, g0: seq<Group>, g: seq<Group>, pos: nat, x: nat, backward: bool)
    requires Moving(cl, lin, step, g0, g, pos, x, backward) && pos < |g|
    requires pos > 0 ==> !OutOfOrder(g[pos - 1], g[pos], backward)
    ensures step <= |lin| && Passing(cl, lin, step, g, backward) && AtRest(cl, lin, g, backward) && Solo(cl, lin, step, g, |g|, backward)
    ensures Improves(cl, Full(lin, step, g0, backward), Full(lin, step, g, backward))
  {
    hide Passing, Going, Solo, Improves, Full, OutOfOrder, AtRest;
    GoingEnds(cl, lin, step, g, pos, x, backward);
    SoloEnds(cl, lin, step, g, pos, backward);
  }

  lemma MovingRange(cl: Cluster, lin: seq<int>, step: nat, g0: seq<Group>, g: seq<Group>, pos: nat, x: nat, backward: bool)
    requires Moving(cl, lin, step, g0, g, pos, x, backward) && pos < |g|
    ensures InRange(cl, g[pos].idx)
  {
    hide Going, Solo, Improves;
    PassFacts(cl, lin, step, g, backward, pos);
  }

  /** Move the last group forward past, or into, every group it is out of order with. */
  method Settle(cl: Cluster, g0: seq<Group>, backward: bool, ghost lin: seq<int>, ghost step: nat, ghost x: nat) returns (g: seq<Group>)
    requires |g0| > 0 && step <= |lin| && Passing(cl, lin, step, g0, backward) && Going(cl, lin, g0, |g0| - 1, x, backward)
    requires Solo(cl, lin, step, g0, |g0| - 1, backward)
    ensures Passing(cl, lin, step, g, backward) && AtRest(cl, lin, g, backward) && Solo(cl, lin, step, g, |g|, backward)
    ensures Improves(cl, Full(lin, step, g0, backward), Full(lin, step, g, backward))
  {
    hide *;
    g := g0;
    var pos := |g| - 1;
    MovingStarts(cl, lin, step, g, pos, x, backward);
    while pos > 0
      invariant 0 <= pos < |g| && Moving(cl, lin, step, g0, g, pos, x, backward)
    {
      var P, C := g[pos - 1], g[pos];
      if !OutOfOrder(P, C, backward) { break; }
      MovingRange(cl, lin, step, g0, g, pos, x, backward);
      var depends := DependsOn(cl, P, C, backward);
      if depends {
        MovingMerges(cl, lin, step, g0, g, pos, x, backward);
        MergedAtIs(g, pos);
        g := g[..pos - 1] + [Merged(P, C)] + g[pos + 1..];
      } else {
        MovingSwaps(cl, lin, step, g0, g, pos, x, backward);
        g := Swapped(g, pos);
      }
      pos := pos - 1;
    }
    MovingEnds(cl, lin, step, g0, g, pos, x, backward);
  }

  /** Concatenate the groups into lin. */
  method WriteOut(lin: array<int>, g: seq<Group>)
    requires lin.Length == |Flat(g)|
    modifies lin
    ensures lin[..] == Flat(g)
  {
    hide Flat;
    var out := 0;
    FlatNone();
    assert g[..0] == [] && g[..|g|] == g;
    for k := 0 to |g|
      invariant out == |Flat(g[..k])| <= lin.Length && lin[..out] == Flat(g[..k])
    {
      FlatNext(g, k);
      ghost var before := lin[..out];
      for j := 0 to |g[k].idx|
        invariant out == |before| + j <= lin.Length && lin[..out] == before + g[k].idx[..j]
      {
        lin[out] := g[k].idx[j];
        out := out + 1;
        assert lin[..out] == before + g[k].idx[..j + 1];
      }
      assert g[k].idx[..|g[k].idx|] == g[k].idx;
    }
    assert lin[..] == lin[..out];
  }

  method ReverseInPlace(lin: array<int>)
    modifies lin
    ensures lin[..] == Rev(old(lin[..]))
  {
    var n := lin.Length;
    for k := 0 to n / 2
      invariant forall i :: 0 <= i < k ==> lin[i] == old(lin[n - 1 - i]) && lin[n - 1 - i] == old(lin[i])
      invariant forall i :: k <= i < n - k ==> lin[i] == old(lin[i])
    {
      lin[k], lin[n - 1 - k] := lin[n - 1 - k], lin[k];
    }
  }

  /** What a pass promises of the order it leaves: connected chunks, and in its special case a diagram no order can better. */
  ghost predicate Bettered(cl: Cluster, lin: seq<int>, order: seq<int>, backward: bool) {
    && (PositiveWeights(cl) && (backward ==> Transposed(cl)) ==> ConnectedChunks(cl, order))
    && (Special(cl, lin, backward) ==> Dominant(cl, order))
    && (backward && PositiveWeights(cl) && Transposed(cl) ==> InRange(cl, order) && LastMoved(cl, lin, order))
  }

  lemma RestMeans(cl: Cluster, lin: seq<int>, g: seq<Group>, backward: bool)
    requires Passing(cl, lin, |lin|, g, backward) && AtRest(cl, lin, g, backward)
    requires Lifts(cl, lin, |lin|, Full(lin, |lin|, g, backward), backward)
    ensures Bettered(cl, lin, View(Flat(g), backward), backward)
  {
    if backward && PositiveWeights(cl) && Transposed(cl) { LiftsEnd(cl, lin, g); }
    RunsJoin(g, backward);
    PassEnds(cl, lin, g, backward);
    FlatListing(cl, lin, |lin|, g, backward);
    EndsPermuted(cl, lin, g, backward);
    hide Flat, Rooted, Connected, Dominant, ConnectedChunks, Full, AtMostOneChild, AtMostOneParent, FallingRuns, RunsOf, View, TightRun, GroupOf, Ordered,
      Topological, Acyclic, Listing, Improves;
    var r := RunsOf(g, backward);
    if PositiveWeights(cl) && (backward ==> Transposed(cl)) {
      RunsFall(cl, g, backward);
      forall i: nat | i < |r| ensures Connected(cl, Members(r[i])) {
        RunIs(g, backward, i);
        RunOf(cl, g[if backward then |g| - 1 - i else i], backward);
      }
      RunsConnect(cl, r);
    }
    if Special(cl, lin, backward) {
      forall i: nat | i < |r| ensures TightRun(cl, r[i]) {
        RunIs(g, backward, i);
        RootedRun(cl, g, if backward then |g| - 1 - i else i, backward);
      }
      RunsDominant(cl, r);
    }
  }

  /** One pass over lin, in place. */
  method OnePass(cl: Cluster, lin: array<int>, backward: bool)
    requires lin.Length == |cl.m| && Permutation(cl, lin[..])
    modifies lin
    ensures Improves(cl, old(lin[..]), lin[..]) && Bettered(cl, old(lin[..]), lin[..], backward)
  {
    hide *;
    var g: seq<Group> := [];
    ghost var lin0 := lin[..];
    PermutationFacts(cl, lin0);
    PassStarts(cl, lin0, backward);
    RestStarts(cl, lin0, backward);
    LiftsStart(cl, lin0, backward);
    for step := 0 to |cl.m|
      invariant lin[..] == lin0 && Passing(cl, lin0, step, g, backward) && AtRest(cl, lin0, g, backward)
      invariant Solo(cl, lin0, step, g, |g|, backward) && Lifts(cl, lin0, step, Full(lin0, step, g, backward), backward) && (step == 0 ==> g == [])
    {
      var i := if backward then lin[|cl.m| - 1 - step] else lin[step];
      PassTakes(cl, lin0, step, g, backward, i);
      GoingStarts(cl, lin0, step, g, backward, i);
      SoloStarts(cl, lin0, step, g, backward, i);
      TakenFull(cl, lin0, step, g, backward, i);
      ghost var before := g;
      g := Settle(cl, g + [NewGroup(cl, i)], backward, lin0, step + 1, i);
      LiftsGrow(cl, lin0, step, before, g, backward);
    }
    PassEnds(cl, lin0, g, backward);
    RestMeans(cl, lin0, g, backward);
    ViewIs(Flat(g), backward);
    WriteOut(lin, g);
    if backward { ReverseInPlace(lin); }
  }

  /** A pass from each end over an order, in place: 0, or -1 when it is handed or would hand back no linearization.
      On a cluster whose descendant sets are the transpose of its ancestor sets the closing check never fires, every chunk of
      the result is connected, and where every member has one child at most, or every member one parent at most, no order has a
      better diagram anywhere. */
  method PostLinearize(cl: Cluster, lin: array<int>) returns (rc: int)
    requires lin.Length == |cl.m|
    modifies lin
    ensures rc == 0 || rc == -1
    ensures !Topological(cl, old(lin[..])) ==> rc == -1 && lin[..] == old(lin[..])
    ensures rc == 0 ==> Topological(cl, lin[..])
    ensures Topological(cl, old(lin[..])) && Transposed(cl) ==> rc == 0
    ensures Topological(cl, old(lin[..])) ==> Improves(cl, old(lin[..]), lin[..])
    ensures Topological(cl, old(lin[..])) && PositiveWeights(cl) ==> ConnectedChunks(cl, lin[..])
    ensures Topological(cl, old(lin[..])) && Shaped(cl) && (AtMostOneChild(cl) || AtMostOneParent(cl)) ==> Dominant(cl, lin[..])
    ensures Topological(cl, old(lin[..])) && PositiveWeights(cl) && Transposed(cl) ==> LastMoved(cl, old(lin[..]), lin[..])
  {
    hide *;
    var ok := IsTopological(cl, lin[..]);
    if !ok { return -1; }
    ghost var a := lin[..];
    TopologicalFacts(cl, a);
    OnePass(cl, lin, true);
    ghost var b := lin[..];
    ImprovesFacts(cl, a, b);
    OnePass(cl, lin, false);
    ImprovesTrans(cl, a, b, lin[..]);
    ImprovesFacts(cl, a, lin[..]);
    BothPasses(cl, a, b, lin[..]);
    ok := IsTopological(cl, lin[..]);
    rc := if ok then 0 else -1;
  }

  /** The way back is best for one parent each, and what it finds is not lost on the way there, which is best for one child each. */
  lemma BothPasses(cl: Cluster, a: seq<int>, b: seq<int>, c: seq<int>)
    requires Topological(cl, a) && Improves(cl, a, b) && Improves(cl, b, c) && Bettered(cl, a, b, true) && Bettered(cl, b, c, false)
    ensures PositiveWeights(cl) ==> ConnectedChunks(cl, c)
    ensures Shaped(cl) && (AtMostOneChild(cl) || AtMostOneParent(cl)) ==> Dominant(cl, c)
    ensures PositiveWeights(cl) && Transposed(cl) ==> LastMoved(cl, a, c)
  {
    hide ConnectedChunks, Dominant, AtMostOneChild, AtMostOneParent, Topological, DualAtLeast, LastMoved;
    if Shaped(cl) && AtMostOneParent(cl) { DominantStays(cl, b, c); }
    if PositiveWeights(cl) && Transposed(cl) { LastMovedOn(cl, a, b, c); }
  }
}
