/** What a pass's groups are like: falling in rate, connected, and, where members have one child or one parent, tight. */
module GroupOrder {
  import opened Clusters
  import opened Feerates
  import opened Diagrams
  import opened Chunking
  import opened DiagramOrder
  import opened TightRuns
  import opened Passes
  import Sums

  /** A group's rate; on the way back, lower is better. */
  ghost function SRate(G: Group, backward: bool): real {
    if G.weight == 0 then 0.0 else if backward then -Rate(G.fee, G.weight) else Rate(G.fee, G.weight)
  }

  /** The groups fall in rate, but for the one that is being moved: it may be above those before it. */
  ghost predicate Ordered(g: seq<Group>, pos: nat, backward: bool) {
    forall i: nat, j: nat :: i < j < |g| && j != pos ==> SRate(g[i], backward) >= SRate(g[j], backward)
  }

  lemma RatesAre(cl: Cluster, P: Group, C: Group, backward: bool)
    requires PositiveWeights(cl) && GroupOf(cl, P, backward) && GroupOf(cl, C, backward)
    ensures OutOfOrder(P, C, backward) <==> SRate(P, backward) < SRate(C, backward)
    ensures OutOfOrder(P, C, backward) ==> SRate(P, backward) < SRate(Merged(P, C), backward)
  {
    GroupRate(cl, P, backward); GroupRate(cl, C, backward);
    hide GroupOf;
    if OutOfOrder(P, C, backward) {
      Between(P.fee, P.weight, C.fee, C.weight);
      Between(C.fee, C.weight, P.fee, P.weight);
    }
  }

  lemma Between(f: nat, w: nat, f': nat, w': nat)
    requires w > 0 && w' > 0
    ensures Rate(f, w) < Rate(f', w') ==> Rate(f, w) < Rate(f + f', w + w') < Rate(f', w')
    ensures Rate(f, w) < Rate(f', w') ==> Rate(f, w) < Rate(f' + f, w' + w) < Rate(f', w')
  {
    var r := Rate(f + f', w + w');
    WorthSign(f, w, r); WorthSign(f', w', r); WorthSign(f + f', w + w', r);
    AddWorth(f, w, f', w', r);
  }

  lemma OrderedTakes(g: seq<Group>, G: Group, backward: bool)
    requires Ordered(g, |g|, backward)
    ensures Ordered(g + [G], |g|, backward)
  {
  }

  lemma OrderedMerges(g: seq<Group>, pos: nat, backward: bool)
    requires 0 < pos < |g| && Ordered(g, pos, backward) && SRate(g[pos - 1], backward) < SRate(Merged(g[pos - 1], g[pos]), backward)
    ensures Ordered(MergedAt(g, pos), pos - 1, backward)
  {
    hide SRate, Merged;
    var h := MergedAt(g, pos);
    forall i: nat, j: nat | i < j < |h| && j != pos - 1 ensures SRate(h[i], backward) >= SRate(h[j], backward) {
      if j >= pos {
        assert h[j] == g[j + 1];
        assert SRate(g[pos - 1], backward) >= SRate(g[j + 1], backward);
        if i >= pos { assert h[i] == g[i + 1]; } else if i < pos - 1 { assert h[i] == g[i]; }
      } else {
        assert h[j] == g[j] && h[i] == g[i];
      }
    }
  }

  lemma OrderedSwaps(g: seq<Group>, pos: nat, backward: bool)
    requires 0 < pos < |g| && Ordered(g, pos, backward) && SRate(g[pos - 1], backward) < SRate(g[pos], backward)
    ensures Ordered(Swapped(g, pos), pos - 1, backward)
  {
    hide SRate;
  }

  lemma OrderedEnds(g: seq<Group>, pos: nat, backward: bool)
    requires pos < |g| && Ordered(g, pos, backward) && (pos > 0 ==> SRate(g[pos - 1], backward) >= SRate(g[pos], backward))
    ensures Ordered(g, |g|, backward)
  {
    hide SRate;
    forall i: nat, j: nat | i < j < |g| ensures SRate(g[i], backward) >= SRate(g[j], backward) {
      if j == pos && i < pos - 1 { assert SRate(g[i], backward) >= SRate(g[pos - 1], backward); }
    }
  }

  /** Every group hangs together. */
  ghost predicate Whole(cl: Cluster, g: seq<Group>) {
    forall i: nat :: i < |g| ==> Connected(cl, g[i].members)
  }

  lemma WholeMerges(cl: Cluster, g: seq<Group>, pos: nat, backward: bool)
    requires 0 < pos < |g| && Whole(cl, g) && GroupOf(cl, g[pos - 1], backward) && GroupOf(cl, g[pos], backward)
    requires Depends(cl, g[pos - 1], g[pos], backward) && (backward ==> Transposed(cl))
    ensures Whole(cl, MergedAt(g, pos))
  {
    hide Connected;
    var P, C := g[pos - 1], g[pos];
    var x, y := LinkBetween(cl, P, C, backward);
    hide GroupOf, Depends, Linked, Rel, Transposed;
    ConnectedJoin(cl, P.members, C.members, x, y);
    var h := MergedAt(g, pos);
    forall i: nat | i < |h| ensures Connected(cl, h[i].members) {
      if i == pos - 1 { assert h[i] == Merged(P, C); } else { assert h[i] == if i < pos then g[i] else g[i + 1]; }
    }
  }

  lemma WholeSwaps(cl: Cluster, g: seq<Group>, pos: nat)
    requires 0 < pos < |g| && Whole(cl, g)
    ensures Whole(cl, Swapped(g, pos))
  {
    hide Connected;
  }

  lemma LinkBetween(cl: Cluster, P: Group, C: Group, backward: bool) returns (x: nat, y: nat)
    requires GroupOf(cl, P, backward) && GroupOf(cl, C, backward) && Depends(cl, P, C, backward) && (backward ==> Transposed(cl))
    ensures x in P.members && y in C.members && x in Rel(cl, y, backward) && Linked(cl, x, y)
  {
    hide Solid;
    var k: nat :| k < |C.idx| && !((if backward then cl.m[C.idx[k]].descendants else cl.m[C.idx[k]].ancestors) !! P.members);
    y := C.idx[k];
    x :| x in P.members && x in (if backward then cl.m[y].descendants else cl.m[y].ancestors);
    assert x in P.idx;
  }

  /** All of a group is followed from the member it ends in, and no cone of it pays more than the group. */
  ghost predicate Rooted(cl: Cluster, G: Group, backward: bool) {
    && |G.idx| > 0 && G.idx[|G.idx| - 1] >= 0 && G.idx[|G.idx| - 1] in G.idx
    && G.members <= Rel(cl, G.idx[|G.idx| - 1], backward) && Tight(cl, G.members, SRate(G, backward), backward)
  }

  ghost predicate RootedBut(cl: Cluster, g: seq<Group>, pos: nat, backward: bool) {
    forall i: nat :: i < |g| && i != pos ==> Rooted(cl, g[i], backward)
  }

  /** The group that is being moved: it ends in x, which leads on to nothing before it, and without x no cone of it pays more than it
      does, or than the group before it. */
  ghost predicate Growing(cl: Cluster, g: seq<Group>, pos: nat, x: nat, backward: bool) {
    && pos < |g| && |g[pos].idx| > 0 && g[pos].idx[|g[pos].idx| - 1] == x && x in g[pos].members && g[pos].members <= Rel(cl, x, backward)
    && Nearly(cl, g[pos].members, x, SRate(g[pos], backward), backward)
    && (pos > 0 ==> Nearly(cl, g[pos].members, x, SRate(g[pos - 1], backward), backward))
    && NotOn(cl, g, pos, x, backward)
  }

  ghost predicate NotOn(cl: Cluster, g: seq<Group>, pos: nat, x: nat, backward: bool)
    requires pos <= |g|
  {
    forall i: nat, r :: i < pos && r in g[i].members ==> x !in Rel(cl, r, backward)
  }

  /** A cluster as it is meant to be: transitive ancestor sets, their transpose, and weight to every member. */
  ghost predicate Shaped(cl: Cluster) {
    PositiveWeights(cl) && Acyclic(cl) && Transposed(cl)
  }

  /** The case a pass is best in: forward, every member has one child at most; backward, one parent. */
  ghost predicate Special(cl: Cluster, lin: seq<int>, backward: bool) {
    && Shaped(cl) && Topological(cl, lin)
    && if backward then AtMostOneParent(cl) else AtMostOneChild(cl)
  }

  /** P's own root leads to x, and with it all of P. */
  lemma RootLeads(cl: Cluster, P: Group, C: Group, x: nat, backward: bool)
    requires GroupOf(cl, P, backward) && GroupOf(cl, C, backward) && Rooted(cl, P, backward) && Depends(cl, P, C, backward)
    requires PartialOrder(cl, backward) && OneNext(cl, backward) && Transposed(cl)
    requires x < |cl.m| && C.members <= Rel(cl, x, backward) && forall r :: r in P.members ==> x !in Rel(cl, r, backward)
    ensures P.members <= Rel(cl, x, backward)
  {
    var y, z := LinkBetween(cl, P, C, backward);
    var r: nat := P.idx[|P.idx| - 1];
    assert r in P.members && r < |cl.m|;
    assert y in Rel(cl, x, backward) && y in Rel(cl, r, backward);
    Chain(cl, y, r, x, backward);
  }

  /** One group joins the one that is being moved. */
  lemma MergedGrows(cl: Cluster, P: Group, C: Group, x: nat, backward: bool)
    requires PositiveWeights(cl) && PartialOrder(cl, backward) && OneNext(cl, backward) && Transposed(cl)
    requires GroupOf(cl, P, backward) && GroupOf(cl, C, backward) && P.members !! C.members && Rooted(cl, P, backward)
    requires x in C.members && C.members <= Rel(cl, x, backward) && Nearly(cl, C.members, x, SRate(P, backward), backward)
    requires forall r :: r in P.members ==> x !in Rel(cl, r, backward)
    requires OutOfOrder(P, C, backward) && Depends(cl, P, C, backward)
    ensures var M := Merged(P, C);
      && M.members <= Rel(cl, x, backward) && SRate(P, backward) < SRate(M, backward)
      && Nearly(cl, M.members, x, SRate(P, backward), backward) && Nearly(cl, M.members, x, SRate(M, backward), backward)
  {
    var M := Merged(P, C);
    assert x < |cl.m| by { assert x in C.idx; }
    RatesAre(cl, P, C, backward);
    RootLeads(cl, P, C, x, backward);
    hide PartialOrder, OneNext, Depends, OutOfOrder, GroupOf, Rel, SRate, Tight, Nearly;
    NearlyJoins(cl, P.members, C.members, x, SRate(P, backward), backward);
    NearlyHigher(cl, M.members, x, SRate(P, backward), SRate(M, backward), backward);
  }

  lemma GrowMerges(cl: Cluster, g: seq<Group>, pos: nat, x: nat, backward: bool)
    requires 0 < pos < |g| && PositiveWeights(cl) && PartialOrder(cl, backward) && OneNext(cl, backward) && Transposed(cl)
    requires GroupOf(cl, g[pos - 1], backward) && GroupOf(cl, g[pos], backward) && g[pos - 1].members !! g[pos].members
    requires Ordered(g, pos, backward) && RootedBut(cl, g, pos, backward) && Growing(cl, g, pos, x, backward)
    requires OutOfOrder(g[pos - 1], g[pos], backward) && Depends(cl, g[pos - 1], g[pos], backward)
    ensures RootedBut(cl, MergedAt(g, pos), pos - 1, backward) && Growing(cl, MergedAt(g, pos), pos - 1, x, backward)
  {
    hide PartialOrder, OneNext, Depends, OutOfOrder, GroupOf, Rel, SRate, Tight, Nearly, Rooted, Transposed;
    var P, C, h := g[pos - 1], g[pos], MergedAt(g, pos);
    MergedGrows(cl, P, C, x, backward);
    if pos > 1 {
      assert SRate(g[pos - 2], backward) >= SRate(P, backward);
      NearlyHigher(cl, Merged(P, C).members, x, SRate(P, backward), SRate(g[pos - 2], backward), backward);
    }
    RootedMerges(cl, g, pos, backward);
    assert h[pos - 1] == Merged(P, C) && (pos > 1 ==> h[pos - 2] == g[pos - 2]);
    NotOnMerges(cl, g, pos, x, backward);
  }

  lemma RootedMerges(cl: Cluster, g: seq<Group>, pos: nat, backward: bool)
    requires 0 < pos < |g| && RootedBut(cl, g, pos, backward)
    ensures RootedBut(cl, MergedAt(g, pos), pos - 1, backward)
  {
    hide Rooted, Merged;
    var h := MergedAt(g, pos);
    forall i: nat | i < |h| && i != pos - 1 ensures Rooted(cl, h[i], backward) {
      assert h[i] == if i < pos then g[i] else g[i + 1];
    }
  }

  lemma NotOnMerges(cl: Cluster, g: seq<Group>, pos: nat, x: nat, backward: bool)
    requires 0 < pos < |g| && NotOn(cl, g, pos, x, backward)
    ensures NotOn(cl, MergedAt(g, pos), pos - 1, x, backward)
  {
    hide Rel, Merged;
    var h := MergedAt(g, pos);
    forall i: nat | i < pos - 1 ensures h[i] == g[i] { }
  }

  lemma GrowSwaps(cl: Cluster, g: seq<Group>, pos: nat, x: nat, backward: bool)
    requires 0 < pos < |g| && PositiveWeights(cl)
    requires Ordered(g, pos, backward) && RootedBut(cl, g, pos, backward) && Growing(cl, g, pos, x, backward)
    ensures RootedBut(cl, Swapped(g, pos), pos - 1, backward) && Growing(cl, Swapped(g, pos), pos - 1, x, backward)
  {
    hide SRate, Nearly, Rooted, Rel;
    if pos > 1 {
      assert SRate(g[pos - 2], backward) >= SRate(g[pos - 1], backward);
      NearlyHigher(cl, g[pos].members, x, SRate(g[pos - 1], backward), SRate(g[pos - 2], backward), backward);
    }
  }

  lemma RootedNow(cl: Cluster, G: Group, x: nat, backward: bool)
    requires PositiveWeights(cl) && GroupOf(cl, G, backward) && Listing(cl, G.idx) && |G.idx| > 0 && G.idx[|G.idx| - 1] == x
    requires G.members <= Rel(cl, x, backward) && Nearly(cl, G.members, x, SRate(G, backward), backward)
    ensures Rooted(cl, G, backward)
  {
    GroupZero(cl, G, backward);
    hide SRate, Nearly, Tight, Rel, GroupOf;
    TightWhole(cl, G.members, x, SRate(G, backward), backward);
  }

  lemma GrowEnds(cl: Cluster, g: seq<Group>, pos: nat, x: nat, backward: bool)
    requires pos < |g| && PositiveWeights(cl) && GroupOf(cl, g[pos], backward) && Listing(cl, g[pos].idx)
    requires RootedBut(cl, g, pos, backward) && Growing(cl, g, pos, x, backward)
    ensures RootedBut(cl, g, |g|, backward)
  {
    hide SRate, Nearly, Rooted, Rel, GroupOf, NotOn, Listing;
    RootedNow(cl, g[pos], x, backward);
  }

  lemma GroupZero(cl: Cluster, G: Group, backward: bool)
    requires PositiveWeights(cl) && GroupOf(cl, G, backward) && Listing(cl, G.idx)
    ensures G.weight > 0 && Gain(cl, G.members, Rate(G.fee, G.weight)) == 0.0 && Signed(cl, G.members, SRate(G, backward), backward) == 0.0
  {
    GroupRate(cl, G, backward);
    var r := Rate(G.fee, G.weight);
    ListingGain(cl, G.idx, r);
    WorthSign(G.fee, G.weight, r);
    assert -(-r) == r;
  }

  /** The groups while the one at pos is being moved. */
  ghost predicate Going(cl: Cluster, lin: seq<int>, g: seq<Group>, pos: nat, x: nat, backward: bool) {
    && (PositiveWeights(cl) && (backward ==> Transposed(cl)) ==> Ordered(g, pos, backward) && Whole(cl, g))
    && (Special(cl, lin, backward) ==> RootedBut(cl, g, pos, backward) && Growing(cl, g, pos, x, backward))
  }

  /** The groups when none is. */
  ghost predicate AtRest(cl: Cluster, lin: seq<int>, g: seq<Group>, backward: bool) {
    && (PositiveWeights(cl) && (backward ==> Transposed(cl)) ==> Ordered(g, |g|, backward) && Whole(cl, g))
    && (Special(cl, lin, backward) ==> RootedBut(cl, g, |g|, backward))
  }

  lemma RestStarts(cl: Cluster, lin: seq<int>, backward: bool)
    ensures AtRest(cl, lin, [], backward)
  {
  }

  /** What was taken up before x does not lead back to it. */
  lemma TakenBefore(cl: Cluster, lin: seq<int>, step: nat, g: seq<Group>, backward: bool, x: nat, i: nat, r: nat)
    requires Passing(cl, lin, step, g, backward) && Topological(cl, lin) && Transposed(cl) && step < |lin|
    requires x == (if backward then lin[|lin| - 1 - step] else lin[step]) && i < |g| && r in g[i].members
    ensures x !in Rel(cl, r, backward)
  {
    hide Flat, DualAtLeast, Solid, Rev, Topological;
    assert GroupOf(cl, g[i], backward);
    FlatHas(g, i, r);
    var f, n := Flat(g), |lin|;
    hide Improves;
    if backward {
      RevMembers(f);
      NotLaterDown(cl, lin, n - step, Rev(f), r);
    } else {
      NotLaterUp(cl, lin, step, f, r);
    }
  }

  lemma NotLaterUp(cl: Cluster, lin: seq<int>, step: nat, f: seq<int>, r: nat)
    requires Topological(cl, lin) && step < |lin| && Listing(cl, f + lin[step..]) && r in Members(f)
    ensures lin[step] !in Rel(cl, r, false)
  {
    ListingParts(cl, f, lin[step..]);
    PermutationFacts(cl, lin);
    var k := PlaceOf(lin, r, step);
    NotEarlier(cl, lin, k, step);
  }

  lemma NotLaterDown(cl: Cluster, lin: seq<int>, left: nat, f: seq<int>, r: nat)
    requires Topological(cl, lin) && Transposed(cl) && 0 < left <= |lin| && Listing(cl, lin[..left] + f) && r in Members(f)
    ensures lin[left - 1] !in Rel(cl, r, true)
  {
    hide Topological, Listing, Transposed, Rel, Permutation;
    ListingParts(cl, lin[..left], f);
    ListedRange(cl, lin[..left], f, r);
    TopologicalFacts(cl, lin);
    PermutationFacts(cl, lin);
    var k := PlaceOf(lin, r, left);
    NotEarlier(cl, lin, left - 1, k);
    RelTurns(cl);
    RelWithin(cl, lin[left - 1]);
  }

  lemma RelWithin(cl: Cluster, x: nat)
    requires x < |cl.m|
    ensures Rel(cl, x, false) <= cl.m[x].ancestors
  {
  }

  lemma GoingStarts(cl: Cluster, lin: seq<int>, step: nat, g: seq<Group>, backward: bool, x: nat)
    requires Passing(cl, lin, step, g, backward) && step < |lin| && x < |cl.m| && AtRest(cl, lin, g, backward)
    requires x == if backward then lin[|lin| - 1 - step] else lin[step]
    ensures Going(cl, lin, g + [NewGroup(cl, x)], |g|, x, backward)
  {
    hide Passing, SRate, Connected, Rooted, Nearly, Rel, AtMostOneChild, AtMostOneParent;
    var G := NewGroup(cl, x);
    ConnectedOne(cl, x);
    if Special(cl, lin, backward) {
      RelOrder(cl, backward);
      NearlyOne(cl, x, SRate(G, backward), backward);
      if |g| > 0 { NearlyOne(cl, x, SRate(g[|g| - 1], backward), backward); }
      forall i: nat, r | i < |g| && r in g[i].members ensures x !in Rel(cl, r, backward) {
        TakenBefore(cl, lin, step, g, backward, x, i, r);
      }
    }
  }

  lemma GoingMerges(cl: Cluster, lin: seq<int>, step: nat, g: seq<Group>, pos: nat, x: nat, backward: bool)
    requires Passing(cl, lin, step, g, backward) && Going(cl, lin, g, pos, x, backward) && 0 < pos < |g| && InRange(cl, g[pos].idx)
    requires OutOfOrder(g[pos - 1], g[pos], backward) && Depends(cl, g[pos - 1], g[pos], backward)
    ensures Going(cl, lin, MergedAt(g, pos), pos - 1, x, backward)
  {
    FlatListing(cl, lin, step, g, backward);
    Neighbours(cl, g, pos, backward);
    assert GroupOf(cl, g[pos - 1], backward) && GroupOf(cl, g[pos], backward);
    hide Flat, Improves, GroupOf, OutOfOrder, Depends, SRate, Growing, RootedBut, AtMostOneChild, AtMostOneParent, MergedAt, Merged, Ordered, Whole, Transposed,
      Acyclic, Topological, PartialOrder, OneNext;
    if PositiveWeights(cl) && (backward ==> Transposed(cl)) {
      RatesAre(cl, g[pos - 1], g[pos], backward);
      OrderedMerges(g, pos, backward);
      WholeMerges(cl, g, pos, backward);
    }
    if Special(cl, lin, backward) {
      RelOrder(cl, backward);
      OneNextIs(cl, backward);
      GrowMerges(cl, g, pos, x, backward);
    }
  }

  lemma GoingSwaps(cl: Cluster, lin: seq<int>, step: nat, g: seq<Group>, pos: nat, x: nat, backward: bool)
    requires Passing(cl, lin, step, g, backward) && Going(cl, lin, g, pos, x, backward) && 0 < pos < |g|
    requires OutOfOrder(g[pos - 1], g[pos], backward)
    ensures Going(cl, lin, Swapped(g, pos), pos - 1, x, backward)
  {
    assert GroupOf(cl, g[pos - 1], backward) && GroupOf(cl, g[pos], backward);
    hide Flat, Improves, GroupOf, OutOfOrder, SRate, Growing, RootedBut, AtMostOneChild, AtMostOneParent, Ordered, Whole, Swapped,
      Topological, Acyclic, Transposed;
    if PositiveWeights(cl) && (backward ==> Transposed(cl)) {
      RatesAre(cl, g[pos - 1], g[pos], backward);
      OrderedSwaps(g, pos, backward);
      WholeSwaps(cl, g, pos);
    }
    if Special(cl, lin, backward) { GrowSwaps(cl, g, pos, x, backward); }
  }

  lemma GoingEnds(cl: Cluster, lin: seq<int>, step: nat, g: seq<Group>, pos: nat, x: nat, backward: bool)
    requires Passing(cl, lin, step, g, backward) && Going(cl, lin, g, pos, x, backward) && pos < |g|
    requires pos > 0 ==> !OutOfOrder(g[pos - 1], g[pos], backward)
    ensures AtRest(cl, lin, g, backward)
  {
    FlatListing(cl, lin, step, g, backward);
    Neighbours(cl, g, pos, backward);
    assert GroupOf(cl, g[pos], backward) && (pos > 0 ==> GroupOf(cl, g[pos - 1], backward));
    hide Flat, Improves, GroupOf, OutOfOrder, SRate, Growing, RootedBut, AtMostOneChild, AtMostOneParent, Ordered, Whole;
    if PositiveWeights(cl) && (backward ==> Transposed(cl)) {
      if pos > 0 { RatesAre(cl, g[pos - 1], g[pos], backward); }
      OrderedEnds(g, pos, backward);
    }
    if Special(cl, lin, backward) { GrowEnds(cl, g, pos, x, backward); }
  }

  /** The groups' runs, as they stand in the linearization. */
  ghost function RunsOf(g: seq<Group>, backward: bool): (r: seq<seq<int>>)
    ensures |r| == |g|
  {
    if |g| == 0 then []
    else if backward then RunsOf(g[1..], true) + [Rev(g[0].idx)]
    else [g[0].idx] + RunsOf(g[1..], false)
  }

  lemma {:induction false} RunIs(g: seq<Group>, backward: bool, i: nat)
    requires i < |g|
    ensures RunsOf(g, backward)[i] == View(g[if backward then |g| - 1 - i else i].idx, backward)
  {
    hide Rev;
    if backward {
      if i < |g| - 1 { RunIs(g[1..], true, i); }
    } else {
      if i > 0 { RunIs(g[1..], false, i - 1); }
    }
  }

  lemma {:induction false} RunsJoin(g: seq<Group>, backward: bool)
    ensures Join(RunsOf(g, backward)) == View(Flat(g), backward)
  {
    hide Join;
    if |g| == 0 {
      JoinNone();
      assert Rev([]) == [];
    } else {
      var r := RunsOf(g[1..], backward);
      RunsJoin(g[1..], backward);
      if backward {
        JoinSnoc(r, Rev(g[0].idx));
        RevConcat(g[0].idx, Flat(g[1..]));
      } else {
        JoinFirst(g[0].idx, r);
      }
    }
  }

  lemma JoinNone()
    ensures Join<int>([]) == []
  {
  }

  lemma JoinFirst(a: seq<int>, r: seq<seq<int>>)
    ensures Join([a] + r) == a + Join(r)
  {
    assert ([a] + r)[1..] == r;
  }

  lemma RunOf(cl: Cluster, G: Group, backward: bool)
    requires PositiveWeights(cl) && GroupOf(cl, G, backward)
    ensures SolidRun(cl, View(G.idx, backward)) && Members(View(G.idx, backward)) == G.members && G.weight > 0
    ensures RunRate(cl, View(G.idx, backward)) == Rate(G.fee, G.weight)
  {
    GroupRate(cl, G, backward);
    RevMembers(G.idx);
  }

  lemma RunAt(cl: Cluster, g: seq<Group>, i: nat, backward: bool)
    requires PositiveWeights(cl) && Groups(cl, g, backward) && i < |g|
    ensures SolidRun(cl, RunsOf(g, backward)[i])
    ensures RunRate(cl, RunsOf(g, backward)[i]) == if backward then -SRate(g[|g| - 1 - i], true) else SRate(g[i], false)
  {
    hide GroupOf, SolidRun, RunRate, View, RunsOf;
    RunIs(g, backward, i);
    RunOf(cl, g[if backward then |g| - 1 - i else i], backward);
  }

  lemma RunsFall(cl: Cluster, g: seq<Group>, backward: bool)
    requires PositiveWeights(cl) && Groups(cl, g, backward) && Ordered(g, |g|, backward)
    ensures FallingRuns(cl, RunsOf(g, backward))
  {
    hide GroupOf, SolidRun, RunRate, View, SRate, RunsOf;
    var r := RunsOf(g, backward);
    forall i: nat | i < |r| ensures SolidRun(cl, r[i]) { RunAt(cl, g, i, backward); }
    forall i: nat, j: nat | i < j < |r| ensures RunRate(cl, r[i]) >= RunRate(cl, r[j]) {
      RunAt(cl, g, i, backward); RunAt(cl, g, j, backward);
      if backward {
        assert SRate(g[|g| - 1 - j], true) >= SRate(g[|g| - 1 - i], true);
      } else {
        assert SRate(g[i], false) >= SRate(g[j], false);
      }
    }
  }

  lemma {:induction false} RootedRun(cl: Cluster, g: seq<Group>, i: nat, backward: bool)
    requires PositiveWeights(cl) && Transposed(cl) && Groups(cl, g, backward) && Listing(cl, Flat(g)) && i < |g| && Rooted(cl, g[i], backward)
    ensures TightRun(cl, View(g[i].idx, backward))
  {
    hide Flat, Tight, SolidRun, RunRate, View;
    var G := g[i];
    assert GroupOf(cl, G, backward);
    Neighbours(cl, g, i, backward);
    GroupZero(cl, G, backward);
    RunOf(cl, G, backward);
    assert G.members <= Sums.Below(|cl.m|);
    if backward { TightTurns(cl, G.members, Rate(G.fee, G.weight)); }
  }
}
