/** The last member of an order, on the way back: it gets as far up as its ancestors let it, so a leaf can be replaced without loss. */
module LastMember {
  import opened Clusters
  import opened Feerates
  import opened Diagrams
  import opened Chunking
  import opened DiagramOrder
  import opened TightRuns
  import opened Passes
  import opened GroupOrder

  /** No member from place j on, but the last, is an ancestor of the last. */
  ghost predicate Loose(cl: Cluster, lin: seq<int>, j: nat) {
    |lin| > 0 && forall i: nat :: j <= i < |lin| - 1 && 0 <= lin[|lin| - 1] < |cl.m| ==> lin[i] !in cl.m[lin[|lin| - 1]].ancestors
  }

  /** The order with its last member moved up to place j. */
  ghost function MovedTo(lin: seq<int>, j: nat): seq<int>
    requires j < |lin|
  {
    lin[..j] + [lin[|lin| - 1]] + lin[j..|lin| - 1]
  }

  /** As good as lin with its last member moved up to any place that its ancestors allow. */
  ghost predicate LastMoved(cl: Cluster, lin: seq<int>, order: seq<int>)
    requires InRange(cl, order)
  {
    forall j: nat :: j < |lin| && Loose(cl, lin, j) ==> InRange(cl, MovedTo(lin, j)) && DualAtLeast(Items(cl, order), Items(cl, MovedTo(lin, j)))
  }

  /** A group other than the one at pos is the last member alone. */
  ghost predicate Alone(g: seq<Group>, pos: nat, last: int) {
    exists q: nat :: q < |g| && q != pos && g[q].idx == [last]
  }

  /** The way back has taken up the last member and none of its ancestors: it has a group to itself. */
  ghost predicate Solo(cl: Cluster, lin: seq<int>, step: nat, g: seq<Group>, pos: nat, backward: bool) {
    backward && Transposed(cl) && 0 < step <= |lin| && Loose(cl, lin, |lin| - step) ==>
      if step == 1 then |g| == 1 && g[0].idx == [lin[|lin| - 1]] else Alone(g, pos, lin[|lin| - 1])
  }

  lemma SoloStarts(cl: Cluster, lin: seq<int>, step: nat, g: seq<Group>, backward: bool, x: nat)
    requires step < |lin| && x < |cl.m| && Solo(cl, lin, step, g, |g|, backward) && (step == 0 ==> g == [])
    requires x == if backward then lin[|lin| - 1 - step] else lin[step]
    ensures Solo(cl, lin, step + 1, g + [NewGroup(cl, x)], |g|, backward)
  {
    var h := g + [NewGroup(cl, x)];
    if backward && Transposed(cl) && step > 0 && Loose(cl, lin, |lin| - (step + 1)) {
      assert Loose(cl, lin, |lin| - step);
      if step == 1 {
        assert h[0].idx == [lin[|lin| - 1]];
      } else {
        var q: nat :| q < |g| && g[q].idx == [lin[|lin| - 1]];
        assert h[q].idx == [lin[|lin| - 1]];
      }
    }
  }

  /** What a group holds was taken up. */
  lemma TakenPlace(cl: Cluster, lin: seq<int>, step: nat, g: seq<Group>, i: nat, r: nat) returns (k: nat)
    requires Passing(cl, lin, step, g, true) && i < |g| && r in g[i].members
    ensures |lin| - step <= k < |lin| && lin[k] == r
  {
    hide Flat, DualAtLeast, Solid, Rev;
    assert GroupOf(cl, g[i], true);
    FlatHas(g, i, r);
    var f := Flat(g);
    RevMembers(f);
    assert r in Members(Rev(f));
    hide Listing;
    ListingParts(cl, lin[..|lin| - step], Rev(f));
    ListedRange(cl, lin[..|lin| - step], Rev(f), r);
    PermutationFacts(cl, lin);
    k := PlaceOf(lin, r, |lin| - step);
  }

  /** The last member's group is not merged into another while its ancestors are not taken up. */
  lemma NotJoined(cl: Cluster, lin: seq<int>, step: nat, g: seq<Group>, pos: nat)
    requires Passing(cl, lin, step, g, true) && 0 < pos < |g| && step <= |lin| && Transposed(cl) && Loose(cl, lin, |lin| - step)
    requires InRange(cl, g[pos].idx) && Depends(cl, g[pos - 1], g[pos], true) && g[pos - 1].members !! g[pos].members
    ensures g[pos - 1].idx != [lin[|lin| - 1]]
  {
    hide Improves, Flat, DualAtLeast, Solid, Full;
    assert GroupOf(cl, g[pos - 1], true) && GroupOf(cl, g[pos], true);
    var x, y := LinkBetween(cl, g[pos - 1], g[pos], true);
    var k := TakenPlace(cl, lin, step, g, pos, y);
    assert y != x && y in cl.m[x].ancestors;
  }

  lemma SoloMerges(cl: Cluster, lin: seq<int>, step: nat, g: seq<Group>, pos: nat, backward: bool)
    requires Passing(cl, lin, step, g, backward) && 0 < pos < |g| && InRange(cl, g[pos].idx) && Solo(cl, lin, step, g, pos, backward)
    requires Depends(cl, g[pos - 1], g[pos], backward)
    ensures Solo(cl, lin, step, MergedAt(g, pos), pos - 1, backward)
  {
    FlatListing(cl, lin, step, g, backward);
    Neighbours(cl, g, pos, backward);
    hide Passing, Depends, Transposed, Loose, Flat, Listing, InRange;
    if backward && Transposed(cl) && 0 < step <= |lin| && Loose(cl, lin, |lin| - step) {
      NotJoined(cl, lin, step, g, pos);
      AloneMerges(g, pos, lin[|lin| - 1]);
    }
  }

  lemma AloneMerges(g: seq<Group>, pos: nat, last: int)
    requires 0 < pos < |g| && Alone(g, pos, last) && g[pos - 1].idx != [last]
    ensures Alone(MergedAt(g, pos), pos - 1, last)
  {
    hide Merged;
    var q: nat :| q < |g| && q != pos && g[q].idx == [last];
    var h := MergedAt(g, pos);
    var t := if q < pos then q else q - 1;
    assert h[t] == g[q];
  }

  lemma SoloSwaps(cl: Cluster, lin: seq<int>, step: nat, g: seq<Group>, pos: nat, backward: bool)
    requires 0 < pos < |g| && Solo(cl, lin, step, g, pos, backward)
    ensures Solo(cl, lin, step, Swapped(g, pos), pos - 1, backward)
  {
    hide Transposed, Loose;
    if backward && Transposed(cl) && 1 < step <= |lin| && Loose(cl, lin, |lin| - step) {
      var q: nat :| q < |g| && q != pos && g[q].idx == [lin[|lin| - 1]];
      assert Swapped(g, pos)[if q == pos - 1 then pos else q].idx == [lin[|lin| - 1]];
    }
  }

  lemma SoloEnds(cl: Cluster, lin: seq<int>, step: nat, g: seq<Group>, pos: nat, backward: bool)
    requires pos < |g| && Solo(cl, lin, step, g, pos, backward)
    ensures Solo(cl, lin, step, g, |g|, backward)
  {
    hide Transposed, Loose;
  }

  /** The order so far is as good as any with the last member moved up, among those taken up, as far as its ancestors allow. */
  ghost predicate Lifts(cl: Cluster, lin: seq<int>, step: nat, order: seq<int>, backward: bool) {
    backward && Transposed(cl) && PositiveWeights(cl) && 0 < step <= |lin| && InRange(cl, lin) && InRange(cl, order) ==>
      forall slope: real, j: nat :: slope >= 0.0 && |lin| - step <= j < |lin| && Loose(cl, lin, j) ==> LiftedTo(cl, lin, order, slope, j)
  }

  /** At this slope the order does as well as the first j of lin and its last member. */
  ghost predicate LiftedTo(cl: Cluster, lin: seq<int>, order: seq<int>, slope: real, j: nat)
    requires j < |lin| && InRange(cl, lin) && InRange(cl, order)
  {
    Matched(Items(cl, order), slope, ListWorth(Items(cl, lin[..j] + [lin[|lin| - 1]]), slope))
  }

  lemma LiftsOn(cl: Cluster, lin: seq<int>, step: nat, a: seq<int>, b: seq<int>, backward: bool)
    requires Lifts(cl, lin, step, a, backward) && Improves(cl, a, b)
    ensures Lifts(cl, lin, step, b, backward)
  {
    hide Loose, Transposed;
    if backward && Transposed(cl) && PositiveWeights(cl) && 0 < step <= |lin| && InRange(cl, lin) {
      forall slope: real, j: nat | slope >= 0.0 && |lin| - step <= j < |lin| && Loose(cl, lin, j) ensures LiftedTo(cl, lin, b, slope, j) {
        var w := ListWorth(Items(cl, lin[..j] + [lin[|lin| - 1]]), slope);
        assert LiftedTo(cl, lin, a, slope, j);
        var k: nat :| k <= |a| && ListWorth(Items(cl, a)[..k], slope) >= w;
        assert Matched(Items(cl, b), slope, ListWorth(Items(cl, a)[..k], slope));
      }
    }
  }

  /** Groups that pay at least the slope are worth having. */
  lemma {:induction false} FlatWorth(cl: Cluster, g: seq<Group>, slope: real)
    requires PositiveWeights(cl) && Groups(cl, g, true) && forall i: nat :: i < |g| ==> -SRate(g[i], true) >= slope
    ensures InRange(cl, Flat(g)) && ListWorth(Items(cl, Flat(g)), slope) >= 0.0
  {
    hide Solid;
    if |g| == 0 {
      assert Items(cl, Flat(g)) == [];
    } else {
      var G := g[0];
      assert GroupOf(cl, G, true) && -SRate(G, true) >= slope;
      GroupRate(cl, G, true);
      WorthSign(G.fee, G.weight, slope);
      FlatWorth(cl, g[1..], slope);
      assert Items(cl, Flat(g)) == Items(cl, G.idx) + Items(cl, Flat(g[1..]));
      WorthConcat(Items(cl, G.idx), Items(cl, Flat(g[1..])), slope);
    }
  }

  /** A last member alone in its group stands behind groups only that pay at least as much as it does. */
  lemma LiftsNext(cl: Cluster, lin: seq<int>, step: nat, g: seq<Group>, q: nat, slope: real)
    requires Groups(cl, g, true) && PositiveWeights(cl) && InRange(cl, lin) && 0 < step <= |lin| && Ordered(g, |g|, true)
    requires q < |g| && g[q].idx == [lin[|lin| - 1]] && InRange(cl, Full(lin, step, g, true))
    ensures Matched(Items(cl, Full(lin, step, g, true)), slope, ListWorth(Items(cl, lin[..|lin| - step] + [lin[|lin| - 1]]), slope))
  {
    hide Flat, Solid, SRate;
    var last, X, order := lin[|lin| - 1], lin[..|lin| - step], Full(lin, step, g, true);
    var f := Flat(g[q + 1..]);
    FullAround(lin, step, g, q);
    assert order == (X + Rev(f) + [last]) + Rev(Flat(g[..q]));
    assert GroupOf(cl, g[q], true);
    hide Full;
    SplitRange(cl, X + Rev(f) + [last], Rev(Flat(g[..q])));
    SplitRange(cl, X + Rev(f), [last]);
    SplitRange(cl, X, Rev(f));
    var x, F, l := Items(cl, X), Items(cl, Rev(f)), Items(cl, [last]);
    var k := |X| + |f|;
    assert Items(cl, order)[..|X|] == x && Items(cl, order)[..k + 1] == x + F + l && Items(cl, X + [last]) == x + l;
    WorthConcat(x + F, l, slope); WorthConcat(x, F, slope); WorthConcat(x, l, slope);
    LastRate(cl, g[q], slope);
    if ListWorth(l, slope) >= 0.0 {
      BeforeWorth(cl, g, q, slope);
      assert ListWorth(Items(cl, order)[..k + 1], slope) >= ListWorth(x + l, slope);
    } else {
      assert ListWorth(Items(cl, order)[..|X|], slope) >= ListWorth(x + l, slope);
    }
  }

  lemma SplitRange(cl: Cluster, a: seq<int>, b: seq<int>)
    requires InRange(cl, a + b)
    ensures InRange(cl, a) && InRange(cl, b) && Items(cl, a + b) == Items(cl, a) + Items(cl, b)
  {
    forall i: nat | i < |a| ensures (a + b)[i] == a[i] { }
    forall i: nat | i < |b| ensures (a + b)[|a| + i] == b[i] { }
  }

  lemma FullAround(lin: seq<int>, step: nat, g: seq<Group>, q: nat)
    requires step <= |lin| && q < |g| && |g[q].idx| == 1
    ensures Full(lin, step, g, true) == (lin[..|lin| - step] + Rev(Flat(g[q + 1..])) + g[q].idx) + Rev(Flat(g[..q]))
  {
    hide Flat;
    var a, x, b := Flat(g[..q]), g[q].idx, Flat(g[q + 1..]);
    assert g == g[..q] + g[q..];
    FlatConcat(g[..q], g[q..]);
    FlatHead(g, q);
    RevConcat(a, x + b);
    RevConcat(x, b);
    assert Rev(x) == x;
  }

  lemma LastRate(cl: Cluster, G: Group, slope: real)
    requires PositiveWeights(cl) && GroupOf(cl, G, true) && |G.idx| == 1
    ensures ListWorth(Items(cl, G.idx), slope) >= 0.0 <==> -SRate(G, true) >= slope
  {
    GroupRate(cl, G, true);
    WorthSign(G.fee, G.weight, slope);
  }

  lemma BeforeWorth(cl: Cluster, g: seq<Group>, q: nat, slope: real)
    requires PositiveWeights(cl) && Groups(cl, g, true) && Ordered(g, |g|, true) && q < |g| && -SRate(g[q], true) >= slope
    ensures InRange(cl, Rev(Flat(g[q + 1..]))) && ListWorth(Items(cl, Rev(Flat(g[q + 1..]))), slope) >= 0.0
  {
    hide Flat, GroupOf, SRate;
    var h := g[q + 1..];
    forall i: nat | i < |h| ensures GroupOf(cl, h[i], true) && -SRate(h[i], true) >= slope {
      assert h[i] == g[q + 1 + i];
      assert SRate(g[q], true) >= SRate(g[q + 1 + i], true);
    }
    FlatWorth(cl, h, slope);
    TotalRev(cl, Flat(h));
  }

  lemma LiftsGrow(cl: Cluster, lin: seq<int>, step: nat, g0: seq<Group>, g: seq<Group>, backward: bool)
    requires step < |lin| && Passing(cl, lin, step, g0, backward) && Passing(cl, lin, step + 1, g, backward)
    requires Lifts(cl, lin, step, Full(lin, step, g0, backward), backward) && Improves(cl, Full(lin, step, g0, backward), Full(lin, step + 1, g, backward))
    requires Solo(cl, lin, step + 1, g, |g|, backward) && AtRest(cl, lin, g, backward)
    ensures Lifts(cl, lin, step + 1, Full(lin, step + 1, g, backward), backward)
  {
    assert Groups(cl, g, backward);
    hide Flat, Full, Topological, Improves, Whole, Special, RootedBut, Ordered, Loose, Transposed, Passing, Groups, Items, ListWorth, Matched;
    var order := Full(lin, step + 1, g, backward);
    LiftsOn(cl, lin, step, Full(lin, step, g0, backward), order, backward);
    if backward && Transposed(cl) && PositiveWeights(cl) && InRange(cl, lin) {
      forall slope: real, j: nat | slope >= 0.0 && |lin| - (step + 1) <= j < |lin| && Loose(cl, lin, j) && InRange(cl, order)
        ensures LiftedTo(cl, lin, order, slope, j)
      {
        if j == |lin| - (step + 1) {
          var q: nat := 0;
          if step > 0 { q :| q < |g| && g[q].idx == [lin[|lin| - 1]]; }
          LiftsNext(cl, lin, step + 1, g, q, slope);
        }
      }
    }
  }

  lemma LiftsAll(cl: Cluster, lin: seq<int>, order: seq<int>)
    requires PositiveWeights(cl) && Transposed(cl) && Improves(cl, lin, order) && Lifts(cl, lin, |lin|, order, true)
    ensures LastMoved(cl, lin, order)
  {
    hide Transposed, Topological;
    forall j: nat | j < |lin| && Loose(cl, lin, j) ensures InRange(cl, MovedTo(lin, j)) && DualAtLeast(Items(cl, order), Items(cl, MovedTo(lin, j))) {
      var b, last := MovedTo(lin, j), lin[|lin| - 1];
      forall i: nat | i < |b| ensures 0 <= b[i] < |cl.m| {
        assert b[i] == if i < j then lin[i] else if i == j then last else lin[i - 1];
      }
      forall slope: real, i: nat | slope >= 0.0 && i <= |b| ensures Matched(Items(cl, order), slope, ListWorth(Items(cl, b)[..i], slope)) {
        if i <= j {
          assert Items(cl, b)[..i] == Items(cl, lin)[..i];
        } else {
          assert Loose(cl, lin, i - 1);
          assert LiftedTo(cl, lin, order, slope, i - 1);
          MovedPrefix(cl, lin, j, i, slope);
        }
      }
    }
  }

  /** As a set, a front of the moved order is a front of the old one and the last member. */
  lemma MovedPrefix(cl: Cluster, lin: seq<int>, j: nat, i: nat, slope: real)
    requires j < i <= |lin| && InRange(cl, lin) && InRange(cl, MovedTo(lin, j))
    ensures ListWorth(Items(cl, MovedTo(lin, j))[..i], slope) == ListWorth(Items(cl, lin[..i - 1] + [lin[|lin| - 1]]), slope)
  {
    var A, B, last := lin[..j], lin[j..i - 1], [lin[|lin| - 1]];
    var a, b, l := Items(cl, A), Items(cl, B), Items(cl, last);
    assert Items(cl, MovedTo(lin, j))[..i] == a + l + b;
    assert lin[..i - 1] + last == A + B + last;
    assert Items(cl, A + B + last) == a + b + l;
    WorthConcat(a + l, b, slope); WorthConcat(a, l, slope);
    WorthConcat(a + b, l, slope); WorthConcat(a, b, slope);
  }

  lemma LiftsEnd(cl: Cluster, lin: seq<int>, g: seq<Group>)
    requires Passing(cl, lin, |lin|, g, true) && PositiveWeights(cl) && Transposed(cl) && Lifts(cl, lin, |lin|, Full(lin, |lin|, g, true), true)
    ensures InRange(cl, View(Flat(g), true)) && LastMoved(cl, lin, View(Flat(g), true))
  {
    hide Flat, LastMoved, Lifts;
    PassEnds(cl, lin, g, true);
    assert lin[..0] + Rev(Flat(g)) == Rev(Flat(g));
    LiftsAll(cl, lin, Rev(Flat(g)));
  }

  lemma LiftsStart(cl: Cluster, lin: seq<int>, backward: bool)
    ensures Solo(cl, lin, 0, [], 0, backward) && Lifts(cl, lin, 0, Full(lin, 0, [], backward), backward)
  {
  }

  lemma LastMovedOn(cl: Cluster, a: seq<int>, b: seq<int>, c: seq<int>)
    requires InRange(cl, a) && InRange(cl, b) && InRange(cl, c) && LastMoved(cl, a, b) && DualAtLeast(Items(cl, c), Items(cl, b))
    ensures LastMoved(cl, a, c)
  {
    hide DualAtLeast;
    forall j: nat | j < |a| && Loose(cl, a, j) ensures InRange(cl, MovedTo(a, j)) && DualAtLeast(Items(cl, c), Items(cl, MovedTo(a, j))) {
      DualTrans(Items(cl, c), Items(cl, b), Items(cl, MovedTo(a, j)));
    }
  }

  /** Replacing a leaf by one of the same weight that pays at least as much, put last, never makes the outcome worse than the
      order it was in: `order` stands for what the two passes make of lin with its place p moved to the end. */
  lemma ReplacedLeaf(cl: Cluster, paid: Cluster, lin: seq<int>, p: nat, order: seq<int>)
    requires Permutation(cl, lin) && p < |lin| && Raised(cl, paid, lin[p]) && InRange(paid, order)
    requires Loose(paid, MovedLast(lin, p), p) && LastMoved(paid, MovedLast(lin, p), order)
    ensures InRange(cl, lin) && DualAtLeast(Items(paid, order), Items(cl, lin))
  {
    var a := MovedLast(lin, p);
    assert MovedTo(a, p) == lin;
    assert DualAtLeast(Items(paid, order), Items(paid, lin));
    RaisedItems(cl, paid, lin, lin[p]);
    DualTrans(Items(paid, order), Items(paid, lin), Items(cl, lin));
  }

  /** An order with place p moved to the end. */
  ghost function MovedLast(lin: seq<int>, p: nat): seq<int>
    requires p < |lin|
  {
    lin[..p] + lin[p + 1..] + [lin[p]]
  }

  /** The same cluster, but for a fee that is no lower. */
  ghost predicate Raised(cl: Cluster, paid: Cluster, x: nat) {
    && x < |cl.m| == |paid.m| && paid.m[x].weight == cl.m[x].weight && paid.m[x].fee >= cl.m[x].fee
    && forall i: nat :: i < |cl.m| && i != x ==> paid.m[i].fee == cl.m[i].fee && paid.m[i].weight == cl.m[i].weight
  }

  lemma RaisedItems(cl: Cluster, paid: Cluster, xs: seq<int>, x: nat)
    requires InRange(cl, xs) && Raised(cl, paid, x)
    ensures InRange(paid, xs) && DualAtLeast(Items(paid, xs), Items(cl, xs))
  {
    var a, b := Items(paid, xs), Items(cl, xs);
    forall slope: real, j: nat | slope >= 0.0 && j <= |b| ensures Matched(a, slope, ListWorth(b[..j], slope)) {
      MorePaid(a[..j], b[..j]);
      assert ListWorth(a[..j], slope) >= ListWorth(b[..j], slope);
    }
  }

  lemma {:induction false} MorePaid(a: seq<FeeFrac>, b: seq<FeeFrac>)
    requires |a| == |b| && forall i: nat :: i < |a| ==> a[i].size == b[i].size && a[i].fee >= b[i].fee
    ensures TotalSize(a) == TotalSize(b) && TotalFee(a) >= TotalFee(b)
  {
    if |a| > 0 { MorePaid(a[1..], b[1..]); }
  }
}
