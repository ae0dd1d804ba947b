/** A pass over a linearization under way: groups of its members, merged and swapped, neither of which ever lowers the feerate diagram. */
module Passes {
  import opened Clusters
  import opened Feerates
  import opened Diagrams
  import opened Chunking
  import opened DiagramOrder
  import opened TightRuns

  /** Order b is what a pass may make of order a: still a linearization, and a
      diagram nowhere lower. */
  ghost predicate Improves(cl: Cluster, a: seq<int>, b: seq<int>) {
    && Permutation(cl, a) && Permutation(cl, b) && InRange(cl, a) && InRange(cl, b)
    && (Topological(cl, a) && Transposed(cl) ==> Topological(cl, b))
    && (PositiveWeights(cl) ==> DualAtLeast(Items(cl, b), Items(cl, a)))
  }

  lemma ImprovesRefl(cl: Cluster, a: seq<int>)
    requires Permutation(cl, a)
    ensures Improves(cl, a, a)
  {
    var d := Items(cl, a);
    forall slope: real, j: nat | slope >= 0.0 && j <= |d|
      ensures Matched(d, slope, ListWorth(d[..j], slope))
    {
      assert ListWorth(d[..j], slope) >= ListWorth(d[..j], slope);
    }
  }

  lemma ImprovesTrans(cl: Cluster, a: seq<int>, b: seq<int>, c: seq<int>)
    requires Improves(cl, a, b) && Improves(cl, b, c)
    ensures Improves(cl, a, c)
  {
    if PositiveWeights(cl) { DualTrans(Items(cl, c), Items(cl, b), Items(cl, a)); }
  }

  /** Exchanging two adjacent solid runs so that the better one leads loses no
      prefix at any slope. */
  lemma SwapMatches(X: seq<FeeFrac>, lo: seq<FeeFrac>, hi: seq<FeeFrac>, Y: seq<FeeFrac>, slope: real, j: nat)
    requires Solid(lo) && Solid(hi) && ListRate(lo) < ListRate(hi) && j <= |X| + |lo| + |hi| + |Y|
    ensures Matched(X + hi + lo + Y, slope, ListWorth((X + lo + hi + Y)[..j], slope))
  {
    var a, b := X + lo + hi + Y, X + hi + lo + Y;
    var x, l, h := ListWorth(X, slope), ListWorth(lo, slope), ListWorth(hi, slope);
    WorthConcat(X, hi, slope);
    WorthConcat(X + hi, lo, slope);
    assert b[..|X|] == X && b[..|X| + |hi| + |lo|] == X + hi + lo;
    ListSign(lo, slope);
    ListSign(hi, slope);
    assert Matched(b, slope, x) && Matched(b, slope, x + l + h) by {
      assert ListWorth(b[..|X|], slope) >= x;
      assert ListWorth(b[..|X| + |hi| + |lo|], slope) >= x + l + h;
    }
    if j <= |X| {
      assert a[..j] == b[..j];
      assert ListWorth(b[..j], slope) >= ListWorth(a[..j], slope);
    } else if j <= |X| + |lo| {
      var m := lo[..j - |X|];
      assert a[..j] == X + m;
      WorthConcat(X, m, slope);
      SolidCapped(lo, j - |X|, slope);
      Either(b, slope, ListWorth(a[..j], slope), x, x + l + h);
    } else if j <= |X| + |lo| + |hi| {
      var m := hi[..j - |X| - |lo|];
      assert a[..j] == X + lo + m;
      WorthConcat(X, lo, slope);
      WorthConcat(X + lo, m, slope);
      SolidCapped(hi, j - |X| - |lo|, slope);
      Either(b, slope, ListWorth(a[..j], slope), x, x + l + h);
    } else {
      var m := Y[..j - |X| - |lo| - |hi|];
      assert a[..j] == X + lo + hi + m && b[..j] == X + hi + lo + m;
      WorthConcat(X, lo, slope);
      WorthConcat(X + lo, hi, slope);
      WorthConcat(X + lo + hi, m, slope);
      WorthConcat(X + hi + lo, m, slope);
      assert ListWorth(b[..j], slope) >= ListWorth(a[..j], slope);
    }
  }

  lemma Either(b: seq<FeeFrac>, slope: real, w: real, u: real, v: real)
    requires Matched(b, slope, u) && Matched(b, slope, v) && (w <= u || w <= v)
    ensures Matched(b, slope, w)
  {
    if w <= u {
      var k: nat :| k <= |b| && ListWorth(b[..k], slope) >= u;
      assert ListWorth(b[..k], slope) >= w;
    } else {
      var k: nat :| k <= |b| && ListWorth(b[..k], slope) >= v;
      assert ListWorth(b[..k], slope) >= w;
    }
  }

  /** Exchanging two adjacent runs keeps parents first when nothing in the second
      run has an ancestor in the first. */
  lemma SwapTopological(cl: Cluster, X: seq<int>, lo: seq<int>, hi: seq<int>, Y: seq<int>)
    requires ParentsFirst(cl, X + lo + hi + Y) && Listing(cl, X + hi + lo + Y)
    requires forall i: nat :: i < |hi| && hi[i] < |cl.m| ==> hi[i] >= 0 && cl.m[hi[i]].ancestors !! Members(lo)
    ensures ParentsFirst(cl, X + hi + lo + Y)
  {
    var a, b := X + lo + hi + Y, X + hi + lo + Y;
    forall i: nat | i < |b|
      ensures cl.m[b[i]].ancestors - {b[i]} <= Members(b[..i])
    {
      if i < |X| {
        assert b[..i] == a[..i] && b[i] == a[i];
      } else if i < |X| + |hi| {
        var k := i - |X|;
        assert a[..i + |lo|] == X + lo + hi[..k] && b[..i] == X + hi[..k] && a[i + |lo|] == b[i] == hi[k];
        assert Members(X + lo + hi[..k]) == Members(X) + Members(lo) + Members(hi[..k]);
        assert Members(X + hi[..k]) == Members(X) + Members(hi[..k]);
      } else if i < |X| + |hi| + |lo| {
        var k := i - |X| - |hi|;
        assert a[..|X| + k] == X + lo[..k] && b[..i] == X + hi + lo[..k] && a[|X| + k] == b[i];
        assert Members(X + lo[..k]) <= Members(X + hi + lo[..k]);
      } else {
        var k := i - |X| - |hi| - |lo|;
        assert a[..i] == X + lo + hi + Y[..k] && b[..i] == X + hi + lo + Y[..k] && a[i] == b[i];
        assert Members(a[..i]) == Members(b[..i]);
      }
    }
  }

  lemma SwapListing(cl: Cluster, X: seq<int>, lo: seq<int>, hi: seq<int>, Y: seq<int>)
    requires Listing(cl, X + lo + hi + Y)
    ensures Listing(cl, X + hi + lo + Y)
  {
    var a, b := X + lo + hi + Y, X + hi + lo + Y;
    forall i: nat | i < |b|
      ensures From(|X|, |lo|, |hi|, i) < |a| && b[i] == a[From(|X|, |lo|, |hi|, i)]
    {
    }
    forall i: nat, j: nat | i < j < |b|
      ensures b[i] != b[j]
    {
      var u, v := From(|X|, |lo|, |hi|, i), From(|X|, |lo|, |hi|, j);
      assert b[i] == a[u] && b[j] == a[v] && u != v;
      assert if u < v then a[u] != a[v] else a[v] != a[u];
    }
  }

  /** Where position i of the swapped order came from. */
  function From(x: nat, lo: nat, hi: nat, i: nat): nat {
    if i < x || i >= x + lo + hi then i else if i < x + hi then i + lo else i - hi
  }

  lemma SwapImproves(cl: Cluster, X: seq<int>, lo: seq<int>, hi: seq<int>, Y: seq<int>)
    requires Permutation(cl, X + lo + hi + Y) && InRange(cl, lo) && InRange(cl, hi)
    requires Transposed(cl) ==> forall i: nat :: i < |hi| ==> cl.m[hi[i]].ancestors !! Members(lo)
    requires PositiveWeights(cl) ==> Solid(Items(cl, lo)) && Solid(Items(cl, hi)) && ListRate(Items(cl, lo)) < ListRate(Items(cl, hi))
    ensures Improves(cl, X + lo + hi + Y, X + hi + lo + Y)
  {
    var a, b := X + lo + hi + Y, X + hi + lo + Y;
    SwapListing(cl, X, lo, hi, Y);
    if Topological(cl, a) && Transposed(cl) { SwapTopological(cl, X, lo, hi, Y); }
    if PositiveWeights(cl) { SwapDual(cl, X, lo, hi, Y); }
  }

  lemma SwapDual(cl: Cluster, X: seq<int>, lo: seq<int>, hi: seq<int>, Y: seq<int>)
    requires InRange(cl, X + lo + hi + Y) && InRange(cl, X + hi + lo + Y) && InRange(cl, lo) && InRange(cl, hi)
    requires Solid(Items(cl, lo)) && Solid(Items(cl, hi)) && ListRate(Items(cl, lo)) < ListRate(Items(cl, hi))
    ensures DualAtLeast(Items(cl, X + hi + lo + Y), Items(cl, X + lo + hi + Y))
  {
    var a, b := X + lo + hi + Y, X + hi + lo + Y;
    assert InRange(cl, X) by { assert forall i: nat :: i < |X| ==> a[i] == X[i]; }
    assert InRange(cl, Y) by { assert forall i: nat :: i < |Y| ==> Y[i] == a[|X| + |lo| + |hi| + i]; }
    assert Items(cl, a) == Items(cl, X) + Items(cl, lo) + Items(cl, hi) + Items(cl, Y);
    assert Items(cl, b) == Items(cl, X) + Items(cl, hi) + Items(cl, lo) + Items(cl, Y);
    forall slope: real, j: nat | slope >= 0.0 && j <= |a|
      ensures Matched(Items(cl, b), slope, ListWorth(Items(cl, a)[..j], slope))
    {
      SwapMatches(Items(cl, X), Items(cl, lo), Items(cl, hi), Items(cl, Y), slope, j);
    }
  }

  datatype Group = Group(idx: seq<int>, members: set<nat>, fee: nat, weight: nat)

  function Rev(xs: seq<int>): (r: seq<int>)
    ensures |r| == |xs| && forall i: nat :: i < |xs| ==> r[i] == xs[|xs| - 1 - i]
  {
    seq(|xs|, i requires 0 <= i < |xs| => xs[|xs| - 1 - i])
  }

  /** A run of the pass's list, as it stands in the linearization. */
  function View(xs: seq<int>, backward: bool): seq<int> {
    if backward then Rev(xs) else xs
  }

  function Flat(g: seq<Group>): seq<int> {
    if |g| == 0 then [] else g[0].idx + Flat(g[1..])
  }

  lemma {:induction false} FlatConcat(a: seq<Group>, b: seq<Group>)
    ensures Flat(a + b) == Flat(a) + Flat(b)
  {
    if |a| == 0 {
      assert a + b == b;
    } else {
      assert (a + b)[1..] == a[1..] + b;
      FlatConcat(a[1..], b);
    }
  }

  lemma {:induction false} TotalRev(cl: Cluster, xs: seq<int>)
    requires InRange(cl, xs)
    ensures InRange(cl, Rev(xs))
    ensures TotalFee(Items(cl, Rev(xs))) == TotalFee(Items(cl, xs))
    ensures TotalSize(Items(cl, Rev(xs))) == TotalSize(Items(cl, xs))
  {
    hide TotalFee;
    hide TotalSize;
    if |xs| > 0 {
      var h, t := [xs[0]], xs[1..];
      TotalRev(cl, t);
      assert Rev(xs) == Rev(t) + h && xs == h + t;
      assert Items(cl, Rev(xs)) == Items(cl, Rev(t)) + Items(cl, h);
      assert Items(cl, xs) == Items(cl, h) + Items(cl, t);
      TotalConcat(Items(cl, Rev(t)), Items(cl, h));
      TotalConcat(Items(cl, h), Items(cl, t));
    } else {
      assert Rev(xs) == xs;
    }
  }

  ghost predicate GroupOf(cl: Cluster, g: Group, backward: bool) {
    && InRange(cl, g.idx) && |g.idx| > 0 && g.members == Members(g.idx)
    && g.fee == TotalFee(Items(cl, g.idx)) && g.weight == TotalSize(Items(cl, g.idx))
    && InRange(cl, View(g.idx, backward))
    && (PositiveWeights(cl) ==> Solid(Items(cl, View(g.idx, backward))))
  }

  ghost predicate Groups(cl: Cluster, g: seq<Group>, backward: bool) {
    forall i: nat :: i < |g| ==> GroupOf(cl, g[i], backward)
  }

  /** The whole linearization after `step` members were taken up into g. */
  ghost function Full(lin: seq<int>, step: nat, g: seq<Group>, backward: bool): seq<int>
    requires step <= |lin|
  {
    if backward then lin[..|lin| - step] + Rev(Flat(g)) else Flat(g) + lin[step..]
  }

  lemma GroupRate(cl: Cluster, g: Group, backward: bool)
    requires GroupOf(cl, g, backward) && PositiveWeights(cl)
    ensures g.weight > 0 && Rate(g.fee, g.weight) == ListRate(Items(cl, View(g.idx, backward)))
  {
    TotalRev(cl, g.idx);
    SizePositive(Items(cl, g.idx));
  }

  function NewGroup(cl: Cluster, x: nat): Group
    requires x < |cl.m|
  {
    Group([x], {x}, cl.m[x].fee, cl.m[x].weight)
  }

  lemma NewGroupOf(cl: Cluster, x: nat, backward: bool)
    requires x < |cl.m|
    ensures GroupOf(cl, NewGroup(cl, x), backward)
  {
    assert Rev([x]) == [x];
    NewChunk(cl, x);
  }

  function Merged(P: Group, C: Group): Group {
    Group(P.idx + C.idx, P.members + C.members, P.fee + C.fee, P.weight + C.weight)
  }

  /** The pass acts on P before C when C is the better one in the linearization's sense. */
  predicate OutOfOrder(P: Group, C: Group, backward: bool) {
    var cmp := FeerateCmp(P.fee, P.weight, C.fee, C.weight);
    if backward then cmp > 0 else cmp < 0
  }

  lemma MergedOf(cl: Cluster, P: Group, C: Group, backward: bool)
    requires GroupOf(cl, P, backward) && GroupOf(cl, C, backward) && OutOfOrder(P, C, backward)
    ensures GroupOf(cl, Merged(P, C), backward)
  {
    hide Solid;
    hide ListRate;
    hide TotalFee;
    hide TotalSize;
    var both := P.idx + C.idx;
    assert Items(cl, both) == Items(cl, P.idx) + Items(cl, C.idx);
    TotalConcat(Items(cl, P.idx), Items(cl, C.idx));
    TotalRev(cl, both);
    assert Members(both) == P.members + C.members;
    if PositiveWeights(cl) {
      GroupRate(cl, P, backward);
      GroupRate(cl, C, backward);
      var p, c := View(P.idx, backward), View(C.idx, backward);
      if backward {
        assert Rev(both) == c + p;
        assert Items(cl, Rev(both)) == Items(cl, c) + Items(cl, p);
        SolidMerge(Items(cl, c), Items(cl, p));
      } else {
        SolidMerge(Items(cl, p), Items(cl, c));
      }
    }
  }

  /** Does a member of C depend on P (forward), or does P depend on C (backward)? */
  predicate Depends(cl: Cluster, P: Group, C: Group, backward: bool)
    requires InRange(cl, C.idx)
  {
    exists k: nat :: k < |C.idx| &&
      !((if backward then cl.m[C.idx[k]].descendants else cl.m[C.idx[k]].ancestors) !! P.members)
  }

  lemma FlatSplit(g: seq<Group>, pos: nat)
    requires 0 < pos < |g|
    ensures Flat(g) == Flat(g[..pos - 1]) + (g[pos - 1].idx + g[pos].idx) + Flat(g[pos + 1..])
  {
    assert g == g[..pos - 1] + g[pos - 1..];
    FlatConcat(g[..pos - 1], g[pos - 1..]);
    FlatHead(g, pos - 1);
    FlatHead(g, pos);
    Assoc(Flat(g[..pos - 1]), g[pos - 1].idx, g[pos].idx, Flat(g[pos + 1..]));
  }

  lemma FlatHead(g: seq<Group>, i: nat)
    requires i < |g|
    ensures Flat(g[i..]) == g[i].idx + Flat(g[i + 1..])
  {
    assert g[i..][1..] == g[i + 1..];
  }

  lemma Assoc(a: seq<int>, b: seq<int>, c: seq<int>, d: seq<int>)
    ensures a + (b + (c + d)) == a + (b + c) + d
  {
  }

  lemma MergeKeepsOrder(g: seq<Group>, pos: nat)
    requires 0 < pos < |g|
    ensures Flat(g[..pos - 1] + [Merged(g[pos - 1], g[pos])] + g[pos + 1..]) == Flat(g)
  {
    hide Flat;
    FlatSplit(g, pos);
    Flat3(g[..pos - 1], [Merged(g[pos - 1], g[pos])], g[pos + 1..]);
    FlatOne(Merged(g[pos - 1], g[pos]));
  }

  lemma FlatOne(G: Group)
    ensures Flat([G]) == G.idx
  {
    assert [G][1..] == [];
  }

  lemma Flat3(a: seq<Group>, b: seq<Group>, c: seq<Group>)
    ensures Flat(a + b + c) == Flat(a) + Flat(b) + Flat(c)
  {
    FlatConcat(a + b, c);
    FlatConcat(a, b);
  }

  lemma RevMembers(a: seq<int>)
    ensures Members(Rev(a)) == Members(a)
  {
    forall x | x in a
      ensures x in Rev(a)
    {
      var i :| 0 <= i < |a| && a[i] == x;
      assert Rev(a)[|a| - 1 - i] == x;
    }
  }

  function Swapped(g: seq<Group>, pos: nat): (r: seq<Group>)
    requires 0 < pos < |g|
    ensures |r| == |g|
  {
    g[pos - 1 := g[pos]][pos := g[pos - 1]]
  }

  lemma RatesOrdered(cl: Cluster, P: Group, C: Group, backward: bool)
    requires GroupOf(cl, P, backward) && GroupOf(cl, C, backward) && OutOfOrder(P, C, backward)
    ensures PositiveWeights(cl) ==>
      var p, c := Items(cl, View(P.idx, backward)), Items(cl, View(C.idx, backward));
      Sized(p) && Sized(c) && (if backward then ListRate(c) < ListRate(p) else ListRate(p) < ListRate(c))
  {
    if PositiveWeights(cl) {
      GroupRate(cl, P, backward);
      GroupRate(cl, C, backward);
    }
  }

  /** A swap of groups is a swap of adjacent runs of the linearization. */
  lemma SwapGroups(cl: Cluster, lin: seq<int>, step: nat, g: seq<Group>, pos: nat, backward: bool)
    requires step <= |lin| && 0 < pos < |g| && Groups(cl, g, backward)
    requires Permutation(cl, Full(lin, step, g, backward))
    requires OutOfOrder(g[pos - 1], g[pos], backward) && !Depends(cl, g[pos - 1], g[pos], backward)
    ensures Improves(cl, Full(lin, step, g, backward), Full(lin, step, Swapped(g, pos), backward))
  {
    hide Flat;
    hide Improves;
    hide Permutation;
    hide GroupOf;
    hide Depends;
    hide Rev;
    var P, C, s := g[pos - 1], g[pos], Swapped(g, pos);
    var fa, fb := Flat(g[..pos - 1]), Flat(g[pos + 1..]);
    FlatSplit(g, pos);
    FlatSplit(s, pos);
    assert s[..pos - 1] == g[..pos - 1] && s[pos + 1..] == g[pos + 1..];
    assert GroupOf(cl, P, backward) && GroupOf(cl, C, backward);
    RatesOrdered(cl, P, C, backward);
    if backward {
      SwapBackward(cl, lin, step, fa, P, C, fb);
    } else {
      SwapForward(cl, lin, step, fa, P, C, fb);
    }
  }

  lemma SwapForward(cl: Cluster, lin: seq<int>, step: nat, fa: seq<int>, P: Group, C: Group, fb: seq<int>)
    requires step <= |lin| && GroupOf(cl, P, false) && GroupOf(cl, C, false)
    requires Permutation(cl, fa + (P.idx + C.idx) + fb + lin[step..])
    requires !Depends(cl, P, C, false)
    requires PositiveWeights(cl) ==> ListRate(Items(cl, P.idx)) < ListRate(Items(cl, C.idx))
    ensures Improves(cl, fa + (P.idx + C.idx) + fb + lin[step..], fa + (C.idx + P.idx) + fb + lin[step..])
  {
    hide Improves;
    hide Permutation;
    hide Solid;
    var Y := fb + lin[step..];
    assert fa + (P.idx + C.idx) + fb + lin[step..] == fa + P.idx + C.idx + Y;
    assert fa + (C.idx + P.idx) + fb + lin[step..] == fa + C.idx + P.idx + Y;
    SwapImproves(cl, fa, P.idx, C.idx, Y);
  }

  /** With transposed descendant sets, nothing in P has an ancestor in C. */
  lemma NoAncestor(cl: Cluster, P: Group, C: Group, x: nat)
    requires GroupOf(cl, P, true) && GroupOf(cl, C, true) && Transposed(cl) && !Depends(cl, P, C, true) && x in P.idx
    ensures x < |cl.m| && cl.m[x].ancestors !! Members(C.idx)
  {
    forall y: nat | y in Members(C.idx)
      ensures y !in cl.m[x].ancestors
    {
      var k: nat :| k < |C.idx| && C.idx[k] == y;
      assert cl.m[C.idx[k]].descendants !! P.members && x in P.members;
    }
  }

  lemma RevParts(L: seq<int>, a: seq<int>, p: seq<int>, c: seq<int>, b: seq<int>)
    ensures L + Rev(a + (p + c) + b) == L + Rev(b) + Rev(c) + Rev(p) + Rev(a)
  {
    assert Rev(a + (p + c) + b) == Rev(b) + Rev(c) + Rev(p) + Rev(a);
  }

  lemma SwapBackward(cl: Cluster, lin: seq<int>, step: nat, fa: seq<int>, P: Group, C: Group, fb: seq<int>)
    requires step <= |lin| && GroupOf(cl, P, true) && GroupOf(cl, C, true)
    requires Permutation(cl, lin[..|lin| - step] + Rev(fa + (P.idx + C.idx) + fb))
    requires !Depends(cl, P, C, true)
    requires PositiveWeights(cl) ==> ListRate(Items(cl, Rev(C.idx))) < ListRate(Items(cl, Rev(P.idx)))
    ensures Improves(cl, lin[..|lin| - step] + Rev(fa + (P.idx + C.idx) + fb), lin[..|lin| - step] + Rev(fa + (C.idx + P.idx) + fb))
  {
    hide Improves;
    hide Permutation;
    hide Solid;
    var X, lo, hi, Y := lin[..|lin| - step] + Rev(fb), Rev(C.idx), Rev(P.idx), Rev(fa);
    RevParts(lin[..|lin| - step], fa, P.idx, C.idx, fb);
    RevParts(lin[..|lin| - step], fa, C.idx, P.idx, fb);
    RevMembers(C.idx);
    if Transposed(cl) {
      forall i: nat | i < |hi|
        ensures cl.m[hi[i]].ancestors !! Members(lo)
      {
        assert hi[i] in P.idx;
        NoAncestor(cl, P, C, hi[i]);
      }
    }
    SwapImproves(cl, X, lo, hi, Y);
  }

  /** The pass under way: g holds the first `step` members it took from lin. */
  ghost predicate Passing(cl: Cluster, lin: seq<int>, step: nat, g: seq<Group>, backward: bool) {
    && step <= |lin| && Groups(cl, g, backward)
    && Improves(cl, lin, Full(lin, step, g, backward))
  }

  lemma PassStarts(cl: Cluster, lin: seq<int>, backward: bool)
    requires Permutation(cl, lin)
    ensures Passing(cl, lin, 0, [], backward)
  {
    assert Rev([]) == [];
    assert lin[..|lin|] == lin;
    assert Full(lin, 0, [], backward) == lin;
    ImprovesRefl(cl, lin);
  }

  /** Taking up the next member leaves the linearization as it is. */
  lemma PassTakes(cl: Cluster, lin: seq<int>, step: nat, g: seq<Group>, backward: bool, x: nat)
    requires Passing(cl, lin, step, g, backward) && step < |lin| && x < |cl.m|
    requires x == if backward then lin[|lin| - 1 - step] else lin[step]
    ensures Passing(cl, lin, step + 1, g + [NewGroup(cl, x)], backward)
  {
    hide Improves;
    hide Flat;
    hide GroupOf;
    var G := NewGroup(cl, x);
    NewGroupOf(cl, x, backward);
    FlatConcat(g, [G]);
    FlatOne(G);
    TakeNext(lin, step, Flat(g), x, backward);
  }

  lemma TakeNext(lin: seq<int>, step: nat, f: seq<int>, x: int, backward: bool)
    requires step < |lin| && x == if backward then lin[|lin| - 1 - step] else lin[step]
    ensures backward ==> lin[..|lin| - (step + 1)] + Rev(f + [x]) == lin[..|lin| - step] + Rev(f)
    ensures !backward ==> f + [x] + lin[step + 1..] == f + lin[step..]
  {
    if backward {
      assert lin[..|lin| - step] == lin[..|lin| - (step + 1)] + [x];
      assert Rev(f + [x]) == [x] + Rev(f);
    }
  }

  lemma PassMerges(cl: Cluster, lin: seq<int>, step: nat, g: seq<Group>, backward: bool, pos: nat)
    requires Passing(cl, lin, step, g, backward) && 0 < pos < |g| && OutOfOrder(g[pos - 1], g[pos], backward)
    ensures Passing(cl, lin, step, g[..pos - 1] + [Merged(g[pos - 1], g[pos])] + g[pos + 1..], backward)
  {
    hide Improves;
    hide Flat;
    hide GroupOf;
    MergeKeepsOrder(g, pos);
    MergedOf(cl, g[pos - 1], g[pos], backward);
  }

  lemma PassSwaps(cl: Cluster, lin: seq<int>, step: nat, g: seq<Group>, backward: bool, pos: nat)
    requires Passing(cl, lin, step, g, backward) && 0 < pos < |g|
    requires InRange(cl, g[pos].idx)
    requires OutOfOrder(g[pos - 1], g[pos], backward) && !Depends(cl, g[pos - 1], g[pos], backward)
    ensures Passing(cl, lin, step, Swapped(g, pos), backward)
  {
    assert Permutation(cl, Full(lin, step, g, backward));
    hide Improves;
    hide GroupOf;
    SwapGroups(cl, lin, step, g, pos, backward);
    ImprovesTrans(cl, lin, Full(lin, step, g, backward), Full(lin, step, Swapped(g, pos), backward));
  }

  lemma PassFacts(cl: Cluster, lin: seq<int>, step: nat, g: seq<Group>, backward: bool, pos: nat)
    requires Passing(cl, lin, step, g, backward) && pos < |g|
    ensures InRange(cl, g[pos].idx)
  {
    assert GroupOf(cl, g[pos], backward);
  }

  ghost function MergedAt(g: seq<Group>, pos: nat): seq<Group>
    requires 0 < pos < |g|
  {
    g[..pos - 1] + [Merged(g[pos - 1], g[pos])] + g[pos + 1..]
  }

  /** The groups listed one after the other name no member twice. */
  lemma FlatListing(cl: Cluster, lin: seq<int>, step: nat, g: seq<Group>, backward: bool)
    requires Passing(cl, lin, step, g, backward)
    ensures Listing(cl, Flat(g))
  {
    hide Flat;
    var f := Flat(g);
    if backward {
      ListingParts(cl, lin[..|lin| - step], Rev(f));
      ListingTurns(cl, f);
    } else {
      ListingParts(cl, f, lin[step..]);
    }
  }

  lemma ListingTurns(cl: Cluster, f: seq<int>)
    requires Listing(cl, Rev(f))
    ensures Listing(cl, f)
  {
    var r, n := Rev(f), |f|;
    forall i: nat | i < n ensures f[i] == r[n - 1 - i] { }
    forall i: nat, j: nat | i < j < n ensures f[i] != f[j] { assert r[n - 1 - j] != r[n - 1 - i]; }
  }

  /** A group lists no member twice, and neighbours share none. */
  lemma Neighbours(cl: Cluster, g: seq<Group>, pos: nat, backward: bool)
    requires Listing(cl, Flat(g)) && Groups(cl, g, backward) && pos < |g|
    ensures Listing(cl, g[pos].idx) && (pos > 0 ==> g[pos - 1].members !! g[pos].members)
  {
    hide Flat, Listing, Solid;
    assert GroupOf(cl, g[pos], backward);
    if pos > 0 {
      assert GroupOf(cl, g[pos - 1], backward);
      FlatSplit(g, pos);
      ListingParts(cl, Flat(g[..pos - 1]) + (g[pos - 1].idx + g[pos].idx), Flat(g[pos + 1..]));
      ListingParts(cl, Flat(g[..pos - 1]), g[pos - 1].idx + g[pos].idx);
      ListingParts(cl, g[pos - 1].idx, g[pos].idx);
    } else {
      FlatHead(g, 0);
      assert g[0..] == g;
      ListingParts(cl, g[0].idx, Flat(g[1..]));
    }
  }

  lemma {:induction false} FlatHas(g: seq<Group>, i: nat, r: int)
    requires i < |g| && r in g[i].idx
    ensures r in Flat(g)
    decreases i
  {
    if i > 0 { FlatHas(g[1..], i - 1, r); }
  }

  lemma PlaceOf(lin: seq<int>, r: nat, at: nat) returns (k: nat)
    requires r in Members(lin) && at <= |lin|
    ensures k < |lin| && lin[k] == r && r in if k < at then Members(lin[..at]) else Members(lin[at..])
  {
    k :| k < |lin| && lin[k] == r;
    if k < at { assert lin[..at][k] == r; } else { assert lin[at..][k - at] == r; }
  }

  lemma ListedRange(cl: Cluster, a: seq<int>, f: seq<int>, r: nat)
    requires Listing(cl, a + f) && r in Members(f)
    ensures r < |cl.m|
  {
    var k: nat :| k < |f| && f[k] == r;
    assert (a + f)[|a| + k] == r;
  }

  lemma NotEarlier(cl: Cluster, lin: seq<int>, i: nat, j: nat)
    requires Topological(cl, lin) && i < j < |lin|
    ensures lin[j] !in cl.m[lin[i]].ancestors
  {
    forall k: nat | k < i ensures lin[..i][k] != lin[j] { }
    assert lin[j] !in lin[..i];
    assert lin[j] !in Members(lin[..i]);
  }

  lemma StepInside(cl: Cluster, lin: seq<int>, step: nat, g: seq<Group>, backward: bool)
    requires Passing(cl, lin, step, g, backward)
    ensures step <= |lin| && Improves(cl, Full(lin, step, g, backward), Full(lin, step, g, backward))
  {
    ImprovesRefl(cl, Full(lin, step, g, backward));
  }

  lemma MergedFull(lin: seq<int>, step: nat, g: seq<Group>, pos: nat, backward: bool)
    requires step <= |lin| && 0 < pos < |g|
    ensures Full(lin, step, MergedAt(g, pos), backward) == Full(lin, step, g, backward)
  {
    hide Flat;
    MergeKeepsOrder(g, pos);
  }

  lemma SwappedFull(cl: Cluster, lin: seq<int>, step: nat, g0: seq<Group>, g: seq<Group>, pos: nat, backward: bool)
    requires Passing(cl, lin, step, g, backward) && 0 < pos < |g| && InRange(cl, g[pos].idx)
    requires OutOfOrder(g[pos - 1], g[pos], backward) && !Depends(cl, g[pos - 1], g[pos], backward)
    requires Improves(cl, Full(lin, step, g0, backward), Full(lin, step, g, backward))
    ensures Improves(cl, Full(lin, step, g0, backward), Full(lin, step, Swapped(g, pos), backward))
  {
    assert Permutation(cl, Full(lin, step, g, backward));
    hide Improves, GroupOf;
    SwapGroups(cl, lin, step, g, pos, backward);
    ImprovesTrans(cl, Full(lin, step, g0, backward), Full(lin, step, g, backward), Full(lin, step, Swapped(g, pos), backward));
  }

  lemma MergedAtIs(g: seq<Group>, pos: nat)
    requires 0 < pos < |g|
    ensures MergedAt(g, pos) == g[..pos - 1] + [Merged(g[pos - 1], g[pos])] + g[pos + 1..]
  {
  }

  lemma FlatNone()
    ensures Flat([]) == []
  {
  }

  lemma FlatNext(g: seq<Group>, k: nat)
    requires k < |g|
    ensures Flat(g[..k + 1]) == Flat(g[..k]) + g[k].idx && |Flat(g[..k + 1])| <= |Flat(g)|
  {
    assert g[..k + 1] == g[..k] + [g[k]];
    FlatConcat(g[..k], [g[k]]);
    FlatOne(g[k]);
    assert g == g[..k + 1] + g[k + 1..];
    FlatConcat(g[..k + 1], g[k + 1..]);
  }

  lemma RevConcat(a: seq<int>, b: seq<int>)
    ensures Rev(a + b) == Rev(b) + Rev(a)
  {
  }

  lemma EndsPermuted(cl: Cluster, lin: seq<int>, g: seq<Group>, backward: bool)
    requires Passing(cl, lin, |lin|, g, backward)
    ensures Permutation(cl, View(Flat(g), backward))
  {
    PassEnds(cl, lin, g, backward);
  }

  lemma ViewIs(f: seq<int>, backward: bool)
    ensures View(f, backward) == if backward then Rev(f) else f
  {
  }

  lemma TakenFull(cl: Cluster, lin: seq<int>, step: nat, g: seq<Group>, backward: bool, x: nat)
    requires step < |lin| && x < |cl.m| && x == if backward then lin[|lin| - 1 - step] else lin[step]
    ensures Full(lin, step + 1, g + [NewGroup(cl, x)], backward) == Full(lin, step, g, backward)
  {
    hide Flat;
    var G := NewGroup(cl, x);
    FlatConcat(g, [G]);
    FlatOne(G);
    TakeNext(lin, step, Flat(g), x, backward);
  }

  lemma PassEnds(cl: Cluster, lin: seq<int>, g: seq<Group>, backward: bool)
    requires Passing(cl, lin, |lin|, g, backward)
    ensures |Flat(g)| == |lin| && Improves(cl, lin, if backward then Rev(Flat(g)) else Flat(g))
  {
    assert lin[..0] + Rev(Flat(g)) == Rev(Flat(g));
    assert Flat(g) + lin[|lin|..] == Flat(g);
  }

  lemma TopologicalFacts(cl: Cluster, a: seq<int>)
    requires Topological(cl, a)
    ensures Permutation(cl, a)
  {
  }

  lemma ImprovesFacts(cl: Cluster, a: seq<int>, b: seq<int>)
    requires Improves(cl, a, b)
    ensures Permutation(cl, b) && (Topological(cl, a) && Transposed(cl) ==> Topological(cl, b))
  {
  }

  /** An improved order's chunk diagram is nowhere below the original's. */
  lemma ImprovedDiagram(cl: Cluster, a: seq<int>, ca: seq<Chunk>, b: seq<int>, cb: seq<Chunk>)
    requires PositiveWeights(cl) && Improves(cl, a, b) && DiagramOf(cl, a, ca) && DiagramOf(cl, b, cb)
    ensures Falling(Fracs(ca)) && Falling(Fracs(cb)) && AtLeast(Fracs(cb), Fracs(ca))
  {
    DiagramIsOrder(cl, b, cb, a, ca);
  }
}
