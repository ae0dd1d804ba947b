/** The optimal linearization: emit the closed set of highest feerate, remove it, repeat. */
module Linearize {
  import opened Sums
  import opened Clusters
  import opened Feerates
  import opened Optimal

  ghost function Union(bs: seq<set<nat>>): set<nat> {
    if |bs| == 0 then {} else Union(bs[..|bs| - 1]) + bs[|bs| - 1]
  }

  /** Each block is a highest-feerate closed subset of what the blocks before it leave. */
  ghost predicate Greedy(cl: Cluster, bs: seq<set<nat>>) {
    |bs| > 0 ==>
      Greedy(cl, bs[..|bs| - 1]) && HighestRate(cl, Below(|cl.m|) - Union(bs[..|bs| - 1]), bs[|bs| - 1])
  }

  /** A closed set meets the next block in something that gains nothing beyond the block's rate. */
  lemma BlockMeets(cl: Cluster, done: set<nat>, E: set<nat>, A: set<nat>, slope: real)
    requires HighestRate(cl, Below(|cl.m|) - done, E) && Closed(cl, Below(|cl.m|), A)
    ensures slope <= SetRate(cl, E) ==> Gain(cl, E, slope) >= Gain(cl, A * E, slope)
    ensures slope >= SetRate(cl, E) ==> Gain(cl, A * E, slope) <= 0.0
  {
    var rem, r, B := Below(|cl.m|) - done, SetRate(cl, E), A * E;
    assert Closed(cl, rem, B);
    HighestGain(cl, rem, E, B);
    if slope <= r {
      GainSplit(cl, A, E, r);
      GainSplit(cl, A, E, slope);
      assert E * A == B;
      GainFalls(cl, E - A, slope, r);
    }
    if slope >= r { GainFalls(cl, B, r, slope); }
  }

  /** At the rate of a highest-feerate set the set itself breaks even and no closed set gains. */
  lemma HighestGain(cl: Cluster, rem: set<nat>, E: set<nat>, B: set<nat>)
    requires HighestRate(cl, rem, E) && Closed(cl, rem, B)
    ensures Gain(cl, E, SetRate(cl, E)) == 0.0 && Gain(cl, B, SetRate(cl, E)) <= 0.0
  {
    var r := SetRate(cl, E);
    SetWeight(cl, E);
    WorthSign(Fee(cl, E), Weight(cl, E), r);
    if B * Below(|cl.m|) != {} {
      SetWeight(cl, B);
      assert SetRate(cl, B) <= r;
      WorthSign(Fee(cl, B), Weight(cl, B), r);
    } else {
      assert B == {};
      EmptySum(Fees(cl), |cl.m|);
      EmptySum(Weights(cl), |cl.m|);
    }
  }

  /** Successive blocks have non-increasing feerate. */
  lemma RatesFall(cl: Cluster, done: set<nat>, E: set<nat>, E': set<nat>)
    requires HighestRate(cl, Below(|cl.m|) - done, E) && HighestRate(cl, Below(|cl.m|) - (done + E), E')
    ensures SetRate(cl, E') <= SetRate(cl, E)
  {
    var rem, r := Below(|cl.m|) - done, SetRate(cl, E);
    assert Closed(cl, rem, E + E') by {
      forall i: nat | i in E + E' && i < |cl.m|
        ensures cl.m[i].ancestors * rem <= E + E'
      {
        assert i in E' ==> cl.m[i].ancestors * (rem - E) <= E';
        assert rem - E == Below(|cl.m|) - (done + E);
      }
    }
    HighestGain(cl, rem, E, E + E');
    GainUnion(cl, E, E', r);
    SetWeight(cl, E');
    WorthSign(Fee(cl, E'), Weight(cl, E'), r);
  }

  /** At every slope the blocks up to some point gain at least as much as any closed set. */
  lemma {:induction false} GreedyDominates(cl: Cluster, bs: seq<set<nat>>, slope: real, A: set<nat>) returns (j: nat)
    requires PositiveWeights(cl) && Greedy(cl, bs) && Closed(cl, Below(|cl.m|), A)
    ensures j <= |bs| && Gain(cl, Union(bs[..j]), slope) >= Gain(cl, A * Union(bs), slope)
    ensures |bs| > 0 && slope <= SetRate(cl, bs[|bs| - 1]) ==>
      Gain(cl, Union(bs), slope) >= Gain(cl, A * Union(bs), slope)
  {
    hide Union, Greedy, Gain, HighestRate, Closed;
    j := 0;
    if |bs| == 0 {
      NoBlocks(cl, bs, slope, A);
    } else {
      var k := |bs| - 1;
      var front, E := bs[..k], bs[k];
      LastBlock(cl, bs);
      j := GreedyDominates(cl, front, slope, A);
      assert front[..j] == bs[..j] && bs[..|bs|] == bs;
      BlockJoins(cl, Union(front), E, A, slope);
      if slope <= SetRate(cl, E) {
        if k == 0 { NoBlocks(cl, front, slope, A); } else { LastBlock(cl, front); RatesFall(cl, Union(front[..k - 1]), front[k - 1], E); }
        j := |bs|;
      }
    }
  }

  lemma NoBlocks(cl: Cluster, bs: seq<set<nat>>, slope: real, A: set<nat>)
    requires bs == []
    ensures Union(bs) == A * Union(bs) == {} && bs[..0] == bs
  {
  }

  lemma LastBlock(cl: Cluster, bs: seq<set<nat>>)
    requires Greedy(cl, bs) && |bs| > 0
    ensures Greedy(cl, bs[..|bs| - 1]) && HighestRate(cl, Below(|cl.m|) - Union(bs[..|bs| - 1]), bs[|bs| - 1])
    ensures Union(bs) == Union(bs[..|bs| - 1]) + bs[|bs| - 1] && bs[|bs| - 1] * Below(|cl.m|) != {}
  {
  }

  /** What one more block adds to the blocks and to any closed set's part of them. */
  lemma BlockJoins(cl: Cluster, U: set<nat>, E: set<nat>, A: set<nat>, slope: real)
    requires HighestRate(cl, Below(|cl.m|) - U, E) && Closed(cl, Below(|cl.m|), A)
    ensures slope <= SetRate(cl, E) && Gain(cl, U, slope) >= Gain(cl, A * U, slope) ==>
      Gain(cl, U + E, slope) >= Gain(cl, A * (U + E), slope)
    ensures slope >= SetRate(cl, E) ==> Gain(cl, A * (U + E), slope) <= Gain(cl, A * U, slope)
  {
    hide Gain;
    BlockMeets(cl, U, E, A, slope);
    GainUnion(cl, U, E, slope);
    GainUnion(cl, A * U, A * E, slope);
    assert A * (U + E) == A * U + A * E;
  }

  /** Pays more for its weight, or as much with less weight. */
  ghost predicate Ahead(cl: Cluster, A: set<nat>, B: set<nat>)
    requires Weight(cl, A) > 0 && Weight(cl, B) > 0
  {
    Rate(Fee(cl, A), Weight(cl, A)) > Rate(Fee(cl, B), Weight(cl, B)) ||
    (Rate(Fee(cl, A), Weight(cl, A)) == Rate(Fee(cl, B), Weight(cl, B)) && Weight(cl, A) < Weight(cl, B))
  }

  /** What is left of a member's ancestors. */
  ghost function Line(cl: Cluster, rem: set<nat>, i: nat): set<nat>
    requires i < |cl.m|
  {
    cl.m[i].ancestors * rem
  }

  /** Of the first n members left, i is the first whose ancestor set none is ahead of. */
  ghost predicate Foremost(cl: Cluster, rem: set<nat>, n: nat, i: nat) {
    && i < n <= |cl.m| && i in rem && Weight(cl, Line(cl, rem, i)) > 0
    && forall j: nat :: j < n && j in rem ==> && Weight(cl, Line(cl, rem, j)) > 0
                                              && !Ahead(cl, Line(cl, rem, j), Line(cl, rem, i))
                                              && (j < i ==> Ahead(cl, Line(cl, rem, i), Line(cl, rem, j)))
  }

  lemma LineWeighs(cl: Cluster, rem: set<nat>, i: nat)
    requires PositiveWeights(cl) && i < |cl.m| && i in Line(cl, rem, i)
    ensures Weight(cl, Line(cl, rem, i)) > 0
  {
    SetWeight(cl, Line(cl, rem, i));
    assert i in Line(cl, rem, i) * Below(|cl.m|);
  }

  lemma ForemostNext(cl: Cluster, rem: set<nat>, n: nat, i: nat)
    requires n < |cl.m| && Foremost(cl, rem, n, i) && (n in rem ==> Weight(cl, Line(cl, rem, n)) > 0)
    ensures n !in rem || !Ahead(cl, Line(cl, rem, n), Line(cl, rem, i)) ==> Foremost(cl, rem, n + 1, i)
    ensures n in rem && Ahead(cl, Line(cl, rem, n), Line(cl, rem, i)) ==> Foremost(cl, rem, n + 1, n)
  {
  }

  lemma ForemostFirst(cl: Cluster, rem: set<nat>, n: nat)
    requires n < |cl.m| && n in rem && (forall j: nat :: j < n ==> j !in rem) && Weight(cl, Line(cl, rem, n)) > 0
    ensures Foremost(cl, rem, n + 1, n)
  {
  }

  lemma AheadIs(cl: Cluster, A: set<nat>, B: set<nat>)
    requires Weight(cl, A) > 0 && Weight(cl, B) > 0 && Fee(cl, A) >= 0 && Fee(cl, B) >= 0
    ensures var cmp := FeerateCmp(Fee(cl, A), Weight(cl, A), Fee(cl, B), Weight(cl, B));
      Ahead(cl, A, B) <==> cmp > 0 || (cmp == 0 && Weight(cl, A) < Weight(cl, B))
  {
    hide Fee, Weight;
  }

  lemma ForemostWeighs(cl: Cluster, rem: set<nat>, n: nat, i: nat)
    requires Foremost(cl, rem, n, i)
    ensures i < |cl.m| && Weight(cl, Line(cl, rem, i)) > 0
  {
  }

  /** Each member counts itself among its ancestors. */
  ghost predicate OwnAncestors(cl: Cluster, rem: set<nat>) {
    forall i: nat :: i in rem && i < |cl.m| ==> i in cl.m[i].ancestors
  }

  /** The best seed among the first n members: that of member `at`, or none when none of them is left. */
  ghost predicate Seeding(cl: Cluster, rem: set<nat>, n: nat, best: set<nat>, bf: nat, bw: nat, at: nat) {
    && n <= |cl.m| && best <= rem && (best == {} <==> forall j: nat :: j < n ==> j !in rem)
    && (forall j: nat :: j < n && j in rem ==> j in cl.m[j].ancestors)
    && (best != {} ==> bf == Fee(cl, best) && bw == Weight(cl, best))
    && (PositiveWeights(cl) && best != {} ==> Foremost(cl, rem, n, at) && at < |cl.m| && best == Line(cl, rem, at))
    && (Acyclic(cl) ==> Closed(cl, rem, best))
  }

  lemma SeedingStarts(cl: Cluster, rem: set<nat>)
    ensures Seeding(cl, rem, 0, {}, 0, 0, 0)
  {
  }

  lemma SeedingSkips(cl: Cluster, rem: set<nat>, n: nat, best: set<nat>, bf: nat, bw: nat, at: nat)
    requires Seeding(cl, rem, n, best, bf, bw, at) && n < |cl.m| && n !in rem
    ensures Seeding(cl, rem, n + 1, best, bf, bw, at)
  {
    hide Foremost, Fee, Weight, PositiveWeights, Closed, Acyclic;
    if PositiveWeights(cl) && best != {} { ForemostNext(cl, rem, n, at); }
  }

  lemma SeedingTakes(cl: Cluster, rem: set<nat>, n: nat, best: set<nat>, bf: nat, bw: nat, at: nat, more: set<nat>, f: nat, w: nat, yes: bool)
    requires Seeding(cl, rem, n, best, bf, bw, at) && n < |cl.m| && n in rem && n in more && more == Line(cl, rem, n)
    requires f == Fee(cl, more) && w == Weight(cl, more)
    requires yes <==> best == {} || FeerateCmp(f, w, bf, bw) > 0 || (FeerateCmp(f, w, bf, bw) == 0 && w < bw)
    ensures if yes then Seeding(cl, rem, n + 1, more, f, w, n) else Seeding(cl, rem, n + 1, best, bf, bw, at)
  {
    LineClosed(cl, rem, n);
    hide Foremost, Fee, Weight, Ahead, PositiveWeights, FeerateCmp, Closed, Acyclic;
    if PositiveWeights(cl) {
      LineWeighs(cl, rem, n);
      if best == {} {
        ForemostFirst(cl, rem, n);
      } else {
        ForemostWeighs(cl, rem, n, at);
        AheadIs(cl, more, best);
        ForemostNext(cl, rem, n, at);
      }
    }
  }

  lemma SeedingEnds(cl: Cluster, rem: set<nat>, best: set<nat>, bf: nat, bw: nat, at: nat)
    requires Seeding(cl, rem, |cl.m|, best, bf, bw, at) && rem <= Below(|cl.m|) && rem != {}
    ensures OwnAncestors(cl, rem) && {} < best <= rem && bf == Fee(cl, best) && bw == Weight(cl, best)
    ensures PositiveWeights(cl) ==> Foremost(cl, rem, |cl.m|, at) && at < |cl.m| && best == Line(cl, rem, at)
    ensures Acyclic(cl) ==> Closed(cl, rem, best)
  {
    hide Foremost, Fee, Weight, PositiveWeights, Closed, Acyclic;
    var x :| x in rem;
  }

  lemma LineClosed(cl: Cluster, rem: set<nat>, i: nat)
    requires i < |cl.m|
    ensures Line(cl, rem, i) == cl.m[i].ancestors * rem && (Acyclic(cl) ==> Closed(cl, rem, Line(cl, rem, i)))
  {
  }

  lemma NotOwn(cl: Cluster, rem: set<nat>, i: nat)
    requires i in rem && i < |cl.m| && i !in cl.m[i].ancestors
    ensures !OwnAncestors(cl, rem) && !Acyclic(cl)
  {
  }

  /** The best ancestor set within rem: where the search for the highest feerate starts. */
  method SeedSet(cl: Cluster, rem: set<nat>) returns (ok: bool, best: set<nat>, bf: nat, bw: nat)
    requires rem <= Below(|cl.m|) && rem != {}
    ensures ok <==> OwnAncestors(cl, rem)
    ensures ok ==> {} < best <= rem && bf == Fee(cl, best) && bw == Weight(cl, best)
    ensures ok && PositiveWeights(cl) ==> exists i: nat :: i < |cl.m| && Foremost(cl, rem, |cl.m|, i) && best == Line(cl, rem, i)
    ensures Acyclic(cl) ==> ok && Closed(cl, rem, best)
  {
    hide *;
    best, bf, bw := {}, 0, 0;
    ghost var at: nat := 0;
    SeedingStarts(cl, rem);
    for i := 0 to |cl.m|
      invariant Seeding(cl, rem, i, best, bf, bw, at)
    {
      if i in rem {
        var set_ := cl.m[i].ancestors * rem;
        LineClosed(cl, rem, i);
        if i !in set_ { NotOwn(cl, rem, i); return false, {}, 0, 0; }
        var f, w := SetTotals(cl, set_);
        var better := best == {} || FeerateCmp(f, w, bf, bw) > 0 || (FeerateCmp(f, w, bf, bw) == 0 && w < bw);
        SeedingTakes(cl, rem, i, best, bf, bw, at, set_, f, w, better);
        if better {
          best, bf, bw := set_, f, w;
          at := i;
        }
      } else {
        SeedingSkips(cl, rem, i, best, bf, bw, at);
      }
    }
    SeedingEnds(cl, rem, best, bf, bw, at);
    ok := best != {};
  }

  /** `order` lists members of S, each after its ancestors within S. */
  ghost predicate Within(cl: Cluster, S: set<nat>, order: seq<int>) {
    && Listing(cl, order) && Members(order) <= S
    && forall k: nat :: k < |order| ==> cl.m[order[k]].ancestors * S - {order[k]} <= Members(order[..k])
  }

  lemma WithinStarts(cl: Cluster, S: set<nat>)
    ensures Within(cl, S, []) && Members([]) == {} && |S - {}| == |S|
  {
    assert S - {} == S;
  }

  lemma WithinGrows(cl: Cluster, S: set<nat>, order: seq<int>, i: nat)
    requires Within(cl, S, order) && i in S && i < |cl.m| && i !in Members(order)
    requires cl.m[i].ancestors * S - {i} <= Members(order)
    ensures Within(cl, S, order + [i]) && Members(order + [i]) == Members(order) + {i}
  {
    var order' := order + [i];
    forall k: nat | k < |order'|
      ensures cl.m[order'[k]].ancestors * S - {order'[k]} <= Members(order'[..k])
    {
      assert order'[..k] == order[..k];
    }
    forall x: nat | x < |order|
      ensures order'[x] != i
    {
      assert order[x] in order;
    }
  }

  /** In an acyclic cluster some unplaced member of S has all its ancestors in S placed. */
  lemma {:induction false} SomeReady(cl: Cluster, S: set<nat>, placed: set<nat>, i: nat) returns (r: nat)
    requires Acyclic(cl) && S <= Below(|cl.m|) && i in S && i !in placed
    ensures r in S && r !in placed && cl.m[r].ancestors * S - {r} <= placed
    decreases |cl.m[i].ancestors * S|
  {
    var need := cl.m[i].ancestors * S - {i};
    if need <= placed {
      r := i;
    } else {
      var j :| j in need && j !in placed;
      SubsetSize(cl.m[j].ancestors * S, cl.m[i].ancestors * S);
      assert i in cl.m[i].ancestors * S && i !in cl.m[j].ancestors;
      r := SomeReady(cl, S, placed, j);
    }
  }

  /** The lowest unplaced member of S whose ancestors in S are placed, or -1. */
  method NextReady(cl: Cluster, S: set<nat>, placed: set<nat>) returns (chosen: int)
    requires S <= Below(|cl.m|)
    ensures chosen >= 0 ==> chosen in S && chosen !in placed && cl.m[chosen].ancestors * S - {chosen} <= placed
    ensures forall j: nat :: j in S && j !in placed && (chosen < 0 || j < chosen) ==> !(cl.m[j].ancestors * S - {j} <= placed)
    ensures Acyclic(cl) && !(S <= placed) ==> chosen >= 0
  {
    chosen := -1;
    for i := 0 to |cl.m|
      invariant chosen == -1
      invariant forall j: nat :: j < i && j in S && j !in placed ==> !(cl.m[j].ancestors * S - {j} <= placed)
    {
      if i in S && i !in placed && cl.m[i].ancestors * S - {i} <= placed { return i; }
    }
    if Acyclic(cl) && !(S <= placed) {
      var x :| x in S && x !in placed;
      ghost var r := SomeReady(cl, S, placed, x);
      assert false;
    }
  }

  /** Write S after lin[..out] topologically: lowest index whose ancestors in S are placed. */
  method Emit(cl: Cluster, S: set<nat>, lin: array<int>, out: nat) returns (ok: bool, ghost order: seq<int>)
    requires S <= Below(|cl.m|) && out + |S| <= lin.Length
    modifies lin
    ensures Acyclic(cl) ==> ok
    ensures ok ==> Within(cl, S, order) && Members(order) == S && |order| == |S|
    ensures ok ==> lin[..out + |S|] == old(lin[..out]) + order
  {
    hide *;
    order := [];
    var placed: set<nat>, at := {}, out;
    ghost var before := lin[..out];
    WithinStarts(cl, S);
    while placed != S
      invariant placed == Members(order) && placed <= S && at == out + |order|
      invariant |order| + |S - placed| == |S| && Within(cl, S, order)
      invariant lin[..at] == before + order
      decreases S - placed
    {
      var chosen := NextReady(cl, S, placed);
      if chosen < 0 { return false, order; }
      WithinGrows(cl, S, order, chosen);
      assert |S - placed| > 0 && S - (placed + {chosen}) == (S - placed) - {chosen};
      lin[at] := chosen; at := at + 1;
      order := order + [chosen];
      placed := placed + {chosen};
    }
    ok := true;
  }

  /** lin's prefixes include every union of leading blocks. */
  ghost predicate Spells(order: seq<int>, bs: seq<set<nat>>) {
    forall j: nat :: j <= |bs| ==> HasPrefix(order, Union(bs[..j]))
  }

  ghost predicate HasPrefix(order: seq<int>, S: set<nat>) {
    exists k: nat :: k <= |order| && Members(order[..k]) == S
  }

  /** No ancestor-closed set gains more at any slope than some prefix of the order does. */
  ghost predicate Dominant(cl: Cluster, order: seq<int>) {
    forall slope: real, A: set<nat> :: Closed(cl, Below(|cl.m|), A) ==> PrefixGains(cl, order, slope, Gain(cl, A, slope))
  }

  /** Some prefix of the order gains at least x at this slope. */
  ghost predicate PrefixGains(cl: Cluster, order: seq<int>, slope: real, x: real) {
    exists k: nat :: k <= |order| && Gain(cl, Members(order[..k]), slope) >= x
  }

  /** An order that spells greedy blocks covering the cluster is dominant. */
  lemma SpelledDominant(cl: Cluster, order: seq<int>, bs: seq<set<nat>>)
    requires PositiveWeights(cl) && Greedy(cl, bs) && Spells(order, bs) && Union(bs) == Below(|cl.m|)
    ensures Dominant(cl, order)
  {
    forall slope: real, A: set<nat> | Closed(cl, Below(|cl.m|), A)
      ensures PrefixGains(cl, order, slope, Gain(cl, A, slope))
    {
      var j := GreedyDominates(cl, bs, slope, A);
      assert A * Union(bs) == A;
      assert HasPrefix(order, Union(bs[..j]));
      var k: nat :| k <= |order| && Members(order[..k]) == Union(bs[..j]);
      assert Gain(cl, Members(order[..k]), slope) >= Gain(cl, A, slope);
    }
  }

  /** What the linearization loop has done when `rem` is left. */
  ghost predicate Built(cl: Cluster, rem: set<nat>, order: seq<int>, bs: seq<set<nat>>) {
    && ParentsFirst(cl, order) && Greedy(cl, bs) && Spells(order, bs) && Union(bs) == Members(order)
    && Members(order) == Below(|cl.m|) - rem
  }

  lemma BuiltGrows(cl: Cluster, rem: set<nat>, order: seq<int>, bs: seq<set<nat>>, E: set<nat>, more: seq<int>)
    requires Built(cl, rem, order, bs) && rem <= Below(|cl.m|) && Acyclic(cl) && HighestRate(cl, rem, E)
    requires Within(cl, E, more) && Members(more) == E
    ensures Built(cl, rem - E, order + more, bs + [E])
  {
    var order', bs' := order + more, bs + [E];
    MembersConcat(order, more);
    assert bs'[..|bs|] == bs;
    assert Union(bs) == Below(|cl.m|) - rem;
    assert Below(|cl.m|) - Union(bs) == rem;
    JoinListing(cl, order, more);
    JoinParentsFirst(cl, rem, order, E, more);
    SpellsGrows(order, more, bs, E);
  }

  lemma SpellsGrows(order: seq<int>, more: seq<int>, bs: seq<set<nat>>, E: set<nat>)
    requires Spells(order, bs) && Union(bs) == Members(order) && Members(more) == E
    ensures Spells(order + more, bs + [E]) && Union(bs + [E]) == Members(order + more)
  {
    var order', bs' := order + more, bs + [E];
    assert bs'[..|bs|] == bs;
    MembersConcat(order, more);
    forall j: nat | j <= |bs'|
      ensures HasPrefix(order', Union(bs'[..j]))
    {
      if j <= |bs| {
        assert bs'[..j] == bs[..j];
        assert HasPrefix(order, Union(bs[..j]));
        var k: nat :| k <= |order| && Members(order[..k]) == Union(bs[..j]);
        assert order'[..k] == order[..k];
      } else {
        assert bs'[..j] == bs' && order'[..|order'|] == order';
      }
    }
  }

  lemma MembersConcat(a: seq<int>, b: seq<int>)
    ensures Members(a + b) == Members(a) + Members(b)
  {
  }

  lemma JoinListing(cl: Cluster, a: seq<int>, b: seq<int>)
    requires Listing(cl, a) && Listing(cl, b) && Members(a) !! Members(b)
    ensures Listing(cl, a + b)
  {
    forall i: nat, j: nat | i < j < |a + b|
      ensures (a + b)[i] != (a + b)[j]
    {
      if i < |a| <= j { assert a[i] in Members(a) && b[j - |a|] in Members(b); }
    }
  }

  lemma JoinParentsFirst(cl: Cluster, rem: set<nat>, order: seq<int>, E: set<nat>, more: seq<int>)
    requires ParentsFirst(cl, order) && Members(order) == Below(|cl.m|) - rem && Acyclic(cl)
    requires Closed(cl, rem, E) && Within(cl, E, more) && Listing(cl, order + more)
    ensures ParentsFirst(cl, order + more)
  {
    var both := order + more;
    forall i: nat | i < |both|
      ensures cl.m[both[i]].ancestors - {both[i]} <= Members(both[..i])
    {
      if i < |order| {
        assert both[..i] == order[..i];
      } else {
        var k := i - |order|;
        assert both[..i] == order + more[..k];
        MembersConcat(order, more[..k]);
        assert more[k] in Members(more);
        assert cl.m[more[k]].ancestors * rem <= E;
      }
    }
  }

  /** Fills lin with an order no closed set beats at any slope; -1 when a step finds the cluster is not one. */
  method LinearizeOptimal(cl: Cluster, lin: array<int>) returns (rc: int, ghost blocks: seq<set<nat>>)
    requires lin.Length >= |cl.m|
    modifies lin
    ensures rc == 0 || rc == -1
    ensures rc == 0 ==> Permutation(cl, lin[..|cl.m|])
    ensures |cl.m| > 64 || !OwnAncestors(cl, Below(|cl.m|)) ==> rc == -1
    ensures WellFormed(cl) ==> rc == 0 && Topological(cl, lin[..|cl.m|]) && Dominant(cl, lin[..|cl.m|])
    ensures WellFormed(cl) ==> Greedy(cl, blocks) && Union(blocks) == Below(|cl.m|) && Spells(lin[..|cl.m|], blocks)
  {
    hide *;
    blocks := [];
    if WellFormed(cl) { Parts(cl); }
    NoneMissing(cl);
    if |cl.m| > MAX_CLUSTER { return -1, blocks; }
    var rem, out: nat := Below(|cl.m|), 0;
    ghost var order: seq<int>, begun := [], false;
    BuiltStarts(cl);
    while rem != {}
      invariant rem <= Below(|cl.m|) && out == |order| && out + |rem| == |cl.m| && lin[..out] == order
      invariant Listing(cl, order) && Members(order) == Below(|cl.m|) - rem
      invariant if begun then OwnAncestors(cl, Below(|cl.m|)) else rem == Below(|cl.m|)
      invariant WellFormed(cl) ==> Built(cl, rem, order, blocks)
      decreases rem
    {
      var ok, seed, sf, sw := SeedSet(cl, rem);
      if !ok { return -1, blocks; }
      begun := true;
      var best, _ := HighestClosure(cl, rem, seed, sf, sw);
      SubsetSize(best, rem);
      ghost var more;
      ok, more := Emit(cl, best, lin, out);
      if !ok { return -1, blocks; }
      if WellFormed(cl) { BuiltGrows(cl, rem, order, blocks, best, more); }
      NextOrder(cl, order, best, more);
      order, blocks := order + more, blocks + [best];
      assert |rem - best| == |rem| - |best|;
      out := out + |best|;
      rem := rem - best;
    }
    rc := if out == |cl.m| then 0 else -1;
    assert lin[..|cl.m|] == order;
    FullListing(cl, order);
    if WellFormed(cl) { BuiltEnds(cl, order, blocks); }
  }

  lemma NoneMissing(cl: Cluster)
    ensures MAX_CLUSTER == 64 && (Below(|cl.m|) == {} ==> OwnAncestors(cl, Below(|cl.m|)))
  {
  }

  lemma Parts(cl: Cluster)
    requires WellFormed(cl)
    ensures Acyclic(cl) && PositiveWeights(cl) && |cl.m| <= MAX_CLUSTER
  {
  }

  lemma BuiltStarts(cl: Cluster)
    ensures Built(cl, Below(|cl.m|), [], []) && Listing(cl, []) && Members([]) == {}
  {
    assert Spells([], []) by { assert HasPrefix([], {}) by { assert Members([][..0]) == {}; } }
  }

  lemma NextOrder(cl: Cluster, order: seq<int>, best: set<nat>, more: seq<int>)
    requires Listing(cl, order) && best !! Members(order) && Within(cl, best, more) && Members(more) == best
    ensures Listing(cl, order + more) && Members(order + more) == Members(order) + best
  {
    JoinListing(cl, order, more);
    MembersConcat(order, more);
  }

  lemma FullListing(cl: Cluster, order: seq<int>)
    requires Listing(cl, order) && |order| == |cl.m|
    ensures Permutation(cl, order)
  {
  }

  lemma BuiltEnds(cl: Cluster, order: seq<int>, bs: seq<set<nat>>)
    requires WellFormed(cl) && Built(cl, {}, order, bs) && |order| == |cl.m|
    ensures Topological(cl, order) && Dominant(cl, order)
    ensures Greedy(cl, bs) && Union(bs) == Below(|cl.m|) && Spells(order, bs)
  {
    SpelledDominant(cl, order, bs);
  }
}
