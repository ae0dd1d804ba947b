/** Runs of a linearization: when they are its chunks, when they hang together, and when no order has a better diagram. */
module TightRuns {
  import opened Sums
  import opened Clusters
  import opened Feerates
  import opened Diagrams
  import opened Chunking
  import opened Linearize
  import opened DiagramOrder

  // ---- runs that hang together ----

  ghost predicate Linked(cl: Cluster, x: nat, y: nat) {
    x < |cl.m| && y < |cl.m| && (x in cl.m[y].ancestors || y in cl.m[x].ancestors)
  }

  ghost predicate CutLinked(cl: Cluster, T: set<nat>, U: set<nat>) {
    exists x, y :: x in T && y in U && Linked(cl, x, y)
  }

  /** However S is cut in two, some member of one part is an ancestor of some member of the other. */
  ghost predicate Connected(cl: Cluster, S: set<nat>) {
    forall T: set<nat> :: T < S && T != {} ==> CutLinked(cl, T, S - T)
  }

  lemma ConnectedOne(cl: Cluster, x: nat)
    ensures Connected(cl, {x})
  {
    forall T: set<nat> | T < {x} ensures T == {} { }
  }

  /** Two connected sets with a link between them are one. */
  lemma ConnectedJoin(cl: Cluster, A: set<nat>, B: set<nat>, x: nat, y: nat)
    requires Connected(cl, A) && Connected(cl, B) && x in A && y in B && Linked(cl, x, y)
    ensures Connected(cl, A + B)
  {
    hide Linked;
    forall T: set<nat> | T < A + B && T != {} ensures CutLinked(cl, T, A + B - T) {
      assert !(A <= T && B <= T);
      if T * A != {} && T * A != A {
        CutMore(cl, T * A, A - T * A, T, A + B - T);
      } else if T * B != {} && T * B != B {
        CutMore(cl, T * B, B - T * B, T, A + B - T);
      } else {
        assert (x in T <==> A <= T) && (y in T <==> B <= T) by {
          assert x in T ==> x in T * A;
          assert y in T ==> y in T * B;
        }
        LinkedBack(cl, x, y);
      }
    }
  }

  lemma LinkedBack(cl: Cluster, x: nat, y: nat)
    ensures Linked(cl, x, y) <==> Linked(cl, y, x)
  {
  }

  lemma CutMore(cl: Cluster, T: set<nat>, U: set<nat>, T': set<nat>, U': set<nat>)
    requires CutLinked(cl, T, U) && T <= T' && U <= U'
    ensures CutLinked(cl, T', U')
  {
    hide Linked;
    var x, y :| x in T && y in U && Linked(cl, x, y);
    assert x in T' && y in U';
  }

  // ---- solid runs of falling rate are the chunks ----

  ghost predicate SolidRun(cl: Cluster, part: seq<int>) {
    InRange(cl, part) && |part| > 0 && Solid(Items(cl, part))
  }

  /** A solid run's rate. */
  ghost function RunRate(cl: Cluster, part: seq<int>): real {
    if SolidRun(cl, part) then ListRate(Items(cl, part)) else 0.0
  }

  /** Solid runs whose rates never rise. */
  ghost predicate FallingRuns(cl: Cluster, parts: seq<seq<int>>) {
    && (forall i: nat :: i < |parts| ==> SolidRun(cl, parts[i]))
    && (forall i: nat, j: nat :: i < j < |parts| ==> RunRate(cl, parts[i]) >= RunRate(cl, parts[j]))
  }

  lemma ChunkedFalls(cl: Cluster, parts: seq<seq<int>>, cs: seq<Chunk>)
    requires PositiveWeights(cl) && Chunked(cl, parts, cs)
    ensures FallingRuns(cl, parts)
  {
    hide Solid;
    forall i: nat | i < |parts| ensures SolidRun(cl, parts[i]) && cs[i].weight > 0 && RunRate(cl, parts[i]) == Rate(cs[i].fee, cs[i].weight) {
      ChunkRate(cl, parts[i], cs[i]);
    }
    forall i: nat, j: nat | i < j < |parts| ensures RunRate(cl, parts[i]) >= RunRate(cl, parts[j]) {
      assert FracRate(Fracs(cs)[i]) >= FracRate(Fracs(cs)[j]);
    }
  }

  lemma RunsTail(cl: Cluster, parts: seq<seq<int>>)
    requires FallingRuns(cl, parts) && |parts| > 0
    ensures FallingRuns(cl, parts[1..]) && SolidRun(cl, parts[0])
    ensures forall i: nat :: i < |parts| - 1 ==> RunRate(cl, parts[1..][i]) <= RunRate(cl, parts[0])
  {
    hide SolidRun;
    forall i: nat | i < |parts| - 1 ensures RunRate(cl, parts[1..][i]) <= RunRate(cl, parts[0]) {
      assert parts[1..][i] == parts[i + 1];
    }
    forall i: nat, j: nat | i < j < |parts| - 1 ensures RunRate(cl, parts[1..][i]) >= RunRate(cl, parts[1..][j]) {
      assert parts[1..][i] == parts[i + 1] && parts[1..][j] == parts[j + 1];
    }
  }

  /** No stretch from the front of runs that pay at most r for their weight pays more. */
  lemma {:induction false} FrontBelow(cl: Cluster, parts: seq<seq<int>>, k: nat, r: real)
    requires FallingRuns(cl, parts) && k <= |Join(parts)| && forall i: nat :: i < |parts| ==> RunRate(cl, parts[i]) <= r
    ensures InRange(cl, Join(parts)[..k]) && ListWorth(Items(cl, Join(parts)[..k]), r) <= 0.0
    decreases |parts|
  {
    hide FallingRuns;
    if |parts| == 0 {
      assert Items(cl, Join(parts)[..k]) == [];
    } else {
      RunsTail(cl, parts);
      var p, rest := parts[0], Join(parts[1..]);
      assert RunRate(cl, p) <= r;
      ListSign(Items(cl, p), r);
      if k <= |p| {
        assert Join(parts)[..k] == p[..k] && Items(cl, p[..k]) == Items(cl, p)[..k];
        SolidCapped(Items(cl, p), k, r);
      } else {
        FrontBelow(cl, parts[1..], k - |p|, r);
        assert Join(parts)[..k] == p + rest[..k - |p|];
        assert Items(cl, Join(parts)[..k]) == Items(cl, p) + Items(cl, rest[..k - |p|]);
        WorthConcat(Items(cl, p), Items(cl, rest[..k - |p|]), r);
      }
    }
  }

  lemma FirstNotLonger(cl: Cluster, a: seq<seq<int>>, b: seq<seq<int>>)
    requires FallingRuns(cl, a) && FallingRuns(cl, b) && Join(a) == Join(b) && |a| > 0 && |b| > 0
    ensures |b[0]| <= |a[0]|
  {
    RunsTail(cl, a); RunsTail(cl, b);
    hide FallingRuns;
    var p, q, n := a[0], b[0], |b[0]|;
    var r := RunRate(cl, p);
    assert Join(b)[..n] == q;
    assert forall i: nat :: i < |a| ==> RunRate(cl, a[i]) <= r by {
      forall i: nat | i < |a| ensures RunRate(cl, a[i]) <= r { if i > 0 { assert a[1..][i - 1] == a[i]; } }
    }
    FrontBelow(cl, a, n, r);
    ListSign(Items(cl, q), r);
    assert p == Join(a)[..|p|];
    FrontLower(cl, Join(a), p, q);
  }

  lemma FrontLower(cl: Cluster, s: seq<int>, p: seq<int>, q: seq<int>)
    requires SolidRun(cl, p) && SolidRun(cl, q) && p <= s && q <= s
    ensures |p| < |q| ==> RunRate(cl, p) < RunRate(cl, q)
  {
    if |p| < |q| { assert Items(cl, q)[..|p|] == Items(cl, p); }
  }

  /** There is one way only to cut an order into solid runs of falling rate. */
  lemma {:induction false} RunsUnique(cl: Cluster, a: seq<seq<int>>, b: seq<seq<int>>)
    requires FallingRuns(cl, a) && FallingRuns(cl, b) && Join(a) == Join(b)
    ensures a == b
    decreases |a|
  {
    hide FallingRuns, SolidRun;
    if |a| == 0 || |b| == 0 {
      SomeRun(cl, a); SomeRun(cl, b);
    } else {
      FirstNotLonger(cl, a, b); FirstNotLonger(cl, b, a);
      var n := |a[0]|;
      assert a[0] == Join(a)[..n] == b[0];
      assert Join(a[1..]) == Join(a)[n..] == Join(b[1..]);
      RunsTail(cl, a); RunsTail(cl, b);
      RunsUnique(cl, a[1..], b[1..]);
      assert a == [a[0]] + a[1..] && b == [b[0]] + b[1..];
    }
  }

  lemma SomeRun(cl: Cluster, a: seq<seq<int>>)
    requires FallingRuns(cl, a)
    ensures Join(a) == [] ==> a == []
  {
    if |a| > 0 { assert SolidRun(cl, a[0]); }
  }

  /** Every chunk of the order is connected. */
  ghost predicate ConnectedChunks(cl: Cluster, xs: seq<int>) {
    forall cs: seq<Chunk>, i: nat :: DiagramOf(cl, xs, cs) && i < |cs| ==> Connected(cl, cs[i].members)
  }

  /** An order made of connected solid runs of falling rate has connected chunks. */
  lemma RunsConnect(cl: Cluster, parts: seq<seq<int>>)
    requires PositiveWeights(cl) && FallingRuns(cl, parts) && forall i: nat :: i < |parts| ==> Connected(cl, Members(parts[i]))
    ensures ConnectedChunks(cl, Join(parts))
  {
    hide Connected, FallingRuns;
    forall cs: seq<Chunk>, i: nat | DiagramOf(cl, Join(parts), cs) && i < |cs| ensures Connected(cl, cs[i].members) {
      var qs: seq<seq<int>> :| Join(qs) == Join(parts) && Chunked(cl, qs, cs);
      ChunkedFalls(cl, qs, cs);
      RunsUnique(cl, parts, qs);
      assert ChunkOf(cl, qs[i], cs[i]);
    }
  }

  // ---- runs no part of which pays more ----

  /** What a pass follows from a member: its ancestors, or on the way back its descendants. */
  ghost function Rel(cl: Cluster, i: nat, backward: bool): set<nat> {
    if i >= |cl.m| then {} else (if backward then cl.m[i].descendants else cl.m[i].ancestors) * Below(|cl.m|)
  }

  /** T holds, with each member, all in S that a pass follows from it. */
  ghost predicate Cone(cl: Cluster, S: set<nat>, T: set<nat>, backward: bool) {
    T <= S && forall i :: i in T ==> Rel(cl, i, backward) * S <= T
  }

  /** The gain at a slope; on the way back, fees count against. */
  ghost function Signed(cl: Cluster, T: set<nat>, rho: real, backward: bool): real {
    if backward then -Gain(cl, T, -rho) else Gain(cl, T, rho)
  }

  lemma SignedSplit(cl: Cluster, A: set<nat>, B: set<nat>, rho: real, backward: bool)
    ensures Signed(cl, B, rho, backward) == Signed(cl, B * A, rho, backward) + Signed(cl, B - A, rho, backward)
  {
    GainSplit(cl, A, B, rho); GainSplit(cl, A, B, -rho);
  }

  lemma SignedFalls(cl: Cluster, T: set<nat>, low: real, high: real, backward: bool)
    requires PositiveWeights(cl) && low <= high
    ensures Signed(cl, T, high, backward) <= Signed(cl, T, low, backward)
  {
    GainFalls(cl, T, low, high); GainFalls(cl, T, -high, -low);
  }

  /** No cone of S gains anything at rho. */
  ghost predicate Tight(cl: Cluster, S: set<nat>, rho: real, backward: bool) {
    forall T: set<nat> :: Cone(cl, S, T, backward) ==> Signed(cl, T, rho, backward) <= 0.0
  }

  /** No cone of S without x does. */
  ghost predicate Nearly(cl: Cluster, S: set<nat>, x: nat, rho: real, backward: bool) {
    forall T: set<nat> :: Cone(cl, S, T, backward) && x !in T ==> Signed(cl, T, rho, backward) <= 0.0
  }

  lemma NearlyOne(cl: Cluster, x: nat, rho: real, backward: bool)
    ensures Nearly(cl, {x}, x, rho, backward)
  {
    forall T: set<nat> | Cone(cl, {x}, T, backward) && x !in T ensures Signed(cl, T, rho, backward) <= 0.0 {
      assert T == {};
      EmptyGain(cl, rho); EmptyGain(cl, -rho);
    }
  }

  lemma NearlyHigher(cl: Cluster, S: set<nat>, x: nat, low: real, high: real, backward: bool)
    requires PositiveWeights(cl) && Nearly(cl, S, x, low, backward) && low <= high
    ensures Nearly(cl, S, x, high, backward)
  {
    hide Cone, Signed;
    forall T: set<nat> | Cone(cl, S, T, backward) && x !in T ensures Signed(cl, T, high, backward) <= 0.0 {
      SignedFalls(cl, T, low, high, backward);
    }
  }

  lemma ConePart(cl: Cluster, S: set<nat>, T: set<nat>, P: set<nat>, backward: bool)
    requires Cone(cl, S, T, backward) && P <= S
    ensures Cone(cl, P, T * P, backward)
  {
  }

  /** A tight set joins one that is nearly tight at the same slope. */
  lemma NearlyJoins(cl: Cluster, P: set<nat>, C: set<nat>, x: nat, rho: real, backward: bool)
    requires Tight(cl, P, rho, backward) && Nearly(cl, C, x, rho, backward) && P !! C
    ensures Nearly(cl, P + C, x, rho, backward)
  {
    hide Signed;
    forall T: set<nat> | Cone(cl, P + C, T, backward) && x !in T ensures Signed(cl, T, rho, backward) <= 0.0 {
      ConePart(cl, P + C, T, P, backward); ConePart(cl, P + C, T, C, backward);
      SignedSplit(cl, P, T, rho, backward);
      assert T - P == T * C;
    }
  }

  /** All of S is followed from x: a cone with x is all of it. */
  lemma TightWhole(cl: Cluster, S: set<nat>, x: nat, rho: real, backward: bool)
    requires Nearly(cl, S, x, rho, backward) && S <= Rel(cl, x, backward) && Signed(cl, S, rho, backward) <= 0.0
    ensures Tight(cl, S, rho, backward)
  {
    hide Signed;
    forall T: set<nat> | Cone(cl, S, T, backward) ensures Signed(cl, T, rho, backward) <= 0.0 {
      if x in T {
        assert Rel(cl, x, backward) * S == S;
        assert T == S;
      }
    }
  }

  /** Tight on the way back is tight on the way there: the complement of a cone is a cone of the other kind. */
  lemma TightTurns(cl: Cluster, S: set<nat>, r: real)
    requires Transposed(cl) && S <= Below(|cl.m|) && Tight(cl, S, -r, true) && Gain(cl, S, r) == 0.0
    ensures Tight(cl, S, r, false)
  {
    forall T: set<nat> | Cone(cl, S, T, false) ensures Signed(cl, T, r, false) <= 0.0 {
      ConeTurns(cl, S, T);
      assert Signed(cl, S - T, -r, true) <= 0.0;
      assert -(-r) == r;
      GainSplit(cl, T, S, r);
      assert S * T == T;
    }
  }

  lemma ConeTurns(cl: Cluster, S: set<nat>, T: set<nat>)
    requires Transposed(cl) && S <= Below(|cl.m|) && Cone(cl, S, T, false)
    ensures Cone(cl, S, S - T, true)
  {
    forall i | i in S - T ensures Rel(cl, i, true) * S <= S - T {
      forall j | j in Rel(cl, i, true) * S ensures j !in T {
        assert j < |cl.m| && i < |cl.m| && i in cl.m[j].ancestors;
        assert i in Rel(cl, j, false) * S;
      }
    }
  }

  /** At any slope a closed part of a tight set gains nothing, or no more than the set. */
  lemma TightCaps(cl: Cluster, S: set<nat>, r: real, A: set<nat>, slope: real)
    requires PositiveWeights(cl) && Tight(cl, S, r, false) && Gain(cl, S, r) == 0.0 && Cone(cl, S, A * S, false)
    ensures r <= slope ==> Gain(cl, A * S, slope) <= 0.0
    ensures slope <= r ==> Gain(cl, A * S, slope) <= Gain(cl, S, slope)
  {
    var T := A * S;
    assert Signed(cl, T, r, false) <= 0.0;
    if r <= slope { GainFalls(cl, T, r, slope); }
    if slope <= r {
      GainFalls(cl, S - T, slope, r);
      GainSplit(cl, T, S, r); GainSplit(cl, T, S, slope);
      assert S * T == T;
    }
  }

  // ---- tight runs of falling rate are as good as any order ----

  ghost predicate TightRun(cl: Cluster, part: seq<int>) {
    Tight(cl, Members(part), RunRate(cl, part), false)
  }

  ghost predicate TightAll(cl: Cluster, parts: seq<seq<int>>) {
    forall i: nat :: i < |parts| ==> TightRun(cl, parts[i])
  }

  lemma ClosedCone(cl: Cluster, A: set<nat>, S: set<nat>)
    requires Closed(cl, Below(|cl.m|), A) && S <= Below(|cl.m|)
    ensures Cone(cl, S, A * S, false)
  {
  }

  lemma RunZero(cl: Cluster, part: seq<int>)
    requires SolidRun(cl, part) && Listing(cl, part)
    ensures Gain(cl, Members(part), RunRate(cl, part)) == 0.0 && Members(part) <= Below(|cl.m|)
  {
    ListingGain(cl, part, RunRate(cl, part));
    ListSign(Items(cl, part), RunRate(cl, part));
  }

  /** What one more run at the end adds to a closed set's part of the order. */
  lemma OneMore(cl: Cluster, front: seq<int>, p: seq<int>, A: set<nat>, slope: real)
    requires PositiveWeights(cl) && Listing(cl, front + p) && SolidRun(cl, p) && TightRun(cl, p) && Closed(cl, Below(|cl.m|), A)
    ensures Gain(cl, A * Members(front + p), slope) == Gain(cl, A * Members(front), slope) + Gain(cl, A * Members(p), slope)
    ensures Gain(cl, Members(front + p), slope) == Gain(cl, Members(front), slope) + Gain(cl, Members(p), slope)
    ensures RunRate(cl, p) <= slope ==> Gain(cl, A * Members(p), slope) <= 0.0
    ensures slope <= RunRate(cl, p) ==> Gain(cl, A * Members(p), slope) <= Gain(cl, Members(p), slope)
  {
    hide SolidRun, Tight, RunRate;
    ListingParts(cl, front, p);
    RunZero(cl, p);
    ClosedCone(cl, A, Members(p));
    TightCaps(cl, Members(p), RunRate(cl, p), A, slope);
    GainUnion(cl, Members(front), Members(p), slope);
    GainUnion(cl, A * Members(front), A * Members(p), slope);
    assert A * (Members(front) + Members(p)) == A * Members(front) + A * Members(p);
  }

  lemma ListingParts(cl: Cluster, a: seq<int>, b: seq<int>)
    requires Listing(cl, a + b)
    ensures Listing(cl, a) && Listing(cl, b) && Members(a) !! Members(b) && Members(a + b) == Members(a) + Members(b)
  {
    var s := a + b;
    forall i: nat | i < |a| ensures a[i] == s[i] { }
    forall i: nat | i < |b| ensures b[i] == s[|a| + i] { }
    forall i: nat, j: nat | i < j < |b| ensures b[i] != b[j] { assert s[|a| + i] != s[|a| + j]; }
    forall x: nat | x in Members(a) ensures x !in Members(b) {
      var i: nat :| i < |a| && a[i] == x;
      forall j: nat | j < |b| ensures b[j] != x { assert s[i] != s[|a| + j]; }
    }
  }

  /** While every run pays at least the slope, taking all of them is best. */
  lemma {:induction false} AllWorthIt(cl: Cluster, parts: seq<seq<int>>, A: set<nat>, slope: real)
    requires PositiveWeights(cl) && FallingRuns(cl, parts) && TightAll(cl, parts) && Listing(cl, Join(parts)) && Closed(cl, Below(|cl.m|), A)
    requires |parts| > 0 ==> slope <= RunRate(cl, parts[|parts| - 1])
    ensures Gain(cl, A * Members(Join(parts)), slope) <= Gain(cl, Members(Join(parts)), slope)
    decreases |parts|
  {
    hide Gain, TightRun, SolidRun, RunRate, Closed;
    if |parts| == 0 {
      assert A * Members(Join(parts)) == Members(Join(parts)) == {};
    } else {
      var n := |parts| - 1;
      Shorter(cl, parts);
      if n > 0 { assert RunRate(cl, parts[n - 1]) >= RunRate(cl, parts[n]); }
      ListingParts(cl, Join(parts[..n]), parts[n]);
      AllWorthIt(cl, parts[..n], A, slope);
      OneMore(cl, Join(parts[..n]), parts[n], A, slope);
    }
  }

  lemma Shorter(cl: Cluster, parts: seq<seq<int>>)
    requires FallingRuns(cl, parts) && TightAll(cl, parts) && |parts| > 0
    ensures var n := |parts| - 1;
      && Join(parts) == Join(parts[..n]) + parts[n] && FallingRuns(cl, parts[..n]) && TightAll(cl, parts[..n])
      && SolidRun(cl, parts[n]) && TightRun(cl, parts[n])
  {
    FrontStays(cl, parts, |parts| - 1);
    JoinLast(parts);
    hide *;
  }

  lemma JoinLast<T>(parts: seq<seq<T>>)
    requires |parts| > 0
    ensures Join(parts) == Join(parts[..|parts| - 1]) + parts[|parts| - 1]
  {
    var n := |parts| - 1;
    assert parts == parts[..n] + [parts[n]];
    JoinSnoc(parts[..n], parts[n]);
  }

  lemma FrontStays(cl: Cluster, parts: seq<seq<int>>, n: nat)
    requires FallingRuns(cl, parts) && TightAll(cl, parts) && n < |parts|
    ensures FallingRuns(cl, parts[..n]) && SolidRun(cl, parts[n]) && TightAll(cl, parts[..n]) && TightRun(cl, parts[n])
  {
    hide SolidRun, TightRun, RunRate;
    var front := parts[..n];
    forall i: nat | i < n ensures front[i] == parts[i] { }
  }

  /** Some front of the runs gains at least what a closed set gets of them. */
  lemma {:induction false} FrontGains(cl: Cluster, parts: seq<seq<int>>, A: set<nat>, slope: real) returns (k: nat)
    requires PositiveWeights(cl) && FallingRuns(cl, parts) && TightAll(cl, parts) && Listing(cl, Join(parts)) && Closed(cl, Below(|cl.m|), A)
    ensures k <= |Join(parts)| && Gain(cl, A * Members(Join(parts)), slope) <= Gain(cl, Members(Join(parts)[..k]), slope)
    decreases |parts|
  {
    hide Gain, TightRun, SolidRun, RunRate, Closed;
    if |parts| == 0 || slope <= RunRate(cl, parts[|parts| - 1]) {
      AllWorthIt(cl, parts, A, slope);
      k := |Join(parts)|;
      assert Join(parts)[..k] == Join(parts);
    } else {
      var n := |parts| - 1;
      Shorter(cl, parts);
      ListingParts(cl, Join(parts[..n]), parts[n]);
      k := FrontGains(cl, parts[..n], A, slope);
      OneMore(cl, Join(parts[..n]), parts[n], A, slope);
      assert Join(parts)[..k] == Join(parts[..n])[..k];
    }
  }

  /** An order made of tight solid runs of falling rate is dominant. */
  lemma RunsDominant(cl: Cluster, parts: seq<seq<int>>)
    requires PositiveWeights(cl) && FallingRuns(cl, parts) && TightAll(cl, parts) && Permutation(cl, Join(parts))
    ensures Dominant(cl, Join(parts))
  {
    hide Gain, FallingRuns, TightAll;
    PermutationFacts(cl, Join(parts));
    forall slope: real, A: set<nat> | Closed(cl, Below(|cl.m|), A) ensures PrefixGains(cl, Join(parts), slope, Gain(cl, A, slope)) {
      var k := FrontGains(cl, parts, A, slope);
      assert A * Members(Join(parts)) == A;
    }
  }

  /** A dominant order stays dominant when its diagram is raised. */
  lemma DominantStays(cl: Cluster, a: seq<int>, b: seq<int>)
    requires PositiveWeights(cl) && Permutation(cl, a) && Permutation(cl, b) && Dominant(cl, a)
    requires InRange(cl, a) && InRange(cl, b) && DualAtLeast(Items(cl, b), Items(cl, a))
    ensures Dominant(cl, b)
  {
    hide Gain;
    forall slope: real, A: set<nat> | Closed(cl, Below(|cl.m|), A) ensures PrefixGains(cl, b, slope, Gain(cl, A, slope)) {
      if slope >= 0.0 {
        assert PrefixGains(cl, a, slope, Gain(cl, A, slope));
        var k: nat :| k <= |a| && Gain(cl, Members(a[..k]), slope) >= Gain(cl, A, slope);
        var j := PrefixRaised(cl, a, b, slope, k);
        assert Gain(cl, Members(b[..j]), slope) >= Gain(cl, A, slope);
      } else {
        PermutationFacts(cl, b);
        assert b[..|b|] == b;
        AllGains(cl, A, slope);
      }
    }
  }

  lemma PrefixRaised(cl: Cluster, a: seq<int>, b: seq<int>, slope: real, k: nat) returns (j: nat)
    requires Permutation(cl, a) && Permutation(cl, b) && slope >= 0.0 && k <= |a|
    requires InRange(cl, a) && InRange(cl, b) && DualAtLeast(Items(cl, b), Items(cl, a))
    ensures j <= |b| && Gain(cl, Members(b[..j]), slope) >= Gain(cl, Members(a[..k]), slope)
  {
    ListingGain(cl, a[..k], slope);
    assert Items(cl, a[..k]) == Items(cl, a)[..k];
    assert Matched(Items(cl, b), slope, ListWorth(Items(cl, a)[..k], slope));
    j :| j <= |b| && ListWorth(Items(cl, b)[..j], slope) >= ListWorth(Items(cl, a)[..k], slope);
    ListingGain(cl, b[..j], slope);
    assert Items(cl, b[..j]) == Items(cl, b)[..j];
  }

  /** At a negative slope everything is worth having. */
  lemma AllGains(cl: Cluster, A: set<nat>, slope: real)
    requires PositiveWeights(cl) && A <= Below(|cl.m|) && slope <= 0.0
    ensures Gain(cl, A, slope) <= Gain(cl, Below(|cl.m|), slope)
  {
    var B := Below(|cl.m|);
    GainSplit(cl, A, B, slope);
    assert B * A == A;
    SetWeight(cl, B - A);
    GainFalls(cl, B - A, slope, 0.0);
  }

  // ---- one child, or one parent ----

  /** c spends p with nothing in between. */
  ghost predicate Child(cl: Cluster, p: nat, c: nat) {
    && p < |cl.m| && c < |cl.m| && p != c && p in cl.m[c].ancestors
    && forall z: nat :: z < |cl.m| && z in cl.m[c].ancestors && p in cl.m[z].ancestors ==> z == p || z == c
  }

  ghost predicate AtMostOneChild(cl: Cluster) {
    forall p: nat, c: nat, d: nat :: Child(cl, p, c) && Child(cl, p, d) ==> c == d
  }

  ghost predicate AtMostOneParent(cl: Cluster) {
    forall c: nat, p: nat, q: nat :: Child(cl, p, c) && Child(cl, q, c) ==> p == q
  }

  /** What a pass follows is a partial order. */
  ghost predicate PartialOrder(cl: Cluster, backward: bool) {
    && (forall i: nat :: i < |cl.m| ==> i in Rel(cl, i, backward))
    && (forall i: nat, j: nat :: i < |cl.m| && j in Rel(cl, i, backward) ==> j < |cl.m| && Rel(cl, j, backward) <= Rel(cl, i, backward))
    && (forall i: nat, j: nat :: i < |cl.m| && j in Rel(cl, i, backward) && i in Rel(cl, j, backward) ==> i == j)
  }

  lemma RelOrder(cl: Cluster, backward: bool)
    requires Acyclic(cl) && Transposed(cl)
    ensures PartialOrder(cl, backward)
  {
    RelTurns(cl);
    if backward {
      forall i: nat, j: nat | i < |cl.m| && j in Rel(cl, i, true) ensures Rel(cl, j, true) <= Rel(cl, i, true) {
        forall k | k in Rel(cl, j, true) ensures k in Rel(cl, i, true) {
          assert j in Rel(cl, k, false) && i in Rel(cl, j, false);
        }
      }
    }
  }

  lemma RelBelow(cl: Cluster, i: nat, backward: bool)
    ensures forall j :: j in Rel(cl, i, backward) ==> j < |cl.m|
  {
  }

  lemma RelTurns(cl: Cluster)
    requires Transposed(cl)
    ensures forall i: nat, j: nat :: i < |cl.m| && j < |cl.m| ==> (j in Rel(cl, i, true) <==> i in Rel(cl, j, false))
  {
  }

  /** The next one on. */
  ghost predicate Next(cl: Cluster, p: nat, c: nat, backward: bool) {
    && p < |cl.m| && c < |cl.m| && p != c && p in Rel(cl, c, backward)
    && forall z: nat :: z in Rel(cl, c, backward) && p in Rel(cl, z, backward) ==> z == p || z == c
  }

  ghost predicate OneNext(cl: Cluster, backward: bool) {
    forall p: nat, c: nat, d: nat :: Next(cl, p, c, backward) && Next(cl, p, d, backward) ==> c == d
  }

  lemma OneNextIs(cl: Cluster, backward: bool)
    requires Transposed(cl) && if backward then AtMostOneParent(cl) else AtMostOneChild(cl)
    ensures OneNext(cl, backward)
  {
    RelTurns(cl);
    forall p: nat, c: nat | Next(cl, p, c, backward) ensures if backward then Child(cl, c, p) else Child(cl, p, c) {
      if backward {
        forall z: nat | z < |cl.m| && z in cl.m[p].ancestors && c in cl.m[z].ancestors ensures z == p || z == c {
          assert z in Rel(cl, c, true) && p in Rel(cl, z, true);
        }
      } else {
        forall z: nat | z < |cl.m| && z in cl.m[c].ancestors && p in cl.m[z].ancestors ensures z == p || z == c {
          assert z in Rel(cl, c, false) && p in Rel(cl, z, false);
        }
      }
    }
  }

  /** On the way from p to r there is a next one. */
  lemma {:induction false} NextOn(cl: Cluster, p: nat, r: nat, backward: bool) returns (c: nat)
    requires PartialOrder(cl, backward) && r < |cl.m| && p in Rel(cl, r, backward) && p != r
    ensures Next(cl, p, c, backward) && c in Rel(cl, r, backward)
    decreases Rel(cl, r, backward)
  {
    RelBelow(cl, r, backward);
    hide Rel;
    if z: nat :| z in Rel(cl, r, backward) && p in Rel(cl, z, backward) && z != p && z != r {
      assert r !in Rel(cl, z, backward);
      c := NextOn(cl, p, z, backward);
    } else {
      c := r;
      assert p < |cl.m| && r in Rel(cl, r, backward);
      assert forall z: nat :: z in Rel(cl, r, backward) && p in Rel(cl, z, backward) ==> z == p || z == r;
    }
  }

  /** With one next each, what leads on from y is a chain. */
  lemma {:induction false} Chain(cl: Cluster, y: nat, r: nat, x: nat, backward: bool)
    requires PartialOrder(cl, backward) && OneNext(cl, backward) && r < |cl.m| && x < |cl.m|
    requires y in Rel(cl, r, backward) && y in Rel(cl, x, backward)
    ensures r in Rel(cl, x, backward) || x in Rel(cl, r, backward)
    decreases Below(|cl.m|) - Rel(cl, y, backward)
  {
    if y != r && y != x {
      var c := NextOn(cl, y, r, backward);
      var d := NextOn(cl, y, x, backward);
      assert c !in Rel(cl, y, backward) && c in Rel(cl, c, backward);
      Chain(cl, c, r, x, backward);
    }
  }
}
