/** The exact optimizer: Dinkelbach's iteration over maximum-weight closures,
    and the linearization that emits one best closed set after another. */
module Optimal {
  import opened Sums
  import opened Clusters
  import opened Feerates
  import opened Closures

  /** The slope at which the nonempty set S breaks even. */
  ghost function SetRate(cl: Cluster, S: set<nat>): real
    requires PositiveWeights(cl) && S * Below(|cl.m|) != {}
  {
    SetWeight(cl, S);
    Rate(Fee(cl, S), Weight(cl, S))
  }

  /** No closed subset of rem gains more than S at this slope. */
  ghost predicate Maximizes(cl: Cluster, rem: set<nat>, S: set<nat>, slope: real) {
    && Closed(cl, rem, S)
    && forall A: set<nat> :: Closed(cl, rem, A) ==> Gain(cl, A, slope) <= Gain(cl, S, slope)
  }

  /** S is a nonempty closed subset of rem of the highest feerate. */
  ghost predicate HighestRate(cl: Cluster, rem: set<nat>, S: set<nat>) {
    && PositiveWeights(cl) && rem <= Below(|cl.m|) && S != {} && Closed(cl, rem, S) && S * Below(|cl.m|) != {}
    && forall A: set<nat> :: Closed(cl, rem, A) && A * Below(|cl.m|) != {} ==> SetRate(cl, A) <= SetRate(cl, S)
  }

  lemma ClosedMeetJoin(cl: Cluster, rem: set<nat>, A: set<nat>, B: set<nat>)
    requires Closed(cl, rem, A) && Closed(cl, rem, B)
    ensures Closed(cl, rem, A * B) && Closed(cl, rem, A + B)
  {
  }

  lemma Beats(cl: Cluster, rem: set<nat>, S: set<nat>, slope: real, A: set<nat>)
    requires Maximizes(cl, rem, S, slope) && Closed(cl, rem, A)
    ensures Gain(cl, A, slope) <= Gain(cl, S, slope)
  {
  }

  /** Best closures shrink as the slope rises: the heart of the iteration count. */
  lemma Nested(cl: Cluster, rem: set<nat>, A: set<nat>, low: real, B: set<nat>, high: real)
    requires PositiveWeights(cl) && rem <= Below(|cl.m|) && low < high
    requires Maximizes(cl, rem, A, low) && Maximizes(cl, rem, B, high)
    ensures B <= A
  {
    assert Closed(cl, rem, A) && Closed(cl, rem, B) && B <= rem;
    hide *;
    ClosedMeetJoin(cl, rem, B, A);
    Beats(cl, rem, B, high, B * A);
    Beats(cl, rem, A, low, B + A);
    GainSplit(cl, A, B, high);
    GainFalls(cl, B - A, low, high);
    GainUnion(cl, A, B - A, low);
    assert A + (B - A) == B + A && (B - A) * Below(|cl.m|) == B - A;
  }

  /** The member weights of the closure problem at slope bf/bw. */
  ghost predicate Weighted(cl: Cluster, rem: set<nat>, bf: int, bw: int, p: seq<int>) {
    && |p| == |cl.m|
    && forall v: nat :: v < |p| && v in rem ==> p[v] == bw * cl.m[v].fee - bf * cl.m[v].weight
  }

  function Objective(cl: Cluster, rem: set<nat>, bf: int, bw: int): (p: seq<int>)
    ensures |p| == |cl.m| && Weighted(cl, rem, bf, bw, p)
  {
    seq(|cl.m|, v requires 0 <= v < |cl.m| => if v in rem then cl.m[v].fee * bw - bf * cl.m[v].weight else 0)
  }

  /** The closure problem's objective is the gain at slope bf/bw, scaled by bw. */
  lemma ObjectiveIsGain(cl: Cluster, rem: set<nat>, bf: int, bw: int, p: seq<int>, A: set<nat>)
    requires Weighted(cl, rem, bf, bw, p) && A <= rem && bw > 0
    ensures Sum(p, A) as real == bw as real * Gain(cl, A, Rate(bf, bw))
  {
    SumToLinear(Fees(cl), Weights(cl), p, bw, -bf, A, |p|);
    ScaledWorth(Fee(cl, A), Weight(cl, A), bf, bw);
  }

  lemma ScaledWorth(F: int, W: int, bf: int, bw: int)
    requires bw > 0
    ensures (bw * F + -bf * W) as real == bw as real * Worth(F, W, Rate(bf, bw))
  {
    var r, k := Rate(bf, bw), bw as real;
    RateTimes(bf, bw);
    hide Rate;
    assert k * Worth(F, W, r) == k * F as real - (r * k) * W as real;
    assert (bw * F) as real == k * F as real;
    assert (-bf * W) as real == -(r * k) * W as real;
  }

  /** The closure found at slope bf/bw maximizes the gain there. */
  lemma ClosureMaximizes(cl: Cluster, rem: set<nat>, bf: int, bw: int, p: seq<int>, s: set<nat>, val: int)
    requires Weighted(cl, rem, bf, bw, p) && bw > 0 && Closed(cl, rem, s) && val == Sum(p, s)
    requires forall A: set<nat> :: Closed(cl, rem, A) ==> Sum(p, A) <= val
    ensures Maximizes(cl, rem, s, Rate(bf, bw))
    ensures val > 0 <==> Gain(cl, s, Rate(bf, bw)) > 0.0
  {
    var r, k := Rate(bf, bw), bw as real;
    ObjectiveIsGain(cl, rem, bf, bw, p, s);
    Scale(0.0, Gain(cl, s, r), k);
    forall A: set<nat> | Closed(cl, rem, A)
      ensures Gain(cl, A, r) <= Gain(cl, s, r)
    {
      ObjectiveIsGain(cl, rem, bf, bw, p, A);
      Scale(Gain(cl, s, r), Gain(cl, A, r), k);
    }
  }

  /** A best closure of positive gain at the current rate is strictly inside the last one and beats it. */
  lemma RoundImproves(cl: Cluster, rem: set<nat>, best: set<nat>, s: set<nat>, nested: bool, low: real)
    requires PositiveWeights(cl) && rem <= Below(|cl.m|) && best <= rem && best != {} && best * Below(|cl.m|) != {}
    requires Maximizes(cl, rem, s, SetRate(cl, best)) && Gain(cl, s, SetRate(cl, best)) > 0.0
    requires nested ==> Maximizes(cl, rem, best, low) && low < SetRate(cl, best)
    ensures s != {} && s * Below(|cl.m|) != {} && SetRate(cl, s) > SetRate(cl, best)
    ensures nested ==> s < best
  {
    var r := SetRate(cl, best);
    EmptySum(Fees(cl), |cl.m|);
    EmptySum(Weights(cl), |cl.m|);
    assert Gain(cl, {}, r) == 0.0;
    assert s * Below(|cl.m|) == s;
    SetWeight(cl, s);
    WorthSign(Fee(cl, s), Weight(cl, s), r);
    if nested {
      Nested(cl, rem, best, low, s, r);
      SetWeight(cl, best);
      WorthSign(Fee(cl, best), Weight(cl, best), r);
      assert Gain(cl, best, r) == 0.0;
      assert s != best;
    }
  }

  /** With no closed set gaining at its rate, a closed set has the highest feerate. */
  lemma NoGainIsHighest(cl: Cluster, rem: set<nat>, best: set<nat>, s: set<nat>)
    requires PositiveWeights(cl) && rem <= Below(|cl.m|) && Closed(cl, rem, best)
    requires best != {} && best * Below(|cl.m|) != {}
    requires Maximizes(cl, rem, s, SetRate(cl, best)) && Gain(cl, s, SetRate(cl, best)) <= 0.0
    ensures HighestRate(cl, rem, best)
  {
    var r := SetRate(cl, best);
    forall A: set<nat> | Closed(cl, rem, A) && A * Below(|cl.m|) != {}
      ensures SetRate(cl, A) <= r
    {
      SetWeight(cl, A);
      WorthSign(Fee(cl, A), Weight(cl, A), r);
      assert Gain(cl, A, r) <= 0.0;
    }
  }

  /** What the members of a set pay and weigh together. */
  method SetTotals(cl: Cluster, S: set<nat>) returns (fee: nat, weight: nat)
    ensures fee == Fee(cl, S) && weight == Weight(cl, S)
  {
    fee, weight := 0, 0;
    for i := 0 to |cl.m|
      invariant fee == SumTo(Fees(cl), S, i) && weight == SumTo(Weights(cl), S, i)
    {
      if i in S { fee, weight := fee + cl.m[i].fee, weight + cl.m[i].weight; }
    }
  }

  /** The state of Dinkelbach's iteration on a well-formed cluster: `best` is a
      closed set with totals bf and bw which, after the first round, maximizes
      the gain at the previous rate and has shrunk with every round since. */
  ghost predicate Climbing(cl: Cluster, rem: set<nat>, best: set<nat>, bf: int, bw: int, round: nat, low: real) {
    && PositiveWeights(cl) && rem <= Below(|cl.m|) && Closed(cl, rem, best)
    && best != {} && best * Below(|cl.m|) != {} && bf == Fee(cl, best) && bw == Weight(cl, best)
    && (round > 0 ==> Maximizes(cl, rem, best, low) && low < SetRate(cl, best) && round + |best| <= |rem| + 1)
  }

  lemma RoundStep(cl: Cluster, rem: set<nat>, best: set<nat>, bf: nat, bw: nat, round: nat, low: real,
                  p: seq<int>, s: set<nat>, val: int, f: nat, w: nat)
    requires Climbing(cl, rem, best, bf, bw, round, low) && Weighted(cl, rem, bf, bw, p)
    requires Closed(cl, rem, s) && val == Sum(p, s) && f == Fee(cl, s) && w == Weight(cl, s)
    requires forall A: set<nat> :: Closed(cl, rem, A) ==> Sum(p, A) <= val
    ensures bw > 0
    ensures val <= 0 ==> HighestRate(cl, rem, best)
    ensures val > 0 ==> s != {} && Climbing(cl, rem, s, f, w, round + 1, SetRate(cl, best)) && FeerateCmp(f, w, bf, bw) > 0
  {
    hide Maximizes;
    hide Gain;
    SetWeight(cl, best);
    assert SetRate(cl, best) == Rate(bf, bw);
    ClosureMaximizes(cl, rem, bf, bw, p, s, val);
    if val <= 0 {
      NoGainIsHighest(cl, rem, best, s);
    } else {
      RoundImproves(cl, rem, best, s, round > 0, low);
      SubsetSize(s, if round > 0 then best else rem);
      SetWeight(cl, s);
    }
  }

  lemma ClimbingStarts(cl: Cluster, rem: set<nat>, seed: set<nat>)
    requires WellFormed(cl) && rem <= Below(|cl.m|) && Closed(cl, rem, seed) && seed != {}
    ensures Climbing(cl, rem, seed, Fee(cl, seed), Weight(cl, seed), 0, 0.0) && |rem| <= MAX_CLUSTER == 64
  {
    SubsetSize(rem, Below(|cl.m|));
    assert seed * Below(|cl.m|) == seed;
  }

  lemma ClimbingFacts(cl: Cluster, rem: set<nat>, best: set<nat>, bf: int, bw: int, round: nat, low: real)
    requires Climbing(cl, rem, best, bf, bw, round, low)
    ensures bw > 0 && round <= |rem|
  {
    SetWeight(cl, best);
    assert |best| >= 1;
  }

  /** Improve `seed` while some closed subset of rem has a higher feerate. The
      round limit is never what stops a well-formed cluster. */
  method HighestClosure(cl: Cluster, rem: set<nat>, seed: set<nat>, sf: nat, sw: nat) returns (best: set<nat>, ghost rounds: nat)
    requires rem <= Below(|cl.m|) && {} < seed <= rem && sf == Fee(cl, seed) && sw == Weight(cl, seed)
    ensures {} < best <= rem
    ensures WellFormed(cl) && Closed(cl, rem, seed) ==> HighestRate(cl, rem, best) && rounds <= |rem| + 1
  {
    assert MAX_CLUSTER == 64;
    hide *;
    best := seed;
    var bf, bw := sf, sw;
    ghost var good, low := WellFormed(cl) && Closed(cl, rem, seed), 0.0;
    var round := 0;
    if good { ClimbingStarts(cl, rem, seed); }
    while round < 4 * MAX_CLUSTER && bw > 0
      invariant 0 <= round <= 4 * MAX_CLUSTER && {} < best <= rem
      invariant good ==> Climbing(cl, rem, best, bf, bw, round, low)
      decreases 4 * MAX_CLUSTER - round
    {
      var p := Objective(cl, rem, bf, bw);
      var s, val := MaxClosure(cl, rem, p);
      ClosedSubset(cl, rem, s);
      var f, w := SetTotals(cl, s);
      if good { RoundStep(cl, rem, best, bf, bw, round, low, p, s, val, f, w); }
      if val <= 0 || s == {} { break; }
      if FeerateCmp(f, w, bf, bw) <= 0 { break; }
      ghost var r := if good then SetRateOf(cl, rem, best, bf, bw, round, low) else 0.0;
      best, bf, bw, low := s, f, w, r;
      round := round + 1;
    }
    rounds := round + 1;
    if good { ClimbingFacts(cl, rem, best, bf, bw, round, low); }
  }

  ghost function SetRateOf(cl: Cluster, rem: set<nat>, best: set<nat>, bf: int, bw: int, round: nat, low: real): (r: real)
    requires Climbing(cl, rem, best, bf, bw, round, low)
    ensures r == SetRate(cl, best)
  {
    SetRate(cl, best)
  }

  lemma ClosedSubset(cl: Cluster, rem: set<nat>, A: set<nat>)
    requires Closed(cl, rem, A)
    ensures A <= rem
  {
  }
}
