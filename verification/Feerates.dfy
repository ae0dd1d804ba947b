/** Feerates compared without division, and the gain of a set at a slope. */
module Feerates {
  import opened Sums
  import opened Clusters

  /** Fee per weight, for a positive weight. */
  ghost function Rate(fee: int, weight: int): real
    requires weight > 0
  {
    fee as real / weight as real
  }

  /** Compare fee_a/wt_a with fee_b/wt_b by cross-multiplication; a zero weight ranks lowest. */
  function FeerateCmp(feeA: nat, wtA: nat, feeB: nat, wtB: nat): (r: int)
    ensures r == -1 || r == 0 || r == 1
    ensures wtA > 0 && wtB > 0 ==> (r > 0 <==> Rate(feeA, wtA) > Rate(feeB, wtB))
    ensures wtA > 0 && wtB > 0 ==> (r < 0 <==> Rate(feeA, wtA) < Rate(feeB, wtB))
    ensures wtA == 0 ==> (r == 0 <==> wtB == 0) && r <= 0
    ensures wtB == 0 ==> (r == 0 <==> wtA == 0) && r >= 0
  {
    if wtA == 0 && wtB == 0 then 0
    else if wtA == 0 then -1
    else if wtB == 0 then 1
    else
      var l, r := feeA * wtB, feeB * wtA;
      CrossMultiply(feeA, wtA, feeB, wtB);
      if l < r then -1 else if l > r then 1 else 0
  }

  lemma CrossMultiply(feeA: int, wtA: int, feeB: int, wtB: int)
    requires wtA > 0 && wtB > 0
    ensures feeA * wtB < feeB * wtA <==> Rate(feeA, wtA) < Rate(feeB, wtB)
    ensures feeA * wtB > feeB * wtA <==> Rate(feeA, wtA) > Rate(feeB, wtB)
  {
    RateTimes(feeA, wtA);
    RateTimes(feeB, wtB);
    CrossReal(Rate(feeA, wtA), wtA as real, Rate(feeB, wtB), wtB as real);
    assert (feeA * wtB) as real == feeA as real * wtB as real;
    assert (feeB * wtA) as real == feeB as real * wtA as real;
  }

  lemma RateTimes(fee: int, weight: int)
    requires weight > 0
    ensures Rate(fee, weight) * weight as real == fee as real
  {
  }

  lemma CrossReal(a: real, u: real, b: real, v: real)
    requires u > 0.0 && v > 0.0
    ensures a < b <==> (a * u) * v < (b * v) * u
    ensures a > b <==> (a * u) * v > (b * v) * u
  {
    var k := u * v;
    assert (a * u) * v == a * k && (b * v) * u == b * k;
    assert k > 0.0;
    Scale(a, b, k);
    Scale(b, a, k);
  }

  lemma Scale(a: real, b: real, k: real)
    requires k > 0.0
    ensures a < b <==> a * k < b * k
  {
    if a < b { assert (b - a) * k > 0.0; }
    if a >= b { assert (a - b) * k >= 0.0; }
  }

  /** What a fee and weight are worth beyond paying `slope` per unit of weight. */
  ghost function Worth(fee: int, weight: int, slope: real): real {
    fee as real - slope * weight as real
  }

  ghost function Gain(cl: Cluster, S: set<nat>, slope: real): real {
    Worth(Fee(cl, S), Weight(cl, S), slope)
  }

  /** Worth decides comparison with a rate. */
  lemma WorthSign(fee: int, weight: int, slope: real)
    requires weight > 0
    ensures Worth(fee, weight, slope) > 0.0 <==> Rate(fee, weight) > slope
    ensures Worth(fee, weight, slope) < 0.0 <==> Rate(fee, weight) < slope
  {
    RateTimes(fee, weight);
    Scale(slope, Rate(fee, weight), weight as real);
    Scale(Rate(fee, weight), slope, weight as real);
  }

  /** A steeper slope is worth less, by the weight. */
  lemma WorthFalls(fee: int, weight: int, low: real, high: real)
    requires weight >= 0 && low <= high
    ensures Worth(fee, weight, low) >= Worth(fee, weight, high)
    ensures weight > 0 && low < high ==> Worth(fee, weight, low) > Worth(fee, weight, high)
  {
    var k := weight as real;
    assert Worth(fee, weight, low) - Worth(fee, weight, high) == (high - low) * k;
    assert (high - low) * k >= 0.0;
    if weight > 0 && low < high { assert (high - low) * k > 0.0; }
  }

  lemma GainSplit(cl: Cluster, A: set<nat>, B: set<nat>, slope: real)
    ensures Gain(cl, B, slope) == Gain(cl, B * A, slope) + Gain(cl, B - A, slope)
  {
    SumSplit(Fees(cl), A, B);
    SumSplit(Weights(cl), A, B);
    var x, y := Weight(cl, B * A) as real, Weight(cl, B - A) as real;
    assert slope * (x + y) == slope * x + slope * y;
  }

  lemma GainUnion(cl: Cluster, A: set<nat>, B: set<nat>, slope: real)
    requires A !! B
    ensures Gain(cl, A + B, slope) == Gain(cl, A, slope) + Gain(cl, B, slope)
  {
    GainSplit(cl, A, A + B, slope);
    assert (A + B) * A == A && (A + B) - A == B;
  }

  lemma SetWeight(cl: Cluster, S: set<nat>)
    requires PositiveWeights(cl)
    ensures Weight(cl, S) >= 0 && Fee(cl, S) >= 0
    ensures S * Below(|cl.m|) != {} ==> Weight(cl, S) > 0
  {
    SumToMonotone(Weights(cl), S, |cl.m|);
    SumToMonotone(Fees(cl), S, |cl.m|);
    if S * Below(|cl.m|) != {} {
      var i :| i in S * Below(|cl.m|);
      assert Weights(cl)[i] <= Weight(cl, S);
    }
  }

  lemma GainFalls(cl: Cluster, S: set<nat>, low: real, high: real)
    requires PositiveWeights(cl) && low <= high
    ensures Gain(cl, S, low) >= Gain(cl, S, high)
    ensures S * Below(|cl.m|) != {} && low < high ==> Gain(cl, S, low) > Gain(cl, S, high)
  {
    SetWeight(cl, S);
    WorthFalls(Fee(cl, S), Weight(cl, S), low, high);
  }
}
