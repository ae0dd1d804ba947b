/** A replacement's diagram: better on the clusters it touches is better on the whole pool. */
module Replacement {
  import opened Feerates
  import opened Diagrams
  import Compare = CompareChunks

  /** What the chunks that are worth something are worth together. */
  ghost function Gains(d: seq<FeeFrac>, slope: real): real {
    if d == [] then 0.0 else Gains(d[..|d| - 1], slope) + Surplus(d[|d| - 1], slope)
  }

  ghost function Surplus(c: FeeFrac, slope: real): real {
    if Worth(c.fee, c.size, slope) > 0.0 then Worth(c.fee, c.size, slope) else 0.0
  }

  lemma GainsNext(d: seq<FeeFrac>, c: FeeFrac, slope: real)
    ensures Gains(d + [c], slope) == Gains(d, slope) + Surplus(c, slope)
  {
    assert (d + [c])[..|d|] == d;
  }

  lemma {:induction false} GainsJoin(a: seq<FeeFrac>, b: seq<FeeFrac>, slope: real)
    ensures Gains(a + b, slope) == Gains(a, slope) + Gains(b, slope)
  {
    if b == [] {
      assert a + b == a;
    } else {
      var n := |b| - 1;
      GainsJoin(a, b[..n], slope);
      GainsNext(a + b[..n], b[n], slope);
      assert a + b[..n] + [b[n]] == a + b;
    }
  }

  lemma TakeOut(b: seq<FeeFrac>, i: nat)
    requires i < |b|
    ensures multiset(b[..i] + b[i + 1..]) == multiset(b) - multiset{b[i]}
  {
    assert b == b[..i] + [b[i]] + b[i + 1..];
  }

  lemma GainsWithout(b: seq<FeeFrac>, i: nat, slope: real)
    requires i < |b|
    ensures Gains(b, slope) == Gains(b[..i] + b[i + 1..], slope) + Surplus(b[i], slope)
  {
    hide Gains, Surplus;
    assert b == b[..i] + [b[i]] + b[i + 1..];
    GainsJoin(b[..i] + [b[i]], b[i + 1..], slope);
    GainsNext(b[..i], b[i], slope);
    GainsJoin(b[..i], b[i + 1..], slope);
  }

  /** The order does not matter. */
  lemma {:induction false} GainsShuffle(a: seq<FeeFrac>, b: seq<FeeFrac>, slope: real)
    requires multiset(a) == multiset(b)
    ensures Gains(a, slope) == Gains(b, slope)
    decreases |a|
  {
    hide Surplus, Gains;
    assert |a| == |multiset(a)| == |multiset(b)| == |b|;
    if a == [] {
      assert b == [];
    } else {
      var n := |a| - 1;
      assert a[n] in multiset(a) && a[n] in b;
      var i: nat :| i < |b| && b[i] == a[n];
      TakeOut(a, n);
      TakeOut(b, i);
      GainsWithout(a, n, slope);
      GainsWithout(b, i, slope);
      GainsShuffle(a[..n] + a[n + 1..], b[..i] + b[i + 1..], slope);
    }
  }

  /** No prefix is worth more than that. */
  lemma {:induction false} GainsCap(d: seq<FeeFrac>, slope: real, k: nat)
    requires k <= |d|
    ensures ListWorth(d[..k], slope) <= Gains(d, slope) && Gains(d, slope) >= 0.0
    decreases |d|
  {
    if d == [] {
      assert d[..k] == [];
      NoWorth(slope);
    } else {
      var n := |d| - 1;
      if k <= n {
        GainsCap(d[..n], slope, k);
        assert d[..n][..k] == d[..k];
      } else {
        GainsCap(d[..n], slope, n);
        assert d[..n][..n] == d[..n] && d[..k] == d[..n] + [d[n]];
        WorthConcat(d[..n], [d[n]], slope);
        Single(d[n], slope);
      }
    }
  }

  /** And where feerates fall some prefix is worth just that. */
  lemma {:induction false} GainsReached(d: seq<FeeFrac>, slope: real) returns (k: nat)
    requires Falling(d)
    ensures k <= |d| && ListWorth(d[..k], slope) == Gains(d, slope)
    ensures k < |d| ==> FracRate(d[|d| - 1]) <= slope
    decreases |d|
  {
    if d == [] {
      k := 0;
      assert d[..0] == [];
      NoWorth(slope);
    } else {
      var n := |d| - 1;
      k := GainsReached(d[..n], slope);
      assert d[..n][..k] == d[..k];
      WorthSign(d[n].fee, d[n].size, slope);
      if k < n { FallsOn(d, slope); }
      if Worth(d[n].fee, d[n].size, slope) > 0.0 {
        assert d[..n + 1] == d[..n] + [d[n]];
        WorthConcat(d[..n], [d[n]], slope);
        Single(d[n], slope);
        k := n + 1;
      }
    }
  }

  lemma FallsOn(d: seq<FeeFrac>, slope: real)
    requires Falling(d) && |d| > 1 && FracRate(d[|d| - 2]) <= slope
    ensures FracRate(d[|d| - 1]) <= slope
  {
    hide FracRate;
    assert FracRate(d[|d| - 2]) >= FracRate(d[|d| - 1]);
  }

  ghost predicate GainsMore(a: seq<FeeFrac>, b: seq<FeeFrac>) {
    forall slope: real :: slope >= 0.0 ==> Gains(a, slope) >= Gains(b, slope)
  }

  /** One diagram is nowhere below another exactly when its chunks gain at least as much at every slope. */
  lemma GainsDecide(a: seq<FeeFrac>, b: seq<FeeFrac>)
    requires Falling(a) && Falling(b)
    ensures AtLeast(a, b) <==> GainsMore(a, b)
  {
    hide AtLeast, Falling, ListWorth, Gains;
    FallingSized(b);
    PointwiseIsDual(a, b);
    if DualAtLeast(a, b) {
      forall slope: real | slope >= 0.0 ensures Gains(a, slope) >= Gains(b, slope) {
        var j := GainsReached(b, slope);
        assert Matched(a, slope, ListWorth(b[..j], slope));
        var k: nat :| k <= |a| && ListWorth(a[..k], slope) >= ListWorth(b[..j], slope);
        GainsCap(a, slope, k);
      }
    }
    if GainsMore(a, b) {
      forall slope: real, j: nat | slope >= 0.0 && j <= |b| ensures Matched(a, slope, ListWorth(b[..j], slope)) {
        GainsCap(b, slope, j);
        var k := GainsReached(a, slope);
        assert Gains(a, slope) >= Gains(b, slope);
      }
    }
  }

  lemma FallingSized(d: seq<FeeFrac>)
    requires Falling(d)
    ensures Sized(d)
  {
  }

  /** The chunks of a pool: those of the clusters a replacement touches among the rest, best first. */
  ghost predicate Merged(whole: seq<FeeFrac>, rest: seq<FeeFrac>, touched: seq<FeeFrac>) {
    Falling(whole) && multiset(whole) == multiset(rest + touched)
  }

  /** The pool's diagram after is nowhere below the one before exactly when the touched clusters' is: the rest has no part in it. */
  lemma RestDropsOut(rest: seq<FeeFrac>, before: seq<FeeFrac>, after: seq<FeeFrac>, was: seq<FeeFrac>, becomes: seq<FeeFrac>)
    requires Falling(before) && Falling(after) && Merged(was, rest, before) && Merged(becomes, rest, after)
    ensures AtLeast(becomes, was) <==> AtLeast(after, before)
  {
    hide AtLeast, Falling, Gains;
    GainsDecide(after, before);
    GainsDecide(becomes, was);
    forall slope: real
      ensures Gains(becomes, slope) - Gains(was, slope) == Gains(after, slope) - Gains(before, slope)
    {
      GainsShuffle(becomes, rest + after, slope);
      GainsShuffle(was, rest + before, slope);
      GainsJoin(rest, after, slope);
      GainsJoin(rest, before, slope);
    }
  }

  /** Where a chunk goes among chunks that fall: after the last that pays no less. */
  method PutIn(d: seq<FeeFrac>, c: FeeFrac) returns (r: seq<FeeFrac>)
    requires Falling(d) && c.size > 0
    ensures Falling(r) && multiset(r) == multiset(d) + multiset{c}
  {
    hide Falling, FracRate, FeerateCmp, Rate;
    FallingSized(d);
    var i := |d|;
    while i > 0 && FeerateCmp(c.fee, c.size, d[i - 1].fee, d[i - 1].size) > 0
      invariant 0 <= i <= |d| && forall k: nat :: i <= k < |d| ==> FeerateCmp(c.fee, c.size, d[k].fee, d[k].size) > 0
    {
      i := i - 1;
    }
    r := d[..i] + [c] + d[i..];
    PutFalls(d, c, i);
    PutSame(d, c, i);
  }

  lemma PutSame(d: seq<FeeFrac>, c: FeeFrac, i: nat)
    requires i <= |d|
    ensures multiset(d[..i] + [c] + d[i..]) == multiset(d) + multiset{c}
  {
    assert d == d[..i] + d[i..];
  }

  lemma PutFalls(d: seq<FeeFrac>, c: FeeFrac, i: nat)
    requires Falling(d) && c.size > 0 && i <= |d|
    requires i > 0 ==> FeerateCmp(c.fee, c.size, d[i - 1].fee, d[i - 1].size) <= 0
    requires forall k: nat :: i <= k < |d| ==> FeerateCmp(c.fee, c.size, d[k].fee, d[k].size) > 0
    ensures Falling(d[..i] + [c] + d[i..])
  {
    forall k: nat | k < |d| ensures FeerateCmp(c.fee, c.size, d[k].fee, d[k].size) > 0 <==> FracRate(c) > FracRate(d[k]) { }
    PutRates(d, c, i);
  }

  lemma PutRates(d: seq<FeeFrac>, c: FeeFrac, i: nat)
    requires Falling(d) && c.size > 0 && i <= |d|
    requires (i > 0 ==> FracRate(d[i - 1]) >= FracRate(c)) && forall k: nat :: i <= k < |d| ==> FracRate(d[k]) < FracRate(c)
    ensures Falling(d[..i] + [c] + d[i..])
  {
    hide FracRate;
    var r := d[..i] + [c] + d[i..];
    forall k: nat | k < |r| ensures r[k] == (if k < i then d[k] else if k == i then c else d[k - 1]) { }
    forall k: nat | k < i ensures FracRate(d[k]) >= FracRate(c) { if k < i - 1 { assert FracRate(d[k]) >= FracRate(d[i - 1]); } }
    forall a: nat, b: nat | a < b < |r| ensures FracRate(r[a]) >= FracRate(r[b]) { }
  }

  /** Chunks of several clusters, best first. */
  method BestFirst(d: seq<FeeFrac>) returns (r: seq<FeeFrac>)
    requires Sized(d)
    ensures Falling(r) && multiset(r) == multiset(d)
  {
    hide Falling;
    r := [];
    NoneFalls();
    for k := 0 to |d|
      invariant Falling(r) && multiset(r) == multiset(d[..k])
    {
      r := PutIn(r, d[k]);
      assert d[..k + 1] == d[..k] + [d[k]];
    }
    assert d[..|d|] == d;
  }

  lemma NoneFalls()
    ensures Falling([])
  {
  }

  ghost predicate Better(a: seq<FeeFrac>, b: seq<FeeFrac>)
    requires Sized(a) && Sized(b)
  {
    AtLeast(a, b) && !AtLeast(b, a)
  }

  /** Whether the chunks after a replacement strictly improve on those before: exactly when the whole pool's diagram is strictly
      improved, whatever else is in the pool. */
  method Improves(before: seq<FeeFrac>, after: seq<FeeFrac>) returns (yes: bool)
    requires Sized(before) && Sized(after)
    ensures forall rest: seq<FeeFrac>, was: seq<FeeFrac>, becomes: seq<FeeFrac> ::
      Merged(was, rest, before) && Merged(becomes, rest, after) ==> (yes <==> Better(becomes, was))
  {
    var cb := BestFirst(before);
    var ca := BestFirst(after);
    var r := Compare.CompareChunks(ca, cb);
    yes := r == 1;
    forall rest: seq<FeeFrac>, was: seq<FeeFrac>, becomes: seq<FeeFrac> | Merged(was, rest, before) && Merged(becomes, rest, after)
      ensures yes <==> Better(becomes, was)
    {
      WholeDecides(rest, before, after, cb, ca, was, becomes, r);
    }
  }

  lemma WholeDecides(rest: seq<FeeFrac>, before: seq<FeeFrac>, after: seq<FeeFrac>, cb: seq<FeeFrac>, ca: seq<FeeFrac>,
                     was: seq<FeeFrac>, becomes: seq<FeeFrac>, r: int)
    requires Merged(was, rest, before) && Merged(becomes, rest, after) && Falling(cb) && Falling(ca)
    requires multiset(cb) == multiset(before) && multiset(ca) == multiset(after) && Compare.Verdict(ca, cb, r)
    ensures r == 1 <==> Better(becomes, was)
  {
    hide Falling, AtLeast;
    assert multiset(rest + before) == multiset(rest + cb) && multiset(rest + after) == multiset(rest + ca);
    RestDropsOut(rest, cb, ca, was, becomes);
    RestDropsOut(rest, ca, cb, becomes, was);
    FallingSized(was); FallingSized(becomes);
  }
}
