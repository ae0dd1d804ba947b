/** Feerate diagrams: the cumulative fee against weight of a list of chunks,
    linear inside a chunk and flat past the end. */
module Diagrams {
  import opened Feerates

  datatype FeeFrac = FeeFrac(fee: nat, size: nat)

  ghost predicate Sized(d: seq<FeeFrac>) {
    forall i: nat :: i < |d| ==> d[i].size > 0
  }

  function TotalFee(d: seq<FeeFrac>): nat {
    if |d| == 0 then 0 else d[0].fee + TotalFee(d[1..])
  }

  function TotalSize(d: seq<FeeFrac>): nat {
    if |d| == 0 then 0 else d[0].size + TotalSize(d[1..])
  }

  /** The worth of the whole list at a slope. */
  ghost function ListWorth(d: seq<FeeFrac>, slope: real): real {
    Worth(TotalFee(d), TotalSize(d), slope)
  }

  ghost function FracRate(c: FeeFrac): real
    requires c.size > 0
  {
    Rate(c.fee, c.size)
  }

  /** The fee the diagram reaches at weight x. */
  ghost function At(d: seq<FeeFrac>, x: real): real
    requires Sized(d)
  {
    if |d| == 0 then 0.0
    else if x <= d[0].size as real then FracRate(d[0]) * x
    else d[0].fee as real + At(d[1..], x - d[0].size as real)
  }

  /** Feerates never rise along the list: the diagram is concave. */
  ghost predicate Falling(d: seq<FeeFrac>) {
    && Sized(d)
    && forall i: nat, j: nat :: i < j < |d| ==> FracRate(d[i]) >= FracRate(d[j])
  }

  /** A's diagram is nowhere below B's. */
  ghost predicate AtLeast(a: seq<FeeFrac>, b: seq<FeeFrac>)
    requires Sized(a) && Sized(b)
  {
    forall x: real :: x >= 0.0 ==> At(a, x) >= At(b, x)
  }

  /** No prefix of d is worth more than w at this slope. */
  ghost predicate Capped(d: seq<FeeFrac>, slope: real, w: real) {
    forall k: nat :: k <= |d| ==> ListWorth(d[..k], slope) <= w
  }

  /** At every slope, each prefix of B is matched by one of A. */
  ghost predicate DualAtLeast(a: seq<FeeFrac>, b: seq<FeeFrac>) {
    forall slope: real, j: nat :: slope >= 0.0 && j <= |b| ==> Matched(a, slope, ListWorth(b[..j], slope))
  }

  ghost predicate Matched(a: seq<FeeFrac>, slope: real, w: real) {
    exists k: nat :: k <= |a| && ListWorth(a[..k], slope) >= w
  }

  lemma {:induction false} TotalConcat(a: seq<FeeFrac>, b: seq<FeeFrac>)
    ensures TotalFee(a + b) == TotalFee(a) + TotalFee(b)
    ensures TotalSize(a + b) == TotalSize(a) + TotalSize(b)
  {
    if |a| == 0 {
      assert a + b == b;
    } else {
      assert (a + b)[1..] == a[1..] + b;
      TotalConcat(a[1..], b);
    }
  }

  lemma WorthConcat(a: seq<FeeFrac>, b: seq<FeeFrac>, slope: real)
    ensures ListWorth(a + b, slope) == ListWorth(a, slope) + ListWorth(b, slope)
  {
    TotalConcat(a, b);
    AddWorth(TotalFee(a), TotalSize(a), TotalFee(b), TotalSize(b), slope);
  }

  lemma AddWorth(f: int, w: int, g: int, v: int, slope: real)
    ensures Worth(f + g, w + v, slope) == Worth(f, w, slope) + Worth(g, v, slope)
  {
    assert slope * (w as real + v as real) == slope * w as real + slope * v as real;
  }

  lemma {:induction false} SizePositive(d: seq<FeeFrac>)
    requires Sized(d) && |d| > 0
    ensures TotalSize(d) > 0
  {
    if |d| > 1 { SizePositive(d[1..]); }
  }

  lemma Cons(d: seq<FeeFrac>, k: nat)
    requires 0 < k <= |d|
    ensures d[..k] == [d[0]] + d[1..][..k - 1]
  {
  }

  /** Dropping the first chunk shifts every prefix by it. */
  lemma TailWorth(d: seq<FeeFrac>, k: nat, slope: real)
    requires 0 < k <= |d|
    ensures ListWorth(d[..k], slope) == Worth(d[0].fee, d[0].size, slope) + ListWorth(d[1..][..k - 1], slope)
  {
    Cons(d, k);
    WorthConcat([d[0]], d[1..][..k - 1], slope);
    Single(d[0], slope);
  }

  lemma Single(c: FeeFrac, slope: real)
    ensures TotalFee([c]) == c.fee && TotalSize([c]) == c.size
    ensures ListWorth([c], slope) == Worth(c.fee, c.size, slope)
  {
    assert TotalFee([c]) == c.fee + TotalFee([c][1..]);
    assert TotalSize([c]) == c.size + TotalSize([c][1..]);
  }

  /** A line that clears every breakpoint of a diagram clears the diagram. */
  lemma {:induction false} UnderLine(d: seq<FeeFrac>, x: real, slope: real, w: real)
    requires Sized(d) && x >= 0.0 && slope >= 0.0 && Capped(d, slope, w)
    ensures At(d, x) <= slope * x + w
    decreases |d|
  {
    assert d[..0] == [];
    assert ListWorth(d[..0], slope) == 0.0;
    if |d| == 0 {
      assert slope * x >= 0.0;
    } else {
      var s, f := d[0].size as real, d[0].fee as real;
      var own := Worth(d[0].fee, d[0].size, slope);
      TailWorth(d, 1, slope);
      assert d[1..][..0] == [];
      assert own <= w;
      if x <= s {
        RateTimes(d[0].fee, d[0].size);
        UnderChord(FracRate(d[0]), s, x, slope, w);
      } else {
        forall k: nat | k <= |d[1..]|
          ensures ListWorth(d[1..][..k], slope) <= w - own
        {
          TailWorth(d, k + 1, slope);
        }
        UnderLine(d[1..], x - s, slope, w - own);
        assert slope * (x - s) == slope * x - slope * s;
      }
    }
  }

  /** A chord from (0, 0) to (s, r * s) lies under any line that clears both ends. */
  lemma UnderChord(r: real, s: real, x: real, slope: real, w: real)
    requires 0.0 <= x <= s && w >= 0.0 && r * s - slope * s <= w && s > 0.0
    ensures r * x <= slope * x + w
  {
    var g := r - slope;
    assert g * s == r * s - slope * s;
    assert g * x == r * x - slope * x;
    if g > 0.0 {
      assert g * (s - x) >= 0.0;
      assert g * (s - x) == g * s - g * x;
    } else {
      assert g * x <= 0.0;
    }
  }

  /** At a slope no chunk exceeds, no prefix is worth anything. */
  lemma {:induction false} SteepCaps(d: seq<FeeFrac>, slope: real, k: nat)
    requires Sized(d) && k <= |d|
    requires forall i: nat :: i < |d| ==> FracRate(d[i]) <= slope
    ensures ListWorth(d[..k], slope) <= 0.0
  {
    if k > 0 {
      TailWorth(d, k, slope);
      WorthSign(d[0].fee, d[0].size, slope);
      SteepCaps(d[1..], slope, k - 1);
    } else {
      assert d[..0] == [];
    }
  }

  /** A concave diagram has at every weight a supporting line through a breakpoint. */
  lemma {:induction false} Touches(d: seq<FeeFrac>, x: real, cap: real) returns (slope: real, k: nat)
    requires Falling(d) && x >= 0.0 && cap >= 0.0
    requires forall i: nat :: i < |d| ==> FracRate(d[i]) <= cap
    ensures 0.0 <= slope <= cap && k <= |d|
    ensures At(d, x) == slope * x + ListWorth(d[..k], slope)
    ensures Capped(d, slope, ListWorth(d[..k], slope))
    decreases |d|
  {
    hide Worth;
    hide Rate;
    slope, k := 0.0, 0;
    assert d[..0] == [];
    NoWorth(0.0);
    if |d| > 0 {
      var r, s := FracRate(d[0]), d[0].size as real;
      RateNonNegative(d[0]);
      if x <= s {
        slope := r;
        NoWorth(r);
        forall j: nat | j <= |d|
          ensures ListWorth(d[..j], slope) <= 0.0
        {
          SteepCaps(d, slope, j);
        }
      } else {
        slope, k := Touches(d[1..], x - s, r);
        TailTouches(d, x, slope, k);
        k := k + 1;
      }
    }
  }

  lemma NoWorth(slope: real)
    ensures ListWorth([], slope) == 0.0
  {
  }

  /** A supporting line of the tail supports the whole list. */
  lemma TailTouches(d: seq<FeeFrac>, x: real, slope: real, k: nat)
    requires Sized(d) && |d| > 0 && x > d[0].size as real && slope <= FracRate(d[0]) && k <= |d[1..]|
    requires At(d[1..], x - d[0].size as real) == slope * (x - d[0].size as real) + ListWorth(d[1..][..k], slope)
    requires Capped(d[1..], slope, ListWorth(d[1..][..k], slope))
    ensures At(d, x) == slope * x + ListWorth(d[..k + 1], slope)
    ensures Capped(d, slope, ListWorth(d[..k + 1], slope))
  {
    hide Capped;
    hide ListWorth;
    var s, f := d[0].size as real, d[0].fee as real;
    TailWorth(d, k + 1, slope);
    WorthSign(d[0].fee, d[0].size, slope);
    TailCaps(d, slope, ListWorth(d[1..][..k], slope));
    assert slope * (x - s) == slope * x - slope * s;
  }

  lemma RateNonNegative(c: FeeFrac)
    requires c.size > 0
    ensures FracRate(c) >= 0.0
  {
  }

  lemma TailCaps(d: seq<FeeFrac>, slope: real, w: real)
    requires |d| > 0 && Capped(d[1..], slope, w) && Worth(d[0].fee, d[0].size, slope) >= 0.0
    ensures Capped(d, slope, Worth(d[0].fee, d[0].size, slope) + w)
  {
    assert d[1..][..0] == [] && d[..0] == [];
    assert ListWorth(d[1..][..0], slope) == 0.0;
    forall j: nat | j <= |d|
      ensures ListWorth(d[..j], slope) <= Worth(d[0].fee, d[0].size, slope) + w
    {
      if j > 0 { TailWorth(d, j, slope); }
    }
  }

  lemma {:induction false} Breakpoint(d: seq<FeeFrac>, j: nat)
    requires Sized(d) && j <= |d|
    ensures At(d, TotalSize(d[..j]) as real) == TotalFee(d[..j]) as real
  {
    if j == 0 {
      assert d[..0] == [];
      assert |d| > 0 ==> FracRate(d[0]) * 0.0 == 0.0;
    } else {
      Cons(d, j);
      TotalConcat([d[0]], d[1..][..j - 1]);
      Single(d[0], 0.0);
      RateTimes(d[0].fee, d[0].size);
      if j > 1 { SizePositive(d[1..][..j - 1]); } else { assert d[1..][..0] == []; }
      Breakpoint(d[1..], j - 1);
    }
  }

  /** Some prefix is worth most. */
  lemma {:induction false} Peak(d: seq<FeeFrac>, slope: real, n: nat) returns (k: nat)
    requires n <= |d|
    ensures k <= n && forall j: nat :: j <= n ==> ListWorth(d[..j], slope) <= ListWorth(d[..k], slope)
  {
    k := 0;
    if n > 0 {
      k := Peak(d, slope, n - 1);
      if ListWorth(d[..n], slope) > ListWorth(d[..k], slope) { k := n; }
    }
  }

  /** For a concave diagram, lying nowhere below another is the same as matching
      its best prefix at every slope. */
  lemma PointwiseIsDual(a: seq<FeeFrac>, b: seq<FeeFrac>)
    requires Falling(a) && Sized(b)
    ensures AtLeast(a, b) <==> DualAtLeast(a, b)
  {
    if DualAtLeast(a, b) {
      forall x: real | x >= 0.0
        ensures At(a, x) >= At(b, x)
      {
        DualGivesPoint(a, b, x);
      }
    }
    if AtLeast(a, b) {
      forall slope: real, j: nat | slope >= 0.0 && j <= |b|
        ensures Matched(a, slope, ListWorth(b[..j], slope))
      {
        Breakpoint(b, j);
        assert At(a, TotalSize(b[..j]) as real) >= At(b, TotalSize(b[..j]) as real);
        PointGivesDual(a, b, slope, j);
      }
    }
  }

  lemma PointGivesDual(a: seq<FeeFrac>, b: seq<FeeFrac>, slope: real, j: nat)
    requires Sized(a) && slope >= 0.0 && j <= |b|
    requires At(a, TotalSize(b[..j]) as real) >= TotalFee(b[..j]) as real
    ensures Matched(a, slope, ListWorth(b[..j], slope))
  {
    var x := TotalSize(b[..j]) as real;
    var k := Peak(a, slope, |a|);
    UnderLine(a, x, slope, ListWorth(a[..k], slope));
    assert ListWorth(a[..k], slope) >= ListWorth(b[..j], slope);
  }

  lemma DualGivesPoint(a: seq<FeeFrac>, b: seq<FeeFrac>, x: real)
    requires Falling(a) && Sized(b) && DualAtLeast(a, b) && x >= 0.0
    ensures At(a, x) >= At(b, x)
  {
    var cap := if |a| > 0 then FracRate(a[0]) else 0.0;
    if |a| > 0 { RateNonNegative(a[0]); }
    var slope, k := Touches(a, x, cap);
    var w := ListWorth(a[..k], slope);
    forall j: nat | j <= |b|
      ensures ListWorth(b[..j], slope) <= w
    {
      assert Matched(a, slope, ListWorth(b[..j], slope));
      var i: nat :| i <= |a| && ListWorth(a[..i], slope) >= ListWorth(b[..j], slope);
    }
    UnderLine(b, x, slope, w);
  }

  /** A concave diagram is nowhere below another as soon as it is not below it at
      the other's breakpoints. */
  lemma BreakpointsDecide(a: seq<FeeFrac>, b: seq<FeeFrac>)
    requires Falling(a) && Sized(b)
    ensures AtLeast(a, b) <==>
      forall j: nat :: j <= |b| ==> At(a, TotalSize(b[..j]) as real) >= TotalFee(b[..j]) as real
  {
    if AtLeast(a, b) {
      forall j: nat | j <= |b|
        ensures At(a, TotalSize(b[..j]) as real) >= TotalFee(b[..j]) as real
      {
        Breakpoint(b, j);
      }
    }
    if forall j: nat :: j <= |b| ==> At(a, TotalSize(b[..j]) as real) >= TotalFee(b[..j]) as real {
      forall slope: real, j: nat | slope >= 0.0 && j <= |b|
        ensures Matched(a, slope, ListWorth(b[..j], slope))
      {
        PointGivesDual(a, b, slope, j);
      }
      PointwiseIsDual(a, b);
    }
  }
}
