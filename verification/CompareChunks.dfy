/** The replacement rule's diagram comparison: two chunk lists walked together,
    breakpoint by breakpoint. */
module CompareChunks {
  import opened Feerates
  import opened Diagrams

  /** The walk along one list: k chunks passed, ending at (f, s), and the next
      breakpoint, if any, still ahead of weight X. */
  ghost predicate Side(c: seq<FeeFrac>, k: nat, f: int, s: int, X: int) {
    && Sized(c) && k <= |c| && f == TotalFee(c[..k]) && s == TotalSize(c[..k]) && 0 <= s <= X
    && (k < |c| ==> X < s + c[k].size)
  }

  /** Somewhere up to weight X diagram a is above b. */
  ghost predicate Above(a: seq<FeeFrac>, b: seq<FeeFrac>, X: real)
    requires Sized(a) && Sized(b)
  {
    exists x: real :: 0.0 <= x <= X && At(a, x) > At(b, x)
  }

  /** What the walk's side runs along after X. */
  ghost function Slope(c: seq<FeeFrac>, k: nat): real
    requires Sized(c) && k <= |c|
  {
    if k < |c| then FracRate(c[k]) else 0.0
  }

  /** A diagram past its first k chunks is the diagram of the rest. */
  lemma {:induction false} Shift(d: seq<FeeFrac>, k: nat, y: real)
    requires Sized(d) && k <= |d| && y >= 0.0
    ensures At(d, TotalSize(d[..k]) as real + y) == TotalFee(d[..k]) as real + At(d[k..], y)
  {
    if k == 0 {
      assert d[..0] == [] && d[0..] == d;
    } else {
      Shift(d[1..], k - 1, y);
      Cons(d, k);
      TotalConcat([d[0]], d[1..][..k - 1]);
      Single(d[0], 0.0);
      assert d[1..][k - 1..] == d[k..];
      var x := TotalSize(d[..k]) as real + y;
      if x == d[0].size as real {
        RateTimes(d[0].fee, d[0].size);
        assert TotalSize(d[1..][..k - 1]) == 0 && y == 0.0;
        AtZero(d[1..]);
      }
    }
  }

  lemma AtZero(d: seq<FeeFrac>)
    requires Sized(d)
    ensures At(d, 0.0) == 0.0
  {
    Breakpoint(d, 0);
    assert d[..0] == [];
  }

  /** The line through (s, f) of slope r. */
  ghost function Line(f: real, r: real, s: real, x: real): real {
    f + r * (x - s)
  }

  /** Up to its next breakpoint a side is a straight line. */
  lemma OnLine(c: seq<FeeFrac>, k: nat, f: int, s: int, X: int, x: real)
    requires Side(c, k, f, s, X) && x >= s as real
    requires k < |c| ==> x <= s as real + c[k].size as real
    ensures At(c, x) == Line(f as real, Slope(c, k), s as real, x)
  {
    hide TotalFee;
    hide TotalSize;
    hide At;
    Shift(c, k, x - s as real);
    FirstLine(c[k..], x - s as real);
  }

  lemma FirstLine(d: seq<FeeFrac>, y: real)
    requires Sized(d) && y >= 0.0 && (|d| > 0 ==> y <= d[0].size as real)
    ensures At(d, y) == Slope(d, 0) * y
  {
  }

  /** Between breakpoints the walk misses nothing: a diagram that rises above the
      other by weight Y was above it by X or is above it at Y. */
  lemma NothingBetween(a: seq<FeeFrac>, ka: nat, fa: int, sa: int, b: seq<FeeFrac>, kb: nat, fb: int, sb: int, X: int, Y: int)
    requires Side(a, ka, fa, sa, X) && Side(b, kb, fb, sb, X) && X <= Y
    requires (ka < |a| ==> Y <= sa + a[ka].size) && (kb < |b| ==> Y <= sb + b[kb].size)
    ensures Above(a, b, Y as real) <==> Above(a, b, X as real) || At(a, Y as real) > At(b, Y as real)
  {
    if Above(a, b, X as real) {
      var x :| 0.0 <= x <= X as real && At(a, x) > At(b, x);
      assert 0.0 <= x <= Y as real;
    }
    if At(a, Y as real) > At(b, Y as real) {
      assert Above(a, b, Y as real);
    }
    if Above(a, b, Y as real) && !Above(a, b, X as real) {
      var x :| 0.0 <= x <= Y as real && At(a, x) > At(b, x);
      StaysAbove(a, ka, fa, sa, b, kb, fb, sb, X, Y, x);
    }
  }

  lemma StaysAbove(a: seq<FeeFrac>, ka: nat, fa: int, sa: int, b: seq<FeeFrac>, kb: nat, fb: int, sb: int, X: int, Y: int, x: real)
    requires Side(a, ka, fa, sa, X) && Side(b, kb, fb, sb, X) && X <= Y
    requires (ka < |a| ==> Y <= sa + a[ka].size) && (kb < |b| ==> Y <= sb + b[kb].size)
    requires 0.0 <= x <= Y as real && At(a, x) > At(b, x) && !Above(a, b, X as real)
    ensures At(a, Y as real) > At(b, Y as real)
  {
    assert x > X as real;
    assert At(a, X as real) <= At(b, X as real);
    hide *;
    OnLine(a, ka, fa, sa, X, x);
    OnLine(b, kb, fb, sb, X, x);
    OnLine(a, ka, fa, sa, X, X as real);
    OnLine(b, kb, fb, sb, X, X as real);
    OnLine(a, ka, fa, sa, X, Y as real);
    OnLine(b, kb, fb, sb, X, Y as real);
    LinesCross(fa as real, Slope(a, ka), sa as real, fb as real, Slope(b, kb), sb as real, X as real, x, Y as real);
  }

  /** A line that is not above another at X but is at x stays above it at Y. */
  lemma LinesCross(fa: real, ra: real, sa: real, fb: real, rb: real, sb: real, X: real, x: real, Y: real)
    requires X < x <= Y
    requires Line(fa, ra, sa, X) <= Line(fb, rb, sb, X)
    requires Line(fa, ra, sa, x) > Line(fb, rb, sb, x)
    ensures Line(fa, ra, sa, Y) > Line(fb, rb, sb, Y)
  {
    LineStep(fa, ra, sa, X, x);
    LineStep(fb, rb, sb, X, x);
    LineStep(fa, ra, sa, x, Y);
    LineStep(fb, rb, sb, x, Y);
    Scale(rb, ra, x - X);
    assert (ra - rb) * (Y - x) >= 0.0;
    assert (ra - rb) * (Y - x) == ra * (Y - x) - rb * (Y - x);
  }

  lemma LineStep(f: real, r: real, s: real, x: real, y: real)
    ensures Line(f, r, s, y) == Line(f, r, s, x) + r * (y - x)
  {
  }

  /** Past both ends nothing changes any more. */
  lemma WalkedAll(a: seq<FeeFrac>, fa: int, sa: int, b: seq<FeeFrac>, fb: int, sb: int, X: int)
    requires Side(a, |a|, fa, sa, X) && Side(b, |b|, fb, sb, X)
    ensures Above(a, b, X as real) <==> !AtLeast(b, a)
  {
    if !AtLeast(b, a) {
      var x: real :| x >= 0.0 && At(b, x) < At(a, x);
      if x > X as real {
        OnLine(a, |a|, fa, sa, X, x);
        OnLine(b, |b|, fb, sb, X, x);
        OnLine(a, |a|, fa, sa, X, X as real);
        OnLine(b, |b|, fb, sb, X, X as real);
        assert 0.0 <= X as real && At(a, X as real) > At(b, X as real);
      }
    }
  }

  /** The larger of the two walks' weights. */
  function Max(a: int, b: int): int { if a >= b then a else b }

  /** After advancing side u to its next point P, the walk stands at P's weight. */
  lemma Advance(c: seq<FeeFrac>, k: nat, f: int, s: int, X: int)
    requires Side(c, k, f, s, X) && k < |c|
    ensures Side(c, k + 1, f + c[k].fee, s + c[k].size, s + c[k].size)
  {
    assert c[..k + 1] == c[..k] + [c[k]];
    TotalConcat(c[..k], [c[k]]);
    Single(c[k], 0.0);
  }

  lemma Wait(c: seq<FeeFrac>, k: nat, f: int, s: int, X: int, Y: int)
    requires Side(c, k, f, s, X) && X <= Y && (k < |c| ==> Y < s + c[k].size)
    ensures Side(c, k, f, s, Y)
  {
  }

  /** The sign the code computes for point (pf, ps) against the line through
      (f, s) and (f + g, s + z): by cross-multiplied slopes. */
  lemma SlopeSign(f: int, s: int, g: int, z: int, pf: int, ps: int)
    requires z > 0
    ensures var l, r := (pf - f) * z, g * (ps - s); var y := Line(f as real, Rate(g, z), s as real, ps as real);
      (l > r <==> pf as real > y) && (l < r <==> pf as real < y)
  {
    var y := Line(f as real, Rate(g, z), s as real, ps as real);
    var k, q := z as real, (ps - s) as real;
    RateTimes(g, z);
    assert (pf as real - y) * k == ((pf - f) * z) as real - (g * (ps - s)) as real by {
      assert ((pf - f) * z) as real == (pf - f) as real * k;
      assert (g * (ps - s)) as real == g as real * q;
      assert Rate(g, z) * q * k == (Rate(g, z) * k) * q;
      assert (pf as real - y) * k == (pf - f) as real * k - Rate(g, z) * q * k;
    }
    Scale(y, pf as real, k);
    Scale(pf as real, y, k);
  }

  /** r answers the comparison of the two diagrams at every weight. */
  ghost predicate Verdict(c0: seq<FeeFrac>, c1: seq<FeeFrac>, r: int)
    requires Sized(c0) && Sized(c1)
  {
    && r in {-1, 0, 1, 2}
    && (r == 1 <==> AtLeast(c0, c1) && !AtLeast(c1, c0))
    && (r == -1 <==> !AtLeast(c0, c1) && AtLeast(c1, c0))
    && (r == 0 <==> AtLeast(c0, c1) && AtLeast(c1, c0))
    && (r == 2 <==> !AtLeast(c0, c1) && !AtLeast(c1, c0))
  }

  /** The verdict on two chunk lists, reached at the breakpoints of both: which diagram
      is nowhere below the other. */
  method CompareChunks(c0: seq<FeeFrac>, c1: seq<FeeFrac>) returns (r: int)
    requires Sized(c0) && Sized(c1)
    ensures Verdict(c0, c1, r)
  {
    hide *;
    var k0, k1, f0, f1, s0, s1 := 0, 0, 0, 0, 0, 0;
    var better0, better1 := false, false;
    WalkStarts(c0, c1);
    while !(k0 == |c0| && k1 == |c1|)
      invariant k0 <= |c0| && k1 <= |c1| && !(better0 && better1)
      invariant Side(c0, k0, f0, s0, Max(s0, s1)) && Side(c1, k1, f1, s1, Max(s0, s1))
      invariant better0 <==> Above(c0, c1, Max(s0, s1) as real)
      invariant better1 <==> Above(c1, c0, Max(s0, s1) as real)
      decreases |c0| - k0 + |c1| - k1
    {
      var done0, done1 := k0 == |c0|, k1 == |c1|;
      var cmp;
      ghost var X := Max(s0, s1);
      if if done0 || done1 then done0 else s0 + c0[k0].size > s1 + c1[k1].size {
        cmp := PointAgainst(c1, k1, f1, s1, c0, k0, f0, s0, X);
        Step(c1, k1, f1, s1, c0, k0, f0, s0, X, false, cmp);   // the other point is strictly farther
        if cmp > 0 { better1 := true; }
        if cmp < 0 { better0 := true; }
        f1, s1, k1 := f1 + c1[k1].fee, s1 + c1[k1].size, k1 + 1;
      } else {
        cmp := PointAgainst(c0, k0, f0, s0, c1, k1, f1, s1, X);
        var tie := !done1 && s0 + c0[k0].size == s1 + c1[k1].size;
        Step(c0, k0, f0, s0, c1, k1, f1, s1, X, tie, cmp);
        if tie { f1, s1, k1 := f1 + c1[k1].fee, s1 + c1[k1].size, k1 + 1; }
        if cmp > 0 { better0 := true; }
        if cmp < 0 { better1 := true; }
        f0, s0, k0 := f0 + c0[k0].fee, s0 + c0[k0].size, k0 + 1;
      }
      if better0 && better1 {
        AboveRefutes(c0, c1, Max(s0, s1) as real);
        AboveRefutes(c1, c0, Max(s0, s1) as real);
        Decide(c0, c1, better0, better1);
        return 2;
      }
    }
    WalkedAll(c0, f0, s0, c1, f1, s1, Max(s0, s1));
    WalkedAll(c1, f1, s1, c0, f0, s0, Max(s0, s1));
    Decide(c0, c1, better0, better1);
    r := (if better0 then 1 else 0) - (if better1 then 1 else 0);
  }

  lemma Decide(c0: seq<FeeFrac>, c1: seq<FeeFrac>, better0: bool, better1: bool)
    requires Sized(c0) && Sized(c1)
    requires (better0 <==> !AtLeast(c1, c0)) && (better1 <==> !AtLeast(c0, c1))
    ensures Verdict(c0, c1, if better0 && better1 then 2 else (if better0 then 1 else 0) - (if better1 then 1 else 0))
  {
  }

  lemma WalkStarts(c0: seq<FeeFrac>, c1: seq<FeeFrac>)
    requires Sized(c0) && Sized(c1)
    ensures Side(c0, 0, 0, 0, Max(0, 0)) && Side(c1, 0, 0, 0, Max(0, 0))
    ensures !Above(c0, c1, Max(0, 0) as real) && !Above(c1, c0, Max(0, 0) as real)
  {
    AtZero(c0);
    AtZero(c1);
    assert c0[..0] == [] && c1[..0] == [];
  }

  lemma AboveRefutes(a: seq<FeeFrac>, b: seq<FeeFrac>, X: real)
    requires Sized(a) && Sized(b) && Above(a, b, X)
    ensures !AtLeast(b, a)
  {
  }

  /** Side u's next point against the other side, by slopes, or against the flat end of it. */
  method PointAgainst(c: seq<FeeFrac>, k: nat, f: int, s: int, o: seq<FeeFrac>, ok: nat, of_: int, os: int, ghost X: int)
    returns (cmp: int)
    requires Side(c, k, f, s, X) && Side(o, ok, of_, os, X) && k < |c|
    requires ok < |o| ==> s + c[k].size <= os + o[ok].size
    ensures var Y := (s + c[k].size) as real;
      (cmp > 0 <==> At(c, Y) > At(o, Y)) && (cmp < 0 <==> At(c, Y) < At(o, Y))
  {
    var pf, ps := f + c[k].fee, s + c[k].size;
    var sapf, saps := pf - of_, ps - os;
    PointOnDiagram(c, k, f, s, X);
    OnLine(o, ok, of_, os, X, ps as real);
    if ok == |o| {
      cmp := if sapf > 0 then 1 else if sapf < 0 then -1 else 0;
    } else {
      var l, r := sapf * o[ok].size, o[ok].fee * saps;
      SlopeSign(of_, os, o[ok].fee, o[ok].size, pf, ps);
      cmp := if l > r then 1 else if l < r then -1 else 0;
    }
  }

  lemma PointOnDiagram(c: seq<FeeFrac>, k: nat, f: int, s: int, X: int)
    requires Side(c, k, f, s, X) && k < |c|
    ensures At(c, (s + c[k].size) as real) == (f + c[k].fee) as real && s + c[k].size > X
  {
    Advance(c, k, f, s, X);
    Breakpoint(c, k + 1);
  }

  /** One step of the walk, taken by side c against side o. */
  lemma Step(c: seq<FeeFrac>, k: nat, f: int, s: int, o: seq<FeeFrac>, ok: nat, of_: int, os: int, X: int, tie: bool, cmp: int)
    requires Side(c, k, f, s, X) && Side(o, ok, of_, os, X) && k < |c|
    requires ok < |o| ==> s + c[k].size <= os + o[ok].size
    requires tie <==> ok < |o| && s + c[k].size == os + o[ok].size
    requires var Y := (s + c[k].size) as real;
      (cmp > 0 <==> At(c, Y) > At(o, Y)) && (cmp < 0 <==> At(c, Y) < At(o, Y))
    ensures var Y := s + c[k].size;
      && Side(c, k + 1, f + c[k].fee, Y, Y)
      && (tie ==> Side(o, ok + 1, of_ + o[ok].fee, Y, Y)) && (!tie ==> Side(o, ok, of_, os, Y))
      && Max(Y, os) == Max(os, Y) == Max(Y, Y) == Y
      && (Above(c, o, Y as real) <==> Above(c, o, X as real) || cmp > 0)
      && (Above(o, c, Y as real) <==> Above(o, c, X as real) || cmp < 0)
  {
    hide Above;
    hide At;
    var Y := s + c[k].size;
    Advance(c, k, f, s, X);
    NothingBetween(c, k, f, s, o, ok, of_, os, X, Y);
    NothingBetween(o, ok, of_, os, c, k, f, s, X, Y);
    if tie { Advance(o, ok, of_, os, X); } else { Wait(o, ok, of_, os, X, Y); }
  }

  /** Exchanging the lists negates a decided answer and keeps an undecided one. */
  lemma SwapNegates(c0: seq<FeeFrac>, c1: seq<FeeFrac>, r: int, back: int)
    requires Sized(c0) && Sized(c1) && Verdict(c0, c1, r) && Verdict(c1, c0, back)
    ensures back == if r == 2 then 2 else -r
  {
  }
}
