/** Comparing linearizations by their feerate diagrams, and what the optimal
    linearization promises against every other one. */
module DiagramOrder {
  import opened Sums
  import opened Clusters
  import opened Feerates
  import opened Diagrams
  import opened Chunking
  import opened Linearize

  /** The whole number of fee units the diagram reaches within weight budget bw. */
  method FeeWithin(ca: seq<Chunk>, bw: nat) returns (af: nat)
    ensures Sized(Fracs(ca)) ==> af == At(Fracs(ca), bw as real).Floor
  {
    hide *;
    var aw := 0;
    af := 0;
    ghost var d := Fracs(ca);
    assert d[0..] == d;
    for k := 0 to |ca|
      invariant aw <= bw
      invariant Sized(d) ==> Sized(d[k..])
      invariant Sized(d) ==> At(d, bw as real) == af as real + At(d[k..], bw as real - aw as real)
    {
      assert d[k..][0] == d[k] && d[k..][1..] == d[k + 1..];
      var c := ca[k];
      if aw + c.weight <= bw {
        if Sized(d) { SizedTail(d, k); WholeChunk(d[k..], bw as real - aw as real); }
        aw, af := aw + c.weight, af + c.fee;
      } else {
        var room := bw - aw;
        if Sized(d) { SizedTail(d, k); PartialChunk(d[k..], af, room); }
        if room == 0 { assert c.fee * room / c.weight == 0; }
        if room > 0 && c.weight > 0 { af := af + c.fee * room / c.weight; }
        return;
      }
    }
    if Sized(d) { EmptyTail(d[|ca|..], bw as real - aw as real); FloorShift(af, 0.0); }
  }

  lemma SizedTail(d: seq<FeeFrac>, k: nat)
    requires Sized(d) && k <= |d|
    ensures Sized(d[k..]) && (k < |d| ==> Sized(d[k + 1..]))
  {
  }

  lemma EmptyTail(d: seq<FeeFrac>, x: real)
    requires d == []
    ensures Sized(d) && At(d, x) == 0.0
  {
  }

  /** Past its first chunk a diagram continues with the rest. */
  lemma WholeChunk(d: seq<FeeFrac>, x: real)
    requires Sized(d) && |d| > 0 && x >= d[0].size as real
    ensures At(d, x) == d[0].fee as real + At(d[1..], x - d[0].size as real)
  {
    if x == d[0].size as real {
      RateTimes(d[0].fee, d[0].size);
      Breakpoint(d[1..], 0);
      assert d[1..][..0] == [];
    }
  }

  /** Truncating division is the floor of the proportional slice. */
  lemma SliceFloor(fee: nat, weight: nat, room: nat)
    requires weight > 0
    ensures (Rate(fee, weight) * room as real).Floor == fee * room / weight
    ensures room == 0 ==> fee * room / weight == 0
  {
    var q, m := fee * room / weight, fee * room % weight;
    RateTimes(fee, weight);
    var x, w := Rate(fee, weight) * room as real, weight as real;
    assert x * w == (fee * room) as real by {
      assert x * w == (Rate(fee, weight) * w) * room as real;
    }
    assert fee * room == q * weight + m && 0 <= m < weight;
    FloorBetween(x, w, q, m);
    if room == 0 { assert fee * room == 0; }
  }

  lemma FloorBetween(x: real, w: real, q: int, m: int)
    requires w > 0.0 && x * w == q as real * w + m as real && 0.0 <= m as real < w
    ensures x.Floor == q
  {
    var e := x - q as real;
    assert e * w == m as real;
    Scale(e, 0.0, w);
    Scale(e, 1.0, w);
  }

  /** Landing inside the first chunk adds its truncated slice. */
  lemma PartialChunk(d: seq<FeeFrac>, af: nat, room: nat)
    requires Sized(d) && |d| > 0 && room < d[0].size
    ensures (af as real + At(d, room as real)).Floor == af + d[0].fee * room / d[0].size
  {
    SliceFloor(d[0].fee, d[0].size, room);
    FloorShift(af, At(d, room as real));
  }

  lemma FloorShift(n: int, x: real)
    ensures (n as real + x).Floor == n + x.Floor
  {
  }

  /** Whether the diagram of one order lies nowhere below that of another. */
  method DiagramAtLeastAsGood(cl: Cluster, a: seq<int>, b: seq<int>) returns (yes: bool, ghost ca: seq<Chunk>, ghost cb: seq<Chunk>)
    requires |a| == |b| == |cl.m|
    ensures !Permutation(cl, a) || !Permutation(cl, b) ==> !yes
    ensures Permutation(cl, a) && Permutation(cl, b) ==> DiagramOf(cl, a, ca) && DiagramOf(cl, b, cb)
    ensures Permutation(cl, a) && Permutation(cl, b) && PositiveWeights(cl) ==>
      (yes <==> AtLeast(Fracs(ca), Fracs(cb)))
  {
    ca, cb := [], [];
    var ra, xa, pa := ChunkLinearization(cl, a);
    if ra != 0 { return false, ca, cb; }
    var rb, xb, pb := ChunkLinearization(cl, b);
    if rb != 0 { return false, ca, cb; }
    ca, cb := xa, xb;
    assert DiagramOf(cl, a, ca) && DiagramOf(cl, b, cb);
    yes := CoversBreakpoints(xa, xb);
    if PositiveWeights(cl) {
      BreakpointsDecide(Fracs(xa), Fracs(xb));
      assert forall j: nat :: j <= |xb| ==> (Covers(Fracs(xa), Fracs(xb), j) <==>
        At(Fracs(xa), TotalSize(Fracs(xb)[..j]) as real) >= TotalFee(Fracs(xb)[..j]) as real);
    }
  }

  /** Does the first diagram reach every breakpoint of the second? */
  method CoversBreakpoints(ca: seq<Chunk>, cb: seq<Chunk>) returns (yes: bool)
    ensures Sized(Fracs(ca)) ==> (yes <==> forall j: nat :: j <= |cb| ==> Covers(Fracs(ca), Fracs(cb), j))
  {
    ghost var A, B := Fracs(ca), Fracs(cb);
    var bw, bf := 0, 0;
    assert B[..0] == [];
    if Sized(A) { StartCovered(A); }
    for i := 0 to |cb|
      invariant bw == TotalSize(B[..i]) && bf == TotalFee(B[..i])
      invariant Sized(A) ==> forall j: nat :: j <= i ==> Covers(A, B, j)
    {
      assert B[..i + 1] == B[..i] + [B[i]];
      TotalConcat(B[..i], [B[i]]);
      Single(B[i], 0.0);
      bw, bf := bw + cb[i].weight, bf + cb[i].fee;
      var af := FeeWithin(ca, bw);
      if af < bf {
        assert Sized(A) ==> !Covers(A, B, i + 1);
        return false;
      }
    }
    yes := true;
  }

  ghost predicate Covers(a: seq<FeeFrac>, b: seq<FeeFrac>, j: nat) {
    Sized(a) && j <= |b| && At(a, TotalSize(b[..j]) as real) >= TotalFee(b[..j]) as real
  }

  lemma StartCovered(a: seq<FeeFrac>)
    requires Sized(a)
    ensures At(a, 0.0) == 0.0
  {
    Breakpoint(a, 0);
    assert a[..0] == [];
  }

  /** `cs` is the chunking of linearization xs. */
  ghost predicate DiagramOf(cl: Cluster, xs: seq<int>, cs: seq<Chunk>) {
    exists parts: seq<seq<int>> :: Join(parts) == xs && Chunked(cl, parts, cs)
  }

  lemma {:induction false} JoinPieces(cl: Cluster, parts: seq<seq<int>>)
    requires forall i: nat :: i < |parts| ==> InRange(cl, parts[i])
    ensures InRange(cl, Join(parts)) && Join(Pieces(cl, parts)) == Items(cl, Join(parts))
  {
    if |parts| > 0 {
      JoinPieces(cl, parts[1..]);
      assert Pieces(cl, parts)[1..] == Pieces(cl, parts[1..]);
    }
  }

  /** The chunk diagram has, at every slope, the same best prefixes as the members in order. */
  lemma ChunksMatchItems(cl: Cluster, xs: seq<int>, cs: seq<Chunk>)
    requires PositiveWeights(cl) && DiagramOf(cl, xs, cs)
    ensures InRange(cl, xs) && Falling(Fracs(cs))
    ensures DualAtLeast(Fracs(cs), Items(cl, xs)) && DualAtLeast(Items(cl, xs), Fracs(cs))
  {
    var parts: seq<seq<int>> :| Join(parts) == xs && Chunked(cl, parts, cs);
    JoinPieces(cl, parts);
    var ps, d, f := Pieces(cl, parts), Items(cl, xs), Fracs(cs);
    assert Summary(ps) == f;
    forall slope: real, j: nat | slope >= 0.0 && j <= |d|
      ensures Matched(f, slope, ListWorth(d[..j], slope))
    {
      var k := PartsMatch(ps, j, slope);
    }
    forall slope: real, j: nat | slope >= 0.0 && j <= |f|
      ensures Matched(d, slope, ListWorth(f[..j], slope))
    {
      var k := PartsArePrefixes(ps, j);
      assert ListWorth(d[..k], slope) >= ListWorth(f[..j], slope);
    }
  }

  lemma DualTrans(a: seq<FeeFrac>, b: seq<FeeFrac>, c: seq<FeeFrac>)
    requires DualAtLeast(a, b) && DualAtLeast(b, c)
    ensures DualAtLeast(a, c)
  {
    forall slope: real, j: nat | slope >= 0.0 && j <= |c|
      ensures Matched(a, slope, ListWorth(c[..j], slope))
    {
      assert Matched(b, slope, ListWorth(c[..j], slope));
      var k: nat :| k <= |b| && ListWorth(b[..k], slope) >= ListWorth(c[..j], slope);
      assert Matched(a, slope, ListWorth(b[..k], slope));
    }
  }

  /** Diagram order is decided by the members' prefix points alone. */
  lemma DiagramIsOrder(cl: Cluster, xa: seq<int>, ca: seq<Chunk>, xb: seq<int>, cb: seq<Chunk>)
    requires PositiveWeights(cl) && DiagramOf(cl, xa, ca) && DiagramOf(cl, xb, cb)
    ensures InRange(cl, xa) && InRange(cl, xb) && Falling(Fracs(ca)) && Falling(Fracs(cb))
    ensures AtLeast(Fracs(ca), Fracs(cb)) <==> DualAtLeast(Items(cl, xa), Items(cl, xb))
  {
    hide DualAtLeast;
    hide AtLeast;
    hide DiagramOf;
    var fa, fb := Fracs(ca), Fracs(cb);
    ChunksMatchItems(cl, xa, ca);
    ChunksMatchItems(cl, xb, cb);
    PointwiseIsDual(fa, fb);
    if AtLeast(fa, fb) {
      DualTrans(Items(cl, xa), fa, fb);
      DualTrans(Items(cl, xa), fb, Items(cl, xb));
    }
    if DualAtLeast(Items(cl, xa), Items(cl, xb)) {
      DualTrans(fa, Items(cl, xa), Items(cl, xb));
      DualTrans(fa, Items(cl, xb), fb);
    }
  }

  /** The chunk diagram clears every prefix point of the linearization. */
  lemma ChunksMajorize(cl: Cluster, xs: seq<int>, cs: seq<Chunk>, j: nat)
    requires PositiveWeights(cl) && DiagramOf(cl, xs, cs) && j <= |xs|
    ensures InRange(cl, xs) && Sized(Fracs(cs))
    ensures At(Fracs(cs), TotalSize(Items(cl, xs)[..j]) as real) >= TotalFee(Items(cl, xs)[..j]) as real
  {
    ChunksMatchItems(cl, xs, cs);
    PointwiseIsDual(Fracs(cs), Items(cl, xs));
    Breakpoint(Items(cl, xs), j);
  }

  /** g at y is on or above the chord from a to b. */
  ghost predicate AboveChord(g: real -> real, a: real, b: real, y: real) {
    a <= y <= b ==> (g(y) - g(a)) * (b - a) >= (g(b) - g(a)) * (y - a)
  }

  ghost predicate Concave(g: real -> real) {
    forall a: real, b: real, y: real :: AboveChord(g, a, b, y)
  }

  /** g clears every breakpoint of the diagram d drawn from (w0, f0). */
  ghost predicate Clears(g: real -> real, w0: real, f0: real, d: seq<FeeFrac>) {
    forall j: nat :: j <= |d| ==> g(w0 + TotalSize(d[..j]) as real) >= f0 + TotalFee(d[..j]) as real
  }

  lemma ClearsTail(g: real -> real, w0: real, f0: real, d: seq<FeeFrac>)
    requires Clears(g, w0, f0, d) && |d| > 0
    ensures g(w0) >= f0 && g(w0 + d[0].size as real) >= f0 + d[0].fee as real
    ensures Clears(g, w0 + d[0].size as real, f0 + d[0].fee as real, d[1..])
  {
    var s, f := d[0].size as real, d[0].fee as real;
    assert d[..0] == [] && g(w0 + TotalSize(d[..0]) as real) >= f0 + TotalFee(d[..0]) as real;
    assert w0 + 0.0 == w0;
    forall j: nat | j <= |d[1..]|
      ensures g(w0 + s + TotalSize(d[1..][..j]) as real) >= f0 + f + TotalFee(d[1..][..j]) as real
    {
      PrefixTotals(d, j + 1);
      assert g(w0 + TotalSize(d[..j + 1]) as real) >= f0 + TotalFee(d[..j + 1]) as real;
      assert w0 + TotalSize(d[..j + 1]) as real == w0 + s + TotalSize(d[1..][..j]) as real;
    }
    assert d[1..][..0] == [];
    assert w0 + s + TotalSize(d[1..][..0]) as real == w0 + s;
  }

  /** Any concave function over a diagram's breakpoints is over the diagram. */
  lemma {:induction false} OverBreakpoints(d: seq<FeeFrac>, g: real -> real, w0: real, f0: real, x: real)
    requires Sized(d) && Concave(g) && 0.0 <= x <= TotalSize(d) as real && Clears(g, w0, f0, d)
    ensures g(w0 + x) >= f0 + At(d, x)
    decreases |d|
  {
    if |d| == 0 {
      assert d[..0] == [] && g(w0 + TotalSize(d[..0]) as real) >= f0 + TotalFee(d[..0]) as real;
    } else {
      hide Concave;
      hide FracRate;
      hide Clears;
      var s, f := d[0].size as real, d[0].fee as real;
      ClearsTail(g, w0, f0, d);
      if x <= s {
        InsideChunk(d[0], g, w0, f0, x);
      } else {
        OverBreakpoints(d[1..], g, w0 + s, f0 + f, x - s);
        assert w0 + s + (x - s) == w0 + x;
      }
    }
  }

  lemma InsideChunk(c: FeeFrac, g: real -> real, w0: real, f0: real, x: real)
    requires c.size > 0 && Concave(g) && 0.0 <= x <= c.size as real
    requires g(w0) >= f0 && g(w0 + c.size as real) >= f0 + c.fee as real
    ensures g(w0 + x) >= f0 + FracRate(c) * x
  {
    RateTimes(c.fee, c.size);
    var s, f := c.size as real, c.fee as real;
    assert AboveChord(g, w0, w0 + s, w0 + x);
    var ga, gb, gy := g(w0), g(w0 + s), g(w0 + x);
    assert (gy - ga) * s >= (gb - ga) * x by {
      assert (w0 + s) - w0 == s && (w0 + x) - w0 == x;
    }
    ChordValue(ga, gb, gy, f0, f, s, x, FracRate(c));
  }

  lemma PrefixTotals(d: seq<FeeFrac>, k: nat)
    requires 0 < k <= |d|
    ensures TotalSize(d[..k]) == d[0].size + TotalSize(d[1..][..k - 1])
    ensures TotalFee(d[..k]) == d[0].fee + TotalFee(d[1..][..k - 1])
  {
    Cons(d, k);
    TotalConcat([d[0]], d[1..][..k - 1]);
    Single(d[0], 0.0);
  }

  /** The chord of one chunk of rate r, at weight x inside it. */
  lemma ChordValue(ga: real, gb: real, gy: real, f0: real, f: real, s: real, x: real, r: real)
    requires s > 0.0 && 0.0 <= x <= s && ga >= f0 && gb >= f0 + f && r * s == f
    requires (gy - ga) * s >= (gb - ga) * x
    ensures gy >= f0 + r * x
  {
    assert (s - x) * (ga - f0) >= 0.0 && x * (gb - f0 - f) >= 0.0;
    assert gy * s >= f0 * s + f * x by {
      assert gy * s >= ga * s + gb * x - ga * x;
      assert (s - x) * (ga - f0) == ga * s - ga * x - f0 * s + f0 * x;
      assert x * (gb - f0 - f) == gb * x - f0 * x - f * x;
    }
    assert (f0 + r * x) * s == f0 * s + f * x by { assert (r * x) * s == (r * s) * x; }
    Scale(gy, f0 + r * x, s);
  }

  /** The chunk diagram is the least concave function over the prefix points. */
  lemma LeastConcaveMajorant(cl: Cluster, xs: seq<int>, cs: seq<Chunk>, g: real -> real, x: real)
    requires PositiveWeights(cl) && DiagramOf(cl, xs, cs) && InRange(cl, xs) && Sized(Fracs(cs))
    requires Concave(g) && 0.0 <= x <= TotalSize(Fracs(cs)) as real
    requires forall j: nat :: j <= |xs| ==>
      g(TotalSize(Items(cl, xs)[..j]) as real) >= TotalFee(Items(cl, xs)[..j]) as real
    ensures g(x) >= At(Fracs(cs), x)
  {
    var parts: seq<seq<int>> :| Join(parts) == xs && Chunked(cl, parts, cs);
    JoinPieces(cl, parts);
    var ps, f := Pieces(cl, parts), Fracs(cs);
    assert Summary(ps) == f;
    forall k: nat | k <= |f|
      ensures g(0.0 + TotalSize(f[..k]) as real) >= 0.0 + TotalFee(f[..k]) as real
    {
      var j := PartsArePrefixes(ps, k);
      assert g(TotalSize(Items(cl, xs)[..j]) as real) >= TotalFee(Items(cl, xs)[..j]) as real;
      assert 0.0 + TotalSize(f[..k]) as real == TotalSize(Items(cl, xs)[..j]) as real;
    }
    OverBreakpoints(f, g, 0.0, 0.0, x);
    assert 0.0 + x == x;
  }

  /** A listing's worth is the gain of the set it lists. */
  lemma {:induction false} ListingGain(cl: Cluster, xs: seq<int>, slope: real)
    requires Listing(cl, xs)
    ensures InRange(cl, xs) && ListWorth(Items(cl, xs), slope) == Gain(cl, Members(xs), slope)
  {
    if |xs| == 0 {
      EmptyGain(cl, slope);
      assert Members(xs) == {};
    } else {
      var k, x := |xs| - 1, xs[|xs| - 1];
      ListingGain(cl, xs[..k], slope);
      assert xs == xs[..k] + [x];
      assert Items(cl, xs) == Items(cl, xs[..k]) + [FeeFrac(cl.m[x].fee, cl.m[x].weight)];
      WorthConcat(Items(cl, xs[..k]), [FeeFrac(cl.m[x].fee, cl.m[x].weight)], slope);
      Single(FeeFrac(cl.m[x].fee, cl.m[x].weight), slope);
      assert Members(xs) == Members(xs[..k]) + {x};
      GainUnion(cl, Members(xs[..k]), {x}, slope);
      OneGain(cl, x, slope);
    }
  }

  lemma EmptyGain(cl: Cluster, slope: real)
    ensures Gain(cl, {}, slope) == 0.0
  {
    GainSplit(cl, {}, {}, slope);
    var e: set<nat> := {};
    assert e * e == e && e - e == e;
  }

  lemma OneGain(cl: Cluster, x: nat, slope: real)
    requires x < |cl.m|
    ensures Gain(cl, {x}, slope) == Worth(cl.m[x].fee, cl.m[x].weight, slope)
  {
    OneSum(Fees(cl), x, |cl.m|);
    OneSum(Weights(cl), x, |cl.m|);
  }

  lemma {:induction false} OneSum(p: seq<int>, x: nat, k: nat)
    requires x < |p| && k <= |p|
    ensures SumTo(p, {x}, k) == if x < k then p[x] else 0
  {
    if k > 0 { OneSum(p, x, k - 1); }
  }

  lemma PrefixClosed(cl: Cluster, xs: seq<int>, j: nat)
    requires Topological(cl, xs) && j <= |xs|
    ensures Listing(cl, xs[..j]) && Closed(cl, Below(|cl.m|), Members(xs[..j]))
  {
    forall x: nat | x in Members(xs[..j]) && x < |cl.m|
      ensures cl.m[x].ancestors * Below(|cl.m|) <= Members(xs[..j])
    {
      var i :| 0 <= i < j && xs[i] == x;
      assert Members(xs[..i]) <= Members(xs[..j]);
    }
  }

  /** A dominant order matches every prefix of every linearization. */
  lemma DominantMatches(cl: Cluster, opt: seq<int>, xs: seq<int>)
    requires Permutation(cl, opt) && Dominant(cl, opt) && Topological(cl, xs)
    ensures InRange(cl, opt) && InRange(cl, xs) && DualAtLeast(Items(cl, opt), Items(cl, xs))
  {
    var a, b := Items(cl, opt), Items(cl, xs);
    forall slope: real, j: nat | slope >= 0.0 && j <= |b|
      ensures Matched(a, slope, ListWorth(b[..j], slope))
    {
      PrefixClosed(cl, xs, j);
      ListingGain(cl, xs[..j], slope);
      assert Items(cl, xs[..j]) == b[..j];
      assert PrefixGains(cl, opt, slope, Gain(cl, Members(xs[..j]), slope));
      var k: nat :| k <= |opt| && Gain(cl, Members(opt[..k]), slope) >= Gain(cl, Members(xs[..j]), slope);
      ListingGain(cl, opt[..k], slope);
      assert Items(cl, opt[..k]) == a[..k];
    }
  }

  /** The optimal linearization's diagram is nowhere below that of any linearization. */
  lemma OptimalIsBest(cl: Cluster, opt: seq<int>, co: seq<Chunk>, xs: seq<int>, cs: seq<Chunk>)
    requires PositiveWeights(cl) && Permutation(cl, opt) && Dominant(cl, opt) && Topological(cl, xs)
    requires DiagramOf(cl, opt, co) && DiagramOf(cl, xs, cs)
    ensures Falling(Fracs(co)) && Falling(Fracs(cs)) && AtLeast(Fracs(co), Fracs(cs))
  {
    DominantMatches(cl, opt, xs);
    DiagramIsOrder(cl, opt, co, xs, cs);
  }

  /** The optimal diagram is unique. */
  lemma OptimalIsUnique(cl: Cluster, xa: seq<int>, ca: seq<Chunk>, xb: seq<int>, cb: seq<Chunk>, x: real)
    requires PositiveWeights(cl) && Topological(cl, xa) && Dominant(cl, xa) && Topological(cl, xb) && Dominant(cl, xb)
    requires DiagramOf(cl, xa, ca) && DiagramOf(cl, xb, cb) && x >= 0.0
    ensures Sized(Fracs(ca)) && Sized(Fracs(cb)) && At(Fracs(ca), x) == At(Fracs(cb), x)
  {
    OptimalIsBest(cl, xa, ca, xb, cb);
    OptimalIsBest(cl, xb, cb, xa, ca);
  }
}
