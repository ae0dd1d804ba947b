/** A cluster's last chunk: the cluster drawn from what the pool says of its members, put in the best order, and what pays least of it. */
module LastChunk {
  import opened Sums
  import opened Clusters
  import opened Feerates
  import opened Diagrams
  import opened Chunking
  import opened DiagramOrder
  import opened Linearize
  import opened Passes
  import Post = PostLinearize
  import opened Ancestry
  import opened Bytes
  import Cache = ChunkCache

  type Item = Cache.Item

  /** Each member with the parents it has on the list. */
  function Direct(q: seq<Item>): (e: seq<set<nat>>)
    ensures |e| == |q| && Edges(e)
    ensures forall m: nat, p: nat :: m < |q| ==> (p in e[m] <==> p == m || (p in q[m].parents && p < |q|))
  {
    seq(|q|, m requires 0 <= m < |q| => {m} + (q[m].parents * Below(|q|)))
  }

  /** The cluster a list of members stands for. */
  ghost function Drawn(q: seq<Item>): (cl: Cluster)
    ensures |cl.m| == |q| && Transposed(cl)
    ensures forall m: nat :: m < |q| ==> cl.m[m].ancestors == Ups(Direct(q), m) && cl.m[m].fee == q[m].fee && cl.m[m].weight == q[m].size
  {
    hide Ups, Direct;
    Cluster(seq(|q|, m requires 0 <= m < |q| =>
      Member(Ups(Direct(q), m), (set k | k in Below(|q|) && m in Ups(Direct(q), k)), q[m].fee, q[m].size)))
  }

  /** Parents can be told from children by a rank. */
  ghost predicate Ranks(q: seq<Item>, rank: seq<nat>) {
    |rank| == |q| && forall m: nat, p: nat :: m < |q| && p in q[m].parents && p < |q| ==> rank[p] < rank[m]
  }

  ghost predicate Ranked(q: seq<Item>) {
    exists rank: seq<nat> :: Ranks(q, rank)
  }

  ghost predicate Weighted(q: seq<Item>) {
    forall m: nat :: m < |q| ==> q[m].size > 0
  }

  /** With a member, every member that spends it. */
  ghost predicate SpendClosed(q: seq<Item>, D: set<nat>) {
    D <= Below(|q|) && forall p: nat, m: nat :: p in D && m < |q| && p in q[m].parents ==> m in D
  }

  /** c is made of some members that nothing else on the list spends, and no such members pay less for their weight. */
  ghost predicate Cheapest(q: seq<Item>, c: Cache.Chunk) {
    var S := Members(c.places);
    && S != {} && SpendClosed(q, S) && (forall i: nat, j: nat :: i < j < |c.places| ==> c.places[i] != c.places[j])
    && c.fee == Fee(Drawn(q), S) && c.size == Weight(Drawn(q), S) && c.size > 0
    && forall D: set<nat> :: D != {} && SpendClosed(q, D) ==> c.fee * Weight(Drawn(q), D) <= Fee(Drawn(q), D) * c.size
  }

  /** What the node's own linearizer answers for a list. */
  ghost predicate Answers(q: seq<Item>, r: Option<Cache.Chunk>) {
    && (r.Some? ==> forall k: nat :: k < |r.value.places| ==> r.value.places[k] < |q|)
    && (r.Some? && Weighted(q) ==> r.value.size > 0)
    && (|q| == 0 || |q| > MAX_CLUSTER ==> r.None?)
    && (0 < |q| <= MAX_CLUSTER && Ranked(q) && Weighted(q) ==> r.Some? && Cheapest(q, r.value))
  }

  lemma UpsRank(q: seq<Item>, rank: seq<nat>, m: nat, a: nat)
    requires Ranks(q, rank) && m < |q| && a in Ups(Direct(q), m) && a < |q|
    ensures a == m || rank[a] < rank[m]
  {
    hide Ups;
    var C := set x | x in Below(|q|) && (x == m || rank[x] < rank[m]);
    assert UpClosed(Direct(q), C);
    UpsLeast(Direct(q), m, C);
  }

  lemma DrawnFormed(q: seq<Item>)
    requires |q| <= MAX_CLUSTER && Ranked(q) && Weighted(q)
    ensures WellFormed(Drawn(q))
  {
    hide Ups, Ranks;
    var cl, e := Drawn(q), Direct(q);
    var rank: seq<nat> :| Ranks(q, rank);
    forall i: nat | i < |q| ensures i in Ups(e, i) && UpClosed(e, Ups(e, i)) { UpsHold(e, i); }
    forall i: nat, j: nat | i < |q| && j in Ups(e, i) && j < |q| ensures Ups(e, j) <= Ups(e, i) { UpsLeast(e, j, Ups(e, i)); }
    forall i: nat, j: nat | i < |q| && j < |q| && j in Ups(e, i) && i in Ups(e, j) ensures i == j {
      RankSize(q, rank);
      UpsRank(q, rank, i, j); UpsRank(q, rank, j, i);
    }
  }

  lemma RankSize(q: seq<Item>, rank: seq<nat>)
    requires Ranks(q, rank)
    ensures |rank| == |q|
  {
  }

  /** What is left when spend-closed members go is closed under parents. */
  lemma RestClosed(q: seq<Item>, D: set<nat>)
    requires SpendClosed(q, D)
    ensures Closed(Drawn(q), Below(|q|), Below(|q|) - D)
  {
    hide Ups;
    var e, A := Direct(q), Below(|q|) - D;
    assert UpClosed(e, A);
    forall i: nat | i in A ensures Ups(e, i) <= A { UpsLeast(e, i, A); }
  }

  lemma {:induction false} TotalJoin(parts: seq<seq<FeeFrac>>)
    ensures TotalFee(Join(parts)) == TotalFee(Summary(parts)) && TotalSize(Join(parts)) == TotalSize(Summary(parts))
  {
    if parts != [] {
      var rest := parts[1..];
      TotalJoin(rest);
      TotalConcat(parts[0], Join(rest));
      assert Summary(parts)[1..] == Summary(rest);
    }
  }

  /** At the rate of the last part no prefix of the parts is worth more than all of them. */
  lemma LastCaps(d: seq<FeeFrac>, j: nat)
    requires Falling(d) && |d| > 0 && j <= |d|
    ensures ListWorth(d[..j], FracRate(d[|d| - 1])) <= ListWorth(d, FracRate(d[|d| - 1]))
  {
    var slope := FracRate(d[|d| - 1]);
    assert d == d[..j] + d[j..];
    WorthConcat(d[..j], d[j..], slope);
    FlatLifts(d[j..], slope);
  }

  lemma {:induction false} FlatLifts(d: seq<FeeFrac>, slope: real)
    requires Sized(d) && forall i: nat :: i < |d| ==> FracRate(d[i]) >= slope
    ensures ListWorth(d, slope) >= 0.0
  {
    if d == [] {
      NoWorth(slope);
    } else {
      FlatLifts(d[1..], slope);
      assert d == [d[0]] + d[1..];
      WorthConcat([d[0]], d[1..], slope);
      Single(d[0], slope);
      WorthSign(d[0].fee, d[0].size, slope);
    }
  }

  /** Closed members gain at most what all do, at the rate of the last chunk of a best order. */
  lemma AllGainMost(cl: Cluster, opt: seq<int>, lin: seq<int>, parts: seq<seq<int>>, cs: seq<Chunk>, A: set<nat>)
    requires PositiveWeights(cl) && Permutation(cl, opt) && Dominant(cl, opt) && Improves(cl, opt, lin)
    requires Join(parts) == lin && Chunked(cl, parts, cs) && |cs| > 0 && Closed(cl, Below(|cl.m|), A)
    ensures cs[|cs| - 1].weight > 0
    ensures Gain(cl, A, Rate(cs[|cs| - 1].fee, cs[|cs| - 1].weight)) <= Gain(cl, Below(|cl.m|), Rate(cs[|cs| - 1].fee, cs[|cs| - 1].weight))
  {
    hide *;
    LastDraws(cl, lin, parts, cs);
    var d, f := Items(cl, lin), Fracs(cs);
    var slope := FracRate(f[|cs| - 1]);
    RateNonNegative(f[|cs| - 1]);
    assert slope == Rate(cs[|cs| - 1].fee, cs[|cs| - 1].weight);
    var k := BestPrefix(cl, opt, slope, A);
    ImprovesMatched(cl, opt, lin);
    DualTrans(f, d, Items(cl, opt));
    CappedByAll(f, Items(cl, opt), k);
    SameTotals(cl, lin, parts, cs, slope);
    PermutationFacts(cl, lin);
    ListingGain(cl, lin, slope);
  }

  lemma LastDraws(cl: Cluster, lin: seq<int>, parts: seq<seq<int>>, cs: seq<Chunk>)
    requires PositiveWeights(cl) && Join(parts) == lin && Chunked(cl, parts, cs) && |cs| > 0
    ensures InRange(cl, lin) && Falling(Fracs(cs)) && DualAtLeast(Fracs(cs), Items(cl, lin)) && cs[|cs| - 1].weight > 0
    ensures FracRate(Fracs(cs)[|cs| - 1]) == Rate(cs[|cs| - 1].fee, cs[|cs| - 1].weight)
  {
    hide DualAtLeast, Chunked, Rate;
    assert DiagramOf(cl, lin, cs);
    ChunksMatchItems(cl, lin, cs);
    assert Fracs(cs)[|cs| - 1].size > 0;
  }

  lemma ImprovesMatched(cl: Cluster, opt: seq<int>, lin: seq<int>)
    requires PositiveWeights(cl) && Improves(cl, opt, lin)
    ensures InRange(cl, opt) && InRange(cl, lin) && DualAtLeast(Items(cl, lin), Items(cl, opt))
    ensures Permutation(cl, lin) && Listing(cl, lin)
  {
    hide DualAtLeast;
  }

  lemma CappedByAll(f: seq<FeeFrac>, a: seq<FeeFrac>, k: nat)
    requires Falling(f) && |f| > 0 && DualAtLeast(f, a) && k <= |a|
    ensures ListWorth(a[..k], FracRate(f[|f| - 1])) <= ListWorth(f, FracRate(f[|f| - 1]))
  {
    hide Falling, ListWorth;
    Weighed(f);
    var slope := FracRate(f[|f| - 1]);
    RateNonNegative(f[|f| - 1]);
    assert Matched(f, slope, ListWorth(a[..k], slope));
    var i: nat :| i <= |f| && ListWorth(f[..i], slope) >= ListWorth(a[..k], slope);
    LastCaps(f, i);
  }

  lemma Weighed(f: seq<FeeFrac>)
    requires Falling(f) && |f| > 0
    ensures f[|f| - 1].size > 0
  {
  }

  lemma BestPrefix(cl: Cluster, opt: seq<int>, slope: real, A: set<nat>) returns (k: nat)
    requires Permutation(cl, opt) && Dominant(cl, opt) && Closed(cl, Below(|cl.m|), A)
    ensures InRange(cl, opt) && k <= |opt| && ListWorth(Items(cl, opt)[..k], slope) >= Gain(cl, A, slope)
  {
    assert PrefixGains(cl, opt, slope, Gain(cl, A, slope));
    k :| k <= |opt| && Gain(cl, Members(opt[..k]), slope) >= Gain(cl, A, slope);
    ListingGain(cl, opt[..k], slope);
    assert Items(cl, opt[..k]) == Items(cl, opt)[..k];
  }

  lemma SameTotals(cl: Cluster, lin: seq<int>, parts: seq<seq<int>>, cs: seq<Chunk>, slope: real)
    requires Join(parts) == lin && Chunked(cl, parts, cs) && InRange(cl, lin)
    ensures ListWorth(Fracs(cs), slope) == ListWorth(Items(cl, lin), slope)
  {
    JoinPieces(cl, parts);
    TotalJoin(Pieces(cl, parts));
    assert Summary(Pieces(cl, parts)) == Fracs(cs);
  }

  /** What a list of members pays and weighs. */
  lemma ListingTotals(cl: Cluster, xs: seq<int>)
    requires Listing(cl, xs)
    ensures InRange(cl, xs) && TotalFee(Items(cl, xs)) == Fee(cl, Members(xs)) && TotalSize(Items(cl, xs)) == Weight(cl, Members(xs))
  {
    ListingGain(cl, xs, 0.0);
    ListingGain(cl, xs, 1.0);
  }

  /** The last part of a listing ends it. */
  lemma LastEnds(cl: Cluster, lin: seq<int>, parts: seq<seq<int>>)
    requires Listing(cl, lin) && Join(parts) == lin && |parts| > 0
    ensures |parts[|parts| - 1]| <= |lin| && lin[|lin| - |parts[|parts| - 1]|..] == parts[|parts| - 1]
    ensures Listing(cl, parts[|parts| - 1])
  {
    var n := |parts| - 1;
    assert parts == parts[..n] + [parts[n]];
    JoinSnoc(parts[..n], parts[n]);
  }

  /** Nothing outside the end of a linearization spends what is in it. */
  lemma EndSpendClosed(q: seq<Item>, lin: seq<int>, j: nat)
    requires Topological(Drawn(q), lin) && j <= |lin|
    ensures SpendClosed(q, Members(lin[j..]))
  {
    hide Ups;
    var cl, S := Drawn(q), Members(lin[j..]);
    PermutationFacts(cl, lin);
    forall p: nat, m: nat | p in S && m < |q| && p in q[m].parents ensures m in S {
      var i: nat :| j <= i < |lin| && lin[i] == p;
      assert m in Members(lin);
      var t: nat :| t < |lin| && lin[t] == m;
      UpsHold(Direct(q), m);
      assert p in cl.m[m].ancestors;
      if t < i { NotBefore(cl, lin, i, t); }
      assert lin[j..][t - j] == m;
    }
  }

  lemma NotBefore(cl: Cluster, lin: seq<int>, i: nat, t: nat)
    requires Topological(cl, lin) && t < i < |lin|
    ensures lin[t] >= 0 && lin[i] !in cl.m[lin[t]].ancestors
  {
    var x: nat, y: nat := lin[i], lin[t];
    assert x !in lin[..t] && x != y;
    assert cl.m[y].ancestors - {y} <= Members(lin[..t]);
    assert x !in Members(lin[..t]);
  }

  /** The members of the last chunk, in the order they stand in. */
  method Collect(lin: seq<int>, S: set<nat>, ghost cl: Cluster) returns (places: seq<nat>)
    requires Permutation(cl, lin) && S <= Below(|cl.m|)
    ensures Members(places) == S && forall i: nat, j: nat :: i < j < |places| ==> places[i] != places[j]
  {
    places := [];
    for k := 0 to |lin|
      invariant forall x: nat :: x in places <==> x in lin[..k] && x in S
      invariant forall i: nat, j: nat :: i < j < |places| ==> places[i] != places[j]
    {
      assert lin[..k + 1] == lin[..k] + [lin[k]];
      assert lin[k] !in lin[..k];
      if lin[k] in S { places := places + [lin[k]]; }
    }
    PermutationFacts(cl, lin);
    assert lin[..|lin|] == lin;
    forall x | x in S ensures x in places { assert x in Members(lin); }
  }

  lemma LastCheapest(q: seq<Item>, opt: seq<int>, lin: seq<int>, parts: seq<seq<int>>, cs: seq<Chunk>, places: seq<nat>)
    requires |q| > 0 && WellFormed(Drawn(q)) && Permutation(Drawn(q), opt) && Dominant(Drawn(q), opt) && Improves(Drawn(q), opt, lin)
    requires Topological(Drawn(q), lin) && Join(parts) == lin && Chunked(Drawn(q), parts, cs) && |cs| > 0
    requires Members(places) == cs[|cs| - 1].members && forall i: nat, j: nat :: i < j < |places| ==> places[i] != places[j]
    ensures Cheapest(q, Cache.Chunk(cs[|cs| - 1].fee, cs[|cs| - 1].weight, places))
  {
    hide Drawn, Dominant, Improves, SpendClosed, Topological, Chunked, WellFormed, Chunking.Join;
    OwnFigures(q, lin, parts, cs);
    forall D: set<nat> | D != {} && SpendClosed(q, D)
      ensures cs[|cs| - 1].fee * Weight(Drawn(q), D) <= Fee(Drawn(q), D) * cs[|cs| - 1].weight
    {
      NonePaysLess(q, opt, lin, parts, cs, D);
    }
  }

  lemma OwnFigures(q: seq<Item>, lin: seq<int>, parts: seq<seq<int>>, cs: seq<Chunk>)
    requires WellFormed(Drawn(q)) && Topological(Drawn(q), lin) && Join(parts) == lin && Chunked(Drawn(q), parts, cs) && |cs| > 0
    ensures cs[|cs| - 1].members != {} && SpendClosed(q, cs[|cs| - 1].members)
    ensures cs[|cs| - 1].fee == Fee(Drawn(q), cs[|cs| - 1].members) && cs[|cs| - 1].weight == Weight(Drawn(q), cs[|cs| - 1].members)
    ensures cs[|cs| - 1].weight > 0
  {
    hide Drawn, SpendClosed, ParentsFirst, Fee, Weight, TotalFee, TotalSize, Falling;
    var cl, c, part := Drawn(q), cs[|cs| - 1], parts[|cs| - 1];
    assert ChunkOf(cl, part, c);
    LastEnds(cl, lin, parts);
    ListingTotals(cl, part);
    EndSpendClosed(q, lin, |lin| - |part|);
    LastIs(cl, parts, cs);
  }

  lemma NonePaysLess(q: seq<Item>, opt: seq<int>, lin: seq<int>, parts: seq<seq<int>>, cs: seq<Chunk>, D: set<nat>)
    requires WellFormed(Drawn(q)) && Permutation(Drawn(q), opt) && Dominant(Drawn(q), opt) && Improves(Drawn(q), opt, lin)
    requires Join(parts) == lin && Chunked(Drawn(q), parts, cs) && |cs| > 0 && D != {} && SpendClosed(q, D)
    ensures cs[|cs| - 1].fee * Weight(Drawn(q), D) <= Fee(Drawn(q), D) * cs[|cs| - 1].weight
  {
    hide Drawn, Dominant, Improves, Chunked, Permutation, Fee, Weight, Chunking.Join, Closed, Rate, Gain, Acyclic;
    var cl, c := Drawn(q), cs[|cs| - 1];
    DrawnSize(q);
    RestClosed(q, D);
    AllGainMost(cl, opt, lin, parts, cs, Below(|q|) - D);
    PaysAtLeast(cl, c.fee, c.weight, D);
  }

  lemma DrawnSize(q: seq<Item>)
    ensures |Drawn(q).m| == |q|
  {
  }

  lemma PaysAtLeast(cl: Cluster, fee: nat, weight: nat, D: set<nat>)
    requires PositiveWeights(cl) && weight > 0 && D != {} && D <= Below(|cl.m|)
    requires Gain(cl, Below(|cl.m|) - D, Rate(fee, weight)) <= Gain(cl, Below(|cl.m|), Rate(fee, weight))
    ensures fee * Weight(cl, D) <= Fee(cl, D) * weight
  {
    var r := Rate(fee, weight);
    GainSplit(cl, D, Below(|cl.m|), r);
    assert Below(|cl.m|) * D == D;
    SetWeight(cl, D);
    WorthSign(Fee(cl, D), Weight(cl, D), r);
    CrossMultiply(Fee(cl, D), Weight(cl, D), fee, weight);
  }

  lemma ChunkWeighs(cl: Cluster, part: seq<int>, c: Chunk)
    requires ChunkOf(cl, part, c)
    ensures |part| > 0 && c.members <= Below(|cl.m|)
    ensures PositiveWeights(cl) ==> c.weight > 0
  {
    if PositiveWeights(cl) { SizePositive(Items(cl, part)); }
  }

  /** The cluster drawn from the list. */
  method Draw(q: seq<Item>) returns (ok: bool, cl: Cluster)
    ensures ok && cl == Drawn(q)
  {
    hide Ups, Edges;
    var e := Direct(q);
    var anc := new set<nat>[|q|](m requires 0 <= m < |q| => e[m]);
    assert anc[..] == e;
    ok := CloseUp(anc);
    if !ok { cl := Cluster([]); return; }
    var ups := anc[..];
    var downs := FillDescendants(ups);
    cl := Cluster(seq(|q|, m requires 0 <= m < |q| => Member(ups[m], downs[m], q[m].fee, q[m].size)));
    forall m: nat | m < |q| ensures downs[m] == set k | k in Below(|q|) && m in Ups(e, k) { assert ups[m] == anc[m]; }
    assert cl.m == Drawn(q).m;
  }

  lemma DrawnWeighs(q: seq<Item>)
    requires Weighted(q)
    ensures PositiveWeights(Drawn(q))
  {
  }

  lemma SomeChunk(cl: Cluster, lin: seq<int>, parts: seq<seq<int>>, cs: seq<Chunk>)
    requires |lin| > 0 && Join(parts) == lin && Chunked(cl, parts, cs)
    ensures |cs| > 0
  {
  }

  lemma LastIs(cl: Cluster, parts: seq<seq<int>>, cs: seq<Chunk>)
    requires Chunked(cl, parts, cs) && |cs| > 0
    ensures {} < cs[|cs| - 1].members <= Below(|cl.m|)
    ensures PositiveWeights(cl) ==> cs[|cs| - 1].weight > 0
  {
    var part := parts[|cs| - 1];
    ChunkWeighs(cl, part, cs[|cs| - 1]);
    assert part[0] in Members(part);
  }

  lemma Placed(places: seq<nat>, S: set<nat>, n: nat)
    requires Members(places) == S && {} < S <= Below(n)
    ensures |places| > 0 && forall k: nat :: k < |places| ==> places[k] < n
  {
    forall k: nat | k < |places| ensures places[k] < n { assert places[k] in S; }
    var x :| x in S;
    assert x in places;
  }

  /** A best order kept topological, when there is one. */
  lemma StillPermutation(q: seq<Item>, opt: seq<int>, lin: seq<int>)
    requires Permutation(Drawn(q), opt)
    requires Topological(Drawn(q), opt) ==> Improves(Drawn(q), opt, lin)
    requires !Topological(Drawn(q), opt) ==> lin == opt
    ensures Permutation(Drawn(q), lin)
    ensures Topological(Drawn(q), opt) ==> Topological(Drawn(q), lin)
  {
    hide Ups;
  }

  /** The last chunk of a cluster in its best order. */
  method LastChunkOf(q: seq<Item>) returns (r: Option<Cache.Chunk>)
    ensures Answers(q, r)
  {
    hide Drawn, Ups, Dominant, Improves, Topological, Permutation, Cheapest, Ranked, Weighted, WellFormed, Chunked, Chunking.Join;
    if |q| == 0 || |q| > MAX_CLUSTER { return None; }
    var ok, cl := Draw(q);
    if !ok { return None; }
    var lin := new int[|q|];
    DrawnSize(q);
    var rc, _ := LinearizeOptimal(cl, lin);
    if Ranked(q) && Weighted(q) { DrawnFormed(q); }
    if rc != 0 { return None; }
    ghost var opt := lin[..];
    assert lin[..|cl.m|] == opt;
    var _ := Post.PostLinearize(cl, lin);
    var code, cs, parts := ChunkLinearization(cl, lin[..]);
    StillPermutation(q, opt, lin[..]);
    SomeChunk(cl, lin[..], parts, cs);
    if code != 0 || |cs| == 0 { return None; }
    var last := cs[|cs| - 1];
    LastIs(cl, parts, cs);
    var places := Collect(lin[..], last.members, cl);
    Placed(places, last.members, |q|);
    if |places| == 0 { return None; }
    if Weighted(q) { DrawnWeighs(q); }
    if Ranked(q) && Weighted(q) { LastCheapest(q, opt, lin[..], parts, cs, places); }
    r := Some(Cache.Chunk(last.fee, last.weight, places));
  }
}
