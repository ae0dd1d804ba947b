/** The topological check, and the chunking stack that turns a linearization
    into its feerate diagram. */
module Chunking {
  import opened Sums
  import opened Clusters
  import opened Feerates
  import opened Diagrams

  datatype Chunk = Chunk(members: set<nat>, fee: nat, weight: nat)

  ghost function ListRate(d: seq<FeeFrac>): real
    requires Sized(d) && |d| > 0
  {
    SizePositive(d);
    Rate(TotalFee(d), TotalSize(d))
  }

  /** Every proper prefix has a strictly lower feerate than the whole. */
  ghost predicate Solid(d: seq<FeeFrac>) {
    && Sized(d) && |d| > 0
    && forall k: nat :: 0 < k < |d| ==> ListRate(d[..k]) < ListRate(d)
  }

  /** A list is worth nothing at its own rate, and its sign elsewhere tells the side. */
  lemma ListSign(d: seq<FeeFrac>, slope: real)
    requires Sized(d) && |d| > 0
    ensures ListWorth(d, slope) > 0.0 <==> ListRate(d) > slope
    ensures ListWorth(d, slope) < 0.0 <==> ListRate(d) < slope
  {
    SizePositive(d);
    WorthSign(TotalFee(d), TotalSize(d), slope);
  }

  /** Joining a lower-rate list to a higher-rate one lands strictly between. */
  lemma Mediant(P: seq<FeeFrac>, C: seq<FeeFrac>)
    requires Sized(P) && Sized(C) && |P| > 0 && |C| > 0 && ListRate(P) < ListRate(C)
    ensures ListRate(P) < ListRate(P + C) < ListRate(C)
  {
    var r := ListRate(P + C);
    WorthConcat(P, C, r);
    ListSign(P + C, r);
    ListSign(P, r);
    ListSign(C, r);
  }

  /** Absorbing a lower-rate predecessor keeps a list solid. */
  lemma SolidMerge(P: seq<FeeFrac>, C: seq<FeeFrac>)
    requires Solid(P) && Solid(C) && ListRate(P) < ListRate(C)
    ensures Solid(P + C)
  {
    Mediant(P, C);
    var r := ListRate(P + C);
    forall k: nat | 0 < k < |P + C|
      ensures ListRate((P + C)[..k]) < r
    {
      if k < |P| {
        assert (P + C)[..k] == P[..k];
        assert ListRate(P[..k]) < ListRate(P);
      } else if k == |P| {
        assert (P + C)[..k] == P;
      } else {
        var a, b := C[..k - |P|], C[k - |P|..];
        assert (P + C)[..k] == P + a && (P + a) + b == P + C && a + b == C;
        SolidSuffix(C, k - |P|);
        SuffixAbove(P + a, b, r);
      }
    }
  }

  /** A proper suffix of a solid list has at least its rate. */
  lemma SolidSuffix(d: seq<FeeFrac>, k: nat)
    requires Solid(d) && 0 < k < |d|
    ensures ListRate(d[k..]) > ListRate(d)
  {
    var r, a, b := ListRate(d), d[..k], d[k..];
    assert a + b == d;
    assert ListRate(a) < r;
    WorthConcat(a, b, r);
    ListSign(d, r);
    ListSign(a, r);
    ListSign(b, r);
  }

  lemma SuffixAbove(a: seq<FeeFrac>, b: seq<FeeFrac>, r: real)
    requires Sized(a) && Sized(b) && |a| > 0 && |b| > 0 && r == ListRate(a + b) < ListRate(b)
    ensures ListRate(a) < r
  {
    WorthConcat(a, b, r);
    ListSign(a + b, r);
    ListSign(a, r);
    ListSign(b, r);
  }

  /** Inside a solid list no prefix beats both its start and its end, at any slope. */
  lemma SolidCapped(d: seq<FeeFrac>, k: nat, slope: real)
    requires Solid(d) && k <= |d|
    ensures ListWorth(d[..k], slope) <= 0.0 || ListWorth(d[..k], slope) <= ListWorth(d, slope)
  {
    if k == 0 {
      assert d[..0] == [];
    } else if k == |d| {
      assert d[..k] == d;
    } else {
      var a, b := d[..k], d[k..];
      assert a + b == d;
      assert ListRate(a) < ListRate(d);
      SolidSuffix(d, k);
      WorthConcat(a, b, slope);
      ListSign(a, slope);
      ListSign(b, slope);
    }
  }

  ghost function Join<T>(parts: seq<seq<T>>): seq<T> {
    if |parts| == 0 then [] else parts[0] + Join(parts[1..])
  }

  /** Each part summed up. */
  ghost function Summary(parts: seq<seq<FeeFrac>>): (d: seq<FeeFrac>)
    ensures |d| == |parts|
    ensures forall i: nat :: i < |parts| ==> d[i] == FeeFrac(TotalFee(parts[i]), TotalSize(parts[i]))
  {
    seq(|parts|, i requires 0 <= i < |parts| => FeeFrac(TotalFee(parts[i]), TotalSize(parts[i])))
  }

  ghost predicate AllSolid(parts: seq<seq<FeeFrac>>) {
    forall i: nat :: i < |parts| ==> Solid(parts[i])
  }

  /** The diagram of solid parts clears every prefix point of the joined list. */
  lemma {:induction false} PartsMatch(parts: seq<seq<FeeFrac>>, j: nat, slope: real) returns (k: nat)
    requires AllSolid(parts) && j <= |Join(parts)|
    ensures k <= |parts| && ListWorth(Summary(parts)[..k], slope) >= ListWorth(Join(parts)[..j], slope)
    decreases |parts|
  {
    var all := Join(parts);
    k := 0;
    if |parts| == 0 {
      assert all[..j] == [] && Summary(parts)[..0] == [];
    } else {
      var head, rest := parts[0], parts[1..];
      assert Summary(parts)[1..] == Summary(rest);
      if j <= |head| {
        assert all[..j] == head[..j];
        SolidCapped(head, j, slope);
        assert Summary(parts)[..0] == [];
        TailWorth(Summary(parts), 1, slope);
        assert Summary(parts)[1..][..0] == [];
        k := if ListWorth(head[..j], slope) <= 0.0 then 0 else 1;
      } else {
        assert all[..j] == head + Join(rest)[..j - |head|];
        WorthConcat(head, Join(rest)[..j - |head|], slope);
        k := PartsMatch(rest, j - |head|, slope);
        TailWorth(Summary(parts), k + 1, slope);
        k := k + 1;
      }
    }
  }

  /** The breakpoints of the parts' diagram are prefix points of the joined list. */
  lemma {:induction false} PartsArePrefixes(parts: seq<seq<FeeFrac>>, k: nat) returns (j: nat)
    requires k <= |parts|
    ensures j <= |Join(parts)|
    ensures TotalFee(Join(parts)[..j]) == TotalFee(Summary(parts)[..k])
    ensures TotalSize(Join(parts)[..j]) == TotalSize(Summary(parts)[..k])
    decreases |parts|
  {
    j := 0;
    if k == 0 {
      assert Join(parts)[..0] == [] && Summary(parts)[..0] == [];
    } else {
      var head, rest := parts[0], parts[1..];
      assert Summary(parts)[1..] == Summary(rest);
      j := PartsArePrefixes(rest, k - 1);
      assert Join(parts)[..|head| + j] == head + Join(rest)[..j];
      TotalConcat(head, Join(rest)[..j]);
      Cons(Summary(parts), k);
      TotalConcat([Summary(parts)[0]], Summary(rest)[..k - 1]);
      Single(Summary(parts)[0], 0.0);
      j := |head| + j;
    }
  }

  ghost predicate InRange(cl: Cluster, xs: seq<int>) {
    forall i: nat :: i < |xs| ==> 0 <= xs[i] < |cl.m|
  }

  /** The fee and weight of each listed member. */
  ghost function Items(cl: Cluster, xs: seq<int>): (d: seq<FeeFrac>)
    requires InRange(cl, xs)
    ensures |d| == |xs| && forall i: nat :: i < |xs| ==> d[i] == FeeFrac(cl.m[xs[i]].fee, cl.m[xs[i]].weight)
  {
    seq(|xs|, i requires 0 <= i < |xs| => FeeFrac(cl.m[xs[i]].fee, cl.m[xs[i]].weight))
  }

  ghost function Pieces(cl: Cluster, parts: seq<seq<int>>): (ps: seq<seq<FeeFrac>>)
    requires forall i: nat :: i < |parts| ==> InRange(cl, parts[i])
    ensures |ps| == |parts| && forall i: nat :: i < |parts| ==> ps[i] == Items(cl, parts[i])
  {
    seq(|parts|, i requires 0 <= i < |parts| => Items(cl, parts[i]))
  }

  function Fracs(cs: seq<Chunk>): (d: seq<FeeFrac>)
    ensures |d| == |cs| && forall i: nat :: i < |cs| ==> d[i] == FeeFrac(cs[i].fee, cs[i].weight)
  {
    seq(|cs|, i requires 0 <= i < |cs| => FeeFrac(cs[i].fee, cs[i].weight))
  }

  /** c sums up the run of members `part`. */
  ghost predicate ChunkOf(cl: Cluster, part: seq<int>, c: Chunk) {
    && InRange(cl, part) && |part| > 0 && c.members == Members(part)
    && c.fee == TotalFee(Items(cl, part)) && c.weight == TotalSize(Items(cl, part))
    && (PositiveWeights(cl) ==> Solid(Items(cl, part)))
  }

  /** The chunks sum up the runs of the linearization, in order, with feerates
      that never rise and runs that no proper prefix of which reaches its rate. */
  ghost predicate Chunked(cl: Cluster, parts: seq<seq<int>>, out: seq<Chunk>) {
    && |out| == |parts|
    && (forall i: nat :: i < |parts| ==> ChunkOf(cl, parts[i], out[i]))
    && (PositiveWeights(cl) ==> Falling(Fracs(out)))
  }

  /** A chunk's own rate is that of its members. */
  lemma ChunkRate(cl: Cluster, part: seq<int>, c: Chunk)
    requires ChunkOf(cl, part, c) && PositiveWeights(cl)
    ensures c.weight > 0 && Rate(c.fee, c.weight) == ListRate(Items(cl, part))
  {
    SizePositive(Items(cl, part));
  }

  lemma NewChunk(cl: Cluster, x: nat)
    requires x < |cl.m|
    ensures ChunkOf(cl, [x], Chunk({x}, cl.m[x].fee, cl.m[x].weight))
  {
    assert Items(cl, [x]) == [FeeFrac(cl.m[x].fee, cl.m[x].weight)];
    Single(FeeFrac(cl.m[x].fee, cl.m[x].weight), 0.0);
  }

  /** The new chunk absorbs its lower-rate predecessor. */
  lemma Absorb(cl: Cluster, part: seq<int>, c: Chunk, prev: seq<int>, p: Chunk)
    requires ChunkOf(cl, part, c) && ChunkOf(cl, prev, p)
    requires FeerateCmp(c.fee, c.weight, p.fee, p.weight) > 0
    ensures ChunkOf(cl, prev + part, Chunk(c.members + p.members, c.fee + p.fee, c.weight + p.weight))
  {
    assert Items(cl, prev + part) == Items(cl, prev) + Items(cl, part);
    TotalConcat(Items(cl, prev), Items(cl, part));
    if PositiveWeights(cl) {
      ChunkRate(cl, part, c);
      ChunkRate(cl, prev, p);
      SolidMerge(Items(cl, prev), Items(cl, part));
    }
  }

  lemma Push(cl: Cluster, parts: seq<seq<int>>, out: seq<Chunk>, part: seq<int>, c: Chunk)
    requires Chunked(cl, parts, out) && ChunkOf(cl, part, c)
    requires |out| > 0 ==> FeerateCmp(c.fee, c.weight, out[|out| - 1].fee, out[|out| - 1].weight) <= 0
    ensures Chunked(cl, parts + [part], out + [c])
  {
    if PositiveWeights(cl) {
      ChunkRate(cl, part, c);
      forall i: nat | i < |out|
        ensures out[i].weight > 0 && Rate(out[i].fee, out[i].weight) >= Rate(c.fee, c.weight)
      {
        ChunkRate(cl, parts[i], out[i]);
        var k := |out| - 1;
        ChunkRate(cl, parts[k], out[k]);
        if i < k { assert FracRate(Fracs(out)[i]) >= FracRate(Fracs(out)[k]); }
      }
      assert Falling(Fracs(out + [c])) by {
        var d := Fracs(out + [c]);
        forall i: nat, j: nat | i < j < |d|
          ensures FracRate(d[i]) >= FracRate(d[j])
        {
          if j < |out| { assert FracRate(Fracs(out)[i]) >= FracRate(Fracs(out)[j]); }
        }
      }
    }
  }

  lemma {:induction false} JoinSnoc<T>(parts: seq<seq<T>>, part: seq<T>)
    ensures Join(parts + [part]) == Join(parts) + part
  {
    if |parts| == 0 {
      assert (parts + [part])[1..] == [];
    } else {
      assert (parts + [part])[1..] == parts[1..] + [part];
      JoinSnoc(parts[1..], part);
    }
  }

  lemma Pop(cl: Cluster, parts: seq<seq<int>>, out: seq<Chunk>)
    requires Chunked(cl, parts, out) && |out| > 0
    ensures |parts| == |out|
    ensures var k := |out| - 1;
      Chunked(cl, parts[..k], out[..k]) && ChunkOf(cl, parts[k], out[k]) && Join(parts) == Join(parts[..k]) + parts[k]
  {
    hide Solid;
    hide Falling;
    var k := |out| - 1;
    assert parts == parts[..k] + [parts[k]];
    JoinSnoc(parts[..k], parts[k]);
    if PositiveWeights(cl) {
      FallingPrefix(Fracs(out), k);
      assert Fracs(out)[..k] == Fracs(out[..k]);
    }
  }

  lemma FallingPrefix(d: seq<FeeFrac>, k: nat)
    requires Falling(d) && k <= |d|
    ensures Falling(d[..k])
  {
    forall i: nat, j: nat | i < j < k
      ensures FracRate(d[..k][i]) >= FracRate(d[..k][j])
    {
      assert FracRate(d[i]) >= FracRate(d[j]);
    }
  }

  /** The chunks of an order, by merging the last two for as long as the later pays more; -1 for what is not an order of the members. */
  method ChunkLinearization(cl: Cluster, lin: seq<int>) returns (rc: int, out: seq<Chunk>, ghost parts: seq<seq<int>>)
    requires |lin| == |cl.m|
    ensures rc == 0 <==> Permutation(cl, lin)
    ensures rc != 0 ==> rc == -1 && out == []
    ensures rc == 0 ==> Join(parts) == lin && Chunked(cl, parts, out)
  {
    out, parts := [], [];
    var seen: set<int> := {};
    for i := 0 to |cl.m|
      invariant seen == set x | x in lin[..i]
      invariant Listing(cl, lin[..i])
    {
      var idx := lin[i];
      assert lin[i] in lin;
      if idx < 0 || idx >= |cl.m| { return -1, [], []; }
      if idx in seen { return -1, [], []; }
      seen := seen + {idx};
      assert lin[..i + 1] == lin[..i] + [idx];
    }
    assert lin[..|lin|] == lin;
    out, parts := Stack(cl, lin);
    rc := 0;
  }

  /** The chunking stack over a permutation. */
  method Stack(cl: Cluster, lin: seq<int>) returns (out: seq<Chunk>, ghost parts: seq<seq<int>>)
    requires Permutation(cl, lin)
    ensures Join(parts) == lin && Chunked(cl, parts, out)
  {
    hide *;
    PermutationFacts(cl, lin);
    StackStarts(cl);
    out, parts := [], [];
    for i := 0 to |cl.m|
      invariant Chunked(cl, parts, out) && Join(parts) == lin[..i]
    {
      var idx := lin[i];
      var nc := Chunk({idx}, cl.m[idx].fee, cl.m[idx].weight);
      ghost var part := [idx];
      NewChunk(cl, idx);
      while |out| > 0 && FeerateCmp(nc.fee, nc.weight, out[|out| - 1].fee, out[|out| - 1].weight) > 0
        invariant Chunked(cl, parts, out) && ChunkOf(cl, part, nc)
        invariant Join(parts) + part == lin[..i + 1]
        decreases |out|
      {
        var prev := out[|out| - 1];
        Pop(cl, parts, out);
        Absorb(cl, part, nc, parts[|out| - 1], prev);
        nc := Chunk(nc.members + prev.members, nc.fee + prev.fee, nc.weight + prev.weight);
        part := parts[|out| - 1] + part;
        parts, out := parts[..|out| - 1], out[..|out| - 1];
      }
      Push(cl, parts, out, part, nc);
      JoinSnoc(parts, part);
      out, parts := out + [nc], parts + [part];
    }
    assert lin[..|lin|] == lin;
  }

  lemma PermutationFacts(cl: Cluster, lin: seq<int>)
    requires Permutation(cl, lin)
    ensures |lin| == |cl.m| && forall i: nat :: i < |lin| ==> 0 <= lin[i] < |cl.m|
    ensures Members(lin) == Below(|cl.m|)
  {
    ListingSize(cl, lin);
    SubsetSize(Members(lin), Below(|cl.m|));
  }

  lemma {:induction false} ListingSize(cl: Cluster, xs: seq<int>)
    requires Listing(cl, xs)
    ensures |Members(xs)| == |xs|
  {
    if |xs| > 0 {
      var k := |xs| - 1;
      ListingSize(cl, xs[..k]);
      assert xs == xs[..k] + [xs[k]];
      assert Members(xs) == Members(xs[..k]) + {xs[k]};
    }
  }

  lemma StackStarts(cl: Cluster)
    ensures Chunked(cl, [], []) && Join<int>([]) == []
  {
  }

  /** Whether an order puts each member after all its ancestors. */
  method IsTopological(cl: Cluster, lin: seq<int>) returns (yes: bool)
    requires |lin| == |cl.m|
    ensures yes <==> Topological(cl, lin)
  {
    var seen: set<int> := {};
    for i := 0 to |cl.m|
      invariant seen == set x | x in lin[..i]
      invariant ParentsFirst(cl, lin[..i])
    {
      var idx := lin[i];
      assert lin[..i + 1] == lin[..i] + [idx];
      if idx < 0 || idx >= |cl.m| { return false; }
      if idx in seen { return false; }
      var need := cl.m[idx].ancestors - {idx};
      if !(need <= seen) {
        assert !(need <= Members(lin[..i]));
        return false;
      }
      FirstGrows(cl, lin[..i], idx);
      seen := seen + {idx};
    }
    assert lin[..|lin|] == lin;
    PermutationFacts(cl, lin);
    return seen == Below(|cl.m|);
  }

  lemma FirstGrows(cl: Cluster, xs: seq<int>, x: nat)
    requires ParentsFirst(cl, xs) && x < |cl.m| && x !in xs
    requires cl.m[x].ancestors - {x} <= Members(xs)
    ensures ParentsFirst(cl, xs + [x])
  {
    var ys := xs + [x];
    forall i: nat | i < |ys|
      ensures cl.m[ys[i]].ancestors - {ys[i]} <= Members(ys[..i])
    {
      assert ys[..i] == xs[..i];
    }
  }
}
