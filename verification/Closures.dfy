/** Heaviest ancestor-closed subsets by way of minimum cuts. */
module Closures {
  import opened Sums
  import opened FlowTheory
  import opened MaxFlow
  import opened Clusters

  /** A pruned level graph still lets a node on a path to t be tried, back to s. */
  lemma {:induction false} AliveBack(M: Matrix, n: nat, s: nat, t: nat, L: seq<int>, I: seq<int>, v: nat)
    requires Levels(M, n, s, L) && Pruned(M, n, L, I, t)
    requires s != t && v < n && L[v] >= 0 && (v == t || I[v] < n)
    ensures I[s] < n
    decreases L[v]
  {
    if L[v] > 0 {
      assert HasParent(M, n, L, v);
      var u: nat :| u < n && M[u][v] > 0 && L[u] == L[v] - 1;
      assert I[u] == n ==> Dead(M, n, L, I, t, u, v);
      AliveBack(M, n, s, t, L, I, u);
    }
  }

  lemma ResidualPush(M: Matrix, R: Matrix, R': Matrix, n: nat, L: seq<int>, s: nat, t: nat, f: int, d: int)
    requires Residual(M, R, n, s, t, f) && Pushed(R, R', n, L, s, t, d)
    ensures Residual(M, R', n, s, t, f + d)
  {
  }

  lemma FlowBounded(M: Matrix, R: Matrix, n: nat, s: nat, t: nat, f: int)
    requires Residual(M, R, n, s, t, f)
    ensures f <= Out(M, s)
  {
    SumToMonotone(R[s], Below(n), n);
  }

  lemma FreshIterators(M: Matrix, n: nat, s: nat, L: seq<int>, I: seq<int>, t: nat)
    requires Levels(M, n, s, L) && |I| == n
    requires forall x: nat :: x < n ==> I[x] == 0
    ensures Pruned(M, n, L, I, t)
  {
  }

  lemma ResidualStarts(M: Matrix, n: nat, s: nat, t: nat)
    requires Square(M, n) && NonNegative(M) && s < n && t < n && s != t
    ensures Residual(M, M, n, s, t, 0)
  {
  }

  lemma ResidualNonNegative(M: Matrix, R: Matrix, n: nat, s: nat, t: nat, f: int)
    requires Residual(M, R, n, s, t, f)
    ensures NonNegative(R)
  {
  }

  /** Augment until no path is left. A round whose levels reach t always pushes
      something, so the flow, bounded by what leaves s, ends the loop. */
  method Saturate(cap: array2<int>, n: nat, s: nat, t: nat, inf: int) returns (flow: int, ghost L: seq<int>)
    requires cap.Length0 == cap.Length1 == n && s < n && t < n && s != t && inf > 0
    requires NonNegative(Value(cap))
    modifies cap
    ensures Residual(old(Value(cap)), Value(cap), n, s, t, flow)
    ensures Levels(Value(cap), n, s, L) && |L| == n && L[t] < 0
  {
    hide *;
    var level, it := new int[n], new int[n];
    ghost var M := Value(cap);
    flow := 0;
    ResidualStarts(M, n, s, t);
    var more := Bfs(cap, n, s, t, level);
    while more
      invariant Residual(M, Value(cap), n, s, t, flow)
      invariant Levels(Value(cap), n, s, level[..]) && (more <==> level[t] >= 0)
      decreases Out(M, s) - flow
    {
      ghost var R, L0, flow0 := Value(cap), level[..], flow;
      for i := 0 to n
        invariant forall j: nat :: j < i ==> it[j] == 0
        modifies it
      {
        it[i] := 0;
      }
      assert level[..] == L0;
      FreshIterators(R, n, s, L0, it[..], t);
      while true
        invariant Residual(M, Value(cap), n, s, t, flow) && level[..] == L0
        invariant Pruned(Value(cap), n, L0, it[..], t)
        invariant flow >= flow0 && (flow == flow0 ==> Value(cap) == R)
        decreases Out(M, s) - flow
      {
        FlowBounded(M, Value(cap), n, s, t, flow);
        ResidualNonNegative(M, Value(cap), n, s, t, flow);
        ghost var R1 := Value(cap);
        var f := Dfs(cap, n, s, t, inf, level, it);
        if f <= 0 {
          if flow == flow0 { AliveBack(R, n, s, t, L0, it[..], t); }
          break;
        }
        ResidualPush(M, R1, Value(cap), n, L0, s, t, flow, f);
        flow := flow + f;
      }
      FlowBounded(M, Value(cap), n, s, t, flow);
      more := Bfs(cap, n, s, t, level);
    }
    L := level[..];
  }

  /** The reachability walk under way: `seen` is queued once each, holds only what
      every set closed under residual edges must hold, and the first `done` are scanned. */
  ghost predicate Walk(R: Matrix, n: nat, s: nat, seen: set<nat>, q: seq<nat>, done: nat) {
    && Square(R, n) && s in seen && seen <= Below(n) && done <= |q| && |q| == |seen|
    && (forall i: nat :: i < |q| ==> q[i] in seen)
    && (forall v: nat :: v in seen ==> v in q)
    && (forall i: nat :: i < done ==> Scanned(R, n, seen, q[i], n))
    && Smallest(R, n, s, seen)
  }

  /** Every set that holds s and that no residual edge leaves holds all of `seen`. */
  ghost predicate Smallest(R: Matrix, n: nat, s: nat, seen: set<nat>)
    requires Square(R, n)
  {
    forall X: set<nat> :: s in X && Saturated(R, X, n) ==> seen <= X
  }

  ghost predicate Scanned(R: Matrix, n: nat, seen: set<nat>, u: nat, k: nat) {
    Square(R, n) && u < n && k <= n && forall v: nat :: v < k && R[u][v] > 0 ==> v in seen
  }

  /** Everything still reachable from s: the smallest set holding s that no residual edge leaves. */
  method Reachable(cap: array2<int>, n: nat, s: nat) returns (seen: set<nat>)
    requires cap.Length0 == cap.Length1 == n && s < n
    ensures s in seen && seen <= Below(n) && Saturated(Value(cap), seen, n)
    ensures forall X: set<nat> :: s in X && Saturated(Value(cap), X, n) ==> seen <= X
  {
    hide *;
    seen := {s};
    var q: seq<nat>, qh: nat := [s], 0;
    ghost var R := Value(cap);
    WalkStarts(R, n, s, q);
    while qh < |q|
      invariant qh <= |q| && Value(cap) == R
      invariant Walk(R, n, s, seen, q, qh)
      decreases n - qh
    {
      WalkFacts(R, n, s, seen, q, qh);
      var u := q[qh]; qh := qh + 1;
      for v := 0 to n
        invariant qh <= |q| && u == q[qh - 1] < n && Value(cap) == R
        invariant Walk(R, n, s, seen, q, qh - 1)
        invariant Scanned(R, n, seen, u, v)
      {
        if v !in seen && cap[u, v] > 0 {
          WalkGrows(R, n, s, seen, q, qh - 1, v);
          seen := seen + {v}; q := q + [v];
        } else {
          ScannedOne(R, n, seen, u, v);
        }
      }
      WalkDone(R, n, s, seen, q, qh - 1);
    }
    WalkEnds(R, n, s, seen, q);
  }

  lemma WalkStarts(R: Matrix, n: nat, s: nat, q: seq<nat>)
    requires Square(R, n) && s < n && q == [s]
    ensures Walk(R, n, s, {s}, q, 0)
  {
  }

  lemma WalkFacts(R: Matrix, n: nat, s: nat, seen: set<nat>, q: seq<nat>, h: nat)
    requires Walk(R, n, s, seen, q, h) && h < |q|
    ensures q[h] < n && |q| <= n && Scanned(R, n, seen, q[h], 0)
  {
    SubsetSize(seen, Below(n));
  }

  lemma ScannedOne(R: Matrix, n: nat, seen: set<nat>, u: nat, v: nat)
    requires Scanned(R, n, seen, u, v) && v < n && (v in seen || R[u][v] <= 0)
    ensures Scanned(R, n, seen, u, v + 1)
  {
  }

  lemma WalkGrows(R: Matrix, n: nat, s: nat, seen: set<nat>, q: seq<nat>, h: nat, v: nat)
    requires Walk(R, n, s, seen, q, h) && h < |q| && Scanned(R, n, seen, q[h], v)
    requires v < n && v !in seen && R[q[h]][v] > 0
    ensures Walk(R, n, s, seen + {v}, q + [v], h) && Scanned(R, n, seen + {v}, q[h], v + 1)
  {
    hide Smallest;
    SmallestGrows(R, n, s, seen, q[h], v);
    ScansKept(R, n, seen, q, h, v);
    QueueGrows(seen, q, v);
  }

  lemma QueueGrows(seen: set<nat>, q: seq<nat>, v: nat)
    requires (forall i: nat :: i < |q| ==> q[i] in seen) && (forall x: nat :: x in seen ==> x in q)
    ensures forall i: nat :: i < |q + [v]| ==> (q + [v])[i] in seen + {v}
    ensures forall x: nat :: x in seen + {v} ==> x in q + [v]
  {
  }

  lemma ScansKept(R: Matrix, n: nat, seen: set<nat>, q: seq<nat>, h: nat, v: nat)
    requires h < |q| && forall i: nat :: i < h ==> Scanned(R, n, seen, q[i], n)
    ensures forall i: nat :: i < h ==> Scanned(R, n, seen + {v}, (q + [v])[i], n)
  {
    forall i: nat | i < h
      ensures Scanned(R, n, seen + {v}, (q + [v])[i], n)
    {
      assert Scanned(R, n, seen, q[i], n);
    }
  }

  lemma SmallestGrows(R: Matrix, n: nat, s: nat, seen: set<nat>, u: nat, v: nat)
    requires Square(R, n) && u in seen && u < n && v < n && R[u][v] > 0 && Smallest(R, n, s, seen)
    ensures Smallest(R, n, s, seen + {v})
  {
    forall X: set<nat> | s in X && Saturated(R, X, n)
      ensures seen + {v} <= X
    {
      assert seen <= X && u in X;
    }
  }

  lemma WalkDone(R: Matrix, n: nat, s: nat, seen: set<nat>, q: seq<nat>, h: nat)
    requires Walk(R, n, s, seen, q, h) && h < |q| && Scanned(R, n, seen, q[h], n)
    ensures Walk(R, n, s, seen, q, h + 1)
  {
  }

  lemma WalkEnds(R: Matrix, n: nat, s: nat, seen: set<nat>, q: seq<nat>)
    requires Walk(R, n, s, seen, q, |q|)
    ensures s in seen && seen <= Below(n) && Saturated(R, seen, n)
    ensures forall X: set<nat> :: s in X && Saturated(R, X, n) ==> seen <= X
  {
    forall u: nat, v: nat | u < n && v < n && u in seen && v !in seen
      ensures R[u][v] <= 0
    {
      var i :| 0 <= i < |q| && q[i] == u;
      assert Scanned(R, n, seen, q[i], n);
    }
  }

  function PosPart(p: seq<int>): (r: seq<int>)
    ensures |r| == |p| && forall i: nat :: i < |p| ==> r[i] == if p[i] > 0 then p[i] else 0
  {
    seq(|p|, i requires 0 <= i < |p| => if p[i] > 0 then p[i] else 0)
  }

  function NegPart(p: seq<int>): (r: seq<int>)
    ensures |r| == |p| && forall i: nat :: i < |p| ==> r[i] == if p[i] < 0 then -p[i] else 0
  {
    seq(|p|, i requires 0 <= i < |p| => if p[i] < 0 then -p[i] else 0)
  }

  /** The capacity of the closure network's edge (u, v): the source n pays into the
      gains, the losses pay into the sink n + 1, and no cut can afford to keep a
      member and drop one of its ancestors. */
  function Edge(cl: Cluster, rem: set<nat>, p: seq<int>, inf: int, u: nat, v: nat): int
    requires |p| == |cl.m|
  {
    var n := |cl.m|;
    if u == n then if v < n && v in rem && p[v] > 0 then p[v] else 0
    else if u > n || u !in rem then 0
    else if v == n + 1 then if p[u] < 0 then -p[u] else 0
    else if v < n && v != u && v in rem && v in cl.m[u].ancestors then inf
    else 0
  }

  ghost predicate Network(cl: Cluster, rem: set<nat>, p: seq<int>, inf: int, M: Matrix) {
    && |p| == |cl.m| && Square(M, |cl.m| + 2) && rem <= Below(|cl.m|)
    && inf == Sum(PosPart(p), rem) + 1
    && forall u: nat, v: nat :: u < |cl.m| + 2 && v < |cl.m| + 2 ==> M[u][v] == Edge(cl, rem, p, inf, u, v)
  }

  /** Y is the sink side of the cut of A in a network of n members. */
  ghost predicate SinkSide(n: nat, A: set<nat>, Y: set<nat>) {
    forall v: nat :: v < n + 2 ==> (v in Y <==> v !in A && v != n)
  }

  /** What a member's row of the network sends across the cut of a closed set, up to column k. */
  lemma {:induction false} MemberRow(cl: Cluster, rem: set<nat>, p: seq<int>, inf: int, row: seq<int>, A: set<nat>, Y: set<nat>, u: nat, k: nat)
    requires |p| == |cl.m| && k <= |row| == |cl.m| + 2 && rem <= Below(|cl.m|)
    requires forall v: nat :: v < |row| ==> row[v] == Edge(cl, rem, p, inf, u, v)
    requires SinkSide(|cl.m|, A, Y) && A <= rem && u in A && cl.m[u].ancestors * rem <= A
    ensures SumTo(row, Y, k) == if k <= |cl.m| + 1 then 0 else NegPart(p)[u]
  {
    if k > 0 {
      MemberRow(cl, rem, p, inf, row, A, Y, u, k - 1);
      assert row[k - 1] == Edge(cl, rem, p, inf, u, k - 1);
    }
  }

  lemma {:induction false} SourceRow(cl: Cluster, rem: set<nat>, p: seq<int>, inf: int, row: seq<int>, A: set<nat>, Y: set<nat>, k: nat)
    requires |p| == |cl.m| && k <= |row| == |cl.m| + 2 && rem <= Below(|cl.m|)
    requires forall v: nat :: v < |row| ==> row[v] == Edge(cl, rem, p, inf, |cl.m|, v)
    requires SinkSide(|cl.m|, A, Y) && A <= rem
    ensures SumTo(row, Y, k) == SumTo(PosPart(p), rem - A, if k <= |cl.m| then k else |cl.m|)
  {
    if k > 0 {
      SourceRow(cl, rem, p, inf, row, A, Y, k - 1);
      assert row[k - 1] == Edge(cl, rem, p, inf, |cl.m|, k - 1);
    }
  }

  lemma {:induction false} MemberRows(cl: Cluster, rem: set<nat>, p: seq<int>, inf: int, M: Matrix, A: set<nat>, X: set<nat>, Y: set<nat>, k: nat)
    requires Network(cl, rem, p, inf, M) && Closed(cl, rem, A) && k <= |cl.m|
    requires SinkSide(|cl.m|, A, Y) && X == A + {|cl.m|}
    ensures Block(M, X, Y, k, |cl.m| + 2) == SumTo(NegPart(p), A, k)
  {
    if k > 0 {
      MemberRows(cl, rem, p, inf, M, A, X, Y, k - 1);
      if k - 1 in A { MemberRow(cl, rem, p, inf, M[k - 1], A, Y, k - 1, |cl.m| + 2); }
    }
  }

  /** The cut of a closed set costs the gains it forgoes and the losses it takes:
      minimum cuts are maximum-weight closures. */
  lemma CutOfClosure(cl: Cluster, rem: set<nat>, p: seq<int>, inf: int, M: Matrix, A: set<nat>)
    requires Network(cl, rem, p, inf, M) && Closed(cl, rem, A)
    ensures Cut(M, A + {|cl.m|}, |cl.m| + 2) == Sum(PosPart(p), rem) - Sum(p, A)
  {
    hide *;
    var n := |cl.m|;
    var X := A + {n};
    var Y := Below(n + 2) - X;
    NetworkRow(cl, rem, p, inf, M);
    ClosedBelow(cl, rem, A);
    assert SinkSide(n, A, Y) by { SinkSideOf(n, A); }
    MemberRows(cl, rem, p, inf, M, A, X, Y, n);
    SourceRow(cl, rem, p, inf, M[n], A, Y, n + 2);
    CutRows(M, X, Y, n);
    SplitObjective(p, rem, A);
  }

  lemma SinkSideOf(n: nat, A: set<nat>)
    ensures SinkSide(n, A, Below(n + 2) - (A + {n}))
  {
  }

  lemma NetworkRow(cl: Cluster, rem: set<nat>, p: seq<int>, inf: int, M: Matrix)
    requires Network(cl, rem, p, inf, M)
    ensures |p| == |cl.m| && Square(M, |cl.m| + 2) && |M[|cl.m|]| == |cl.m| + 2 && rem <= Below(|cl.m|)
    ensures forall v: nat :: v < |cl.m| + 2 ==> M[|cl.m|][v] == Edge(cl, rem, p, inf, |cl.m|, v)
  {
  }

  lemma CutRows(M: Matrix, X: set<nat>, Y: set<nat>, n: nat)
    requires Square(M, n + 2) && n in X && n + 1 !in X && Y == Below(n + 2) - X
    ensures Cut(M, X, n + 2) == Block(M, X, Y, n, n + 2) + SumTo(M[n], Y, n + 2)
  {
    assert Block(M, X, Y, n + 2, n + 2) == Block(M, X, Y, n + 1, n + 2);
  }

  lemma SplitObjective(p: seq<int>, rem: set<nat>, A: set<nat>)
    requires A <= rem
    ensures SumTo(NegPart(p), A, |p|) + SumTo(PosPart(p), rem - A, |p|) == Sum(PosPart(p), rem) - Sum(p, A)
  {
    SumSplit(PosPart(p), A, rem);
    assert rem * A == A;
    SumToLinear(PosPart(p), NegPart(p), p, 1, -1, A, |p|);
  }

  lemma NetworkNonNegative(cl: Cluster, rem: set<nat>, p: seq<int>, inf: int, M: Matrix)
    requires Network(cl, rem, p, inf, M)
    ensures NonNegative(M) && inf == Sum(PosPart(p), rem) + 1 > 0 && rem <= Below(|cl.m|)
  {
    SumToMonotone(PosPart(p), rem, |p|);
    forall u: nat, v: nat | u < |M| && v < |M[u]|
      ensures M[u][v] >= 0
    {
      assert M[u][v] == Edge(cl, rem, p, inf, u, v);
    }
  }

  /** The residual of a maximum flow never leaves the remaining members. */
  lemma SideWithin(cl: Cluster, rem: set<nat>, p: seq<int>, inf: int, M: Matrix, R: Matrix, flow: int)
    requires Network(cl, rem, p, inf, M) && Residual(M, R, |cl.m| + 2, |cl.m|, |cl.m| + 1, flow)
    ensures Saturated(R, rem + {|cl.m|, |cl.m| + 1}, |cl.m| + 2)
  {
    var n := |cl.m|;
    forall u: nat, v: nat | u < n + 2 && v < n + 2 && u in rem + {n, n + 1} && v !in rem + {n, n + 1}
      ensures R[u][v] <= 0
    {
      assert M[u][v] == Edge(cl, rem, p, inf, u, v) == 0;
      assert M[v][u] == Edge(cl, rem, p, inf, v, u) == 0;
      assert R[u][v] + R[v][u] == 0 && R[v][u] >= 0;
    }
  }

  lemma SideClosed(cl: Cluster, rem: set<nat>, p: seq<int>, inf: int, M: Matrix, flow: int, A: set<nat>)
    requires Network(cl, rem, p, inf, M) && NonNegative(M) && A <= rem
    requires flow == Cut(M, A + {|cl.m|}, |cl.m| + 2) < inf
    ensures Closed(cl, rem, A)
  {
    hide Cut;
    forall i: nat, j: nat | i in A && i < |cl.m| && j in cl.m[i].ancestors && j in rem
      ensures j in A
    {
      if j !in A {
        assert M[i][j] == Edge(cl, rem, p, inf, i, j) == inf;
        CrossingEdge(M, A + {|cl.m|}, |cl.m| + 2, i, j);
      }
    }
  }

  lemma SinkCutOff(R: Matrix, n: nat, s: nat, t: nat, L: seq<int>) returns (X: set<nat>)
    requires Levels(R, n, s, L) && t < n && L[t] < 0
    ensures s in X && t !in X && Saturated(R, X, n)
  {
    X := set v: nat | v < n && L[v] >= 0;
  }

  lemma SourceOut(cl: Cluster, rem: set<nat>, p: seq<int>, inf: int, M: Matrix)
    requires Network(cl, rem, p, inf, M)
    ensures Cut(M, {|cl.m|}, |cl.m| + 2) == inf - 1
  {
    assert Closed(cl, rem, {});
    CutOfClosure(cl, rem, p, inf, M, {});
    EmptySum(p, |p|);
    assert {} + {|cl.m|} == {|cl.m|};
  }

  /** The source side of a maximum flow is the smallest of the best closed sets. */
  lemma SideIsBest(cl: Cluster, rem: set<nat>, p: seq<int>, inf: int, M: Matrix, R: Matrix, flow: int, L: seq<int>, seen: set<nat>)
    requires Network(cl, rem, p, inf, M) && Residual(M, R, |cl.m| + 2, |cl.m|, |cl.m| + 1, flow)
    requires Levels(R, |cl.m| + 2, |cl.m|, L) && L[|cl.m| + 1] < 0
    requires |cl.m| in seen && seen <= Below(|cl.m| + 2) && Saturated(R, seen, |cl.m| + 2)
    requires forall X: set<nat> :: |cl.m| in X && Saturated(R, X, |cl.m| + 2) ==> seen <= X
    ensures Closed(cl, rem, seen - {|cl.m|}) && Sum(p, seen - {|cl.m|}) == inf - 1 - flow
    ensures forall A: set<nat> :: Closed(cl, rem, A) ==>
      Sum(p, A) <= inf - 1 - flow && (Sum(p, A) == inf - 1 - flow ==> seen - {|cl.m|} <= A)
  {
    hide *;
    var n := |cl.m|;
    SideWithin(cl, rem, p, inf, M, R, flow);
    var X := SinkCutOff(R, n + 2, n, n + 1, L);
    assert n + 1 !in seen;
    var side := seen - {n};
    assert side + {n} == seen;
    NetworkNonNegative(cl, rem, p, inf, M);
    FlowAgainstCut(M, R, n + 2, n, n + 1, flow, {n});
    SourceOut(cl, rem, p, inf, M);
    FlowAgainstCut(M, R, n + 2, n, n + 1, flow, seen);
    SideClosed(cl, rem, p, inf, M, flow, side);
    CutOfClosure(cl, rem, p, inf, M, side);
    forall A: set<nat> | Closed(cl, rem, A)
      ensures Sum(p, A) <= inf - 1 - flow && (Sum(p, A) == inf - 1 - flow ==> seen - {n} <= A)
    {
      ClosedBelow(cl, rem, A);
      CutOfClosure(cl, rem, p, inf, M, A);
      FlowAgainstCut(M, R, n + 2, n, n + 1, flow, A + {n});
    }
  }

  lemma ClosedBelow(cl: Cluster, rem: set<nat>, A: set<nat>)
    requires Closed(cl, rem, A) && rem <= Below(|cl.m|)
    ensures A <= rem && A + {|cl.m|} <= Below(|cl.m| + 2) && |cl.m| + 1 !in A
  {
  }

  /** The matrix holds the edges of the first k members. */
  ghost predicate Filled(cl: Cluster, rem: set<nat>, p: seq<int>, inf: int, cap: array2<int>, k: nat)
    requires |p| == |cl.m|
    reads cap
  {
    && cap.Length0 == cap.Length1 == |cl.m| + 2
    && forall x: nat, y: nat :: x < |cl.m| + 2 && y < |cl.m| + 2 ==> cap[x, y] == EdgeTo(cl, rem, p, inf, x, y, k)
  }

  /** The edges of one member to those it needs. */
  method LinkAncestors(cl: Cluster, rem: set<nat>, ghost p: seq<int>, inf: int, cap: array2<int>, v: nat)
    requires |p| == |cl.m| && v < |cl.m| && v in rem && cap.Length0 == cap.Length1 == |cl.m| + 2
    requires forall x: nat, y: nat :: x < |cl.m| + 2 && y < |cl.m| + 2 ==>
      cap[x, y] == if x == v && y < |cl.m| then 0 else EdgeTo(cl, rem, p, inf, x, y, v + 1)
    modifies cap
    ensures Filled(cl, rem, p, inf, cap, v + 1)
  {
    var n := |cl.m|;
    for u := 0 to n
      invariant forall x: nat, y: nat :: x < n + 2 && y < n + 2 ==>
        cap[x, y] == if x == v && u <= y < n then 0 else EdgeTo(cl, rem, p, inf, x, y, v + 1)
    {
      if u in cl.m[v].ancestors && u in rem && u != v { cap[v, u] := inf; }
    }
  }

  /** All edges of one member. */
  method LinkMember(cl: Cluster, rem: set<nat>, p: seq<int>, inf: int, cap: array2<int>, v: nat)
    requires |p| == |cl.m| && v < |cl.m| && Filled(cl, rem, p, inf, cap, v)
    modifies cap
    ensures Filled(cl, rem, p, inf, cap, v + 1)
  {
    var n := |cl.m|;
    if v in rem {
      if p[v] > 0 { cap[n, v] := p[v]; } else if p[v] < 0 { cap[v, n + 1] := -p[v]; }
      LinkAncestors(cl, rem, p, inf, cap, v);
    }
  }

  /** The network entry (u, v) once the members below k are entered. */
  function EdgeTo(cl: Cluster, rem: set<nat>, p: seq<int>, inf: int, u: nat, v: nat, k: nat): int
    requires |p| == |cl.m|
  {
    if u < k || (u == |cl.m| && v < k) then Edge(cl, rem, p, inf, u, v) else 0
  }

  method GainTotal(rem: set<nat>, p: seq<int>) returns (pos: int)
    ensures pos == Sum(PosPart(p), rem)
  {
    pos := 0;
    for v := 0 to |p|
      invariant pos == SumTo(PosPart(p), rem, v)
    {
      if v in rem && p[v] > 0 { pos := pos + p[v]; }
    }
  }

  method BuildNetwork(cl: Cluster, rem: set<nat>, p: seq<int>) returns (cap: array2<int>, inf: int)
    requires |p| == |cl.m| && rem <= Below(|cl.m|)
    ensures fresh(cap) && cap.Length0 == cap.Length1 == |cl.m| + 2
    ensures Network(cl, rem, p, inf, Value(cap))
  {
    hide SumTo, Filled, EdgeTo, Edge, Network;
    var n := |cl.m|;
    cap := new int[n + 2, n + 2]((_, _) => 0);
    var pos := GainTotal(rem, p);
    inf := pos + 1;
    NothingFilled(cl, rem, p, inf, cap);
    for v := 0 to n
      invariant Filled(cl, rem, p, inf, cap, v)
    {
      LinkMember(cl, rem, p, inf, cap, v);
    }
    AllFilled(cl, rem, p, inf, cap);
  }

  lemma NothingFilled(cl: Cluster, rem: set<nat>, p: seq<int>, inf: int, cap: array2<int>)
    requires |p| == |cl.m| && cap.Length0 == cap.Length1 == |cl.m| + 2
    requires forall x: nat, y: nat :: x < |cl.m| + 2 && y < |cl.m| + 2 ==> cap[x, y] == 0
    ensures Filled(cl, rem, p, inf, cap, 0)
  {
  }

  lemma AllFilled(cl: Cluster, rem: set<nat>, p: seq<int>, inf: int, cap: array2<int>)
    requires |p| == |cl.m| && rem <= Below(|cl.m|) && inf == Sum(PosPart(p), rem) + 1 && Filled(cl, rem, p, inf, cap, |cl.m|)
    ensures Network(cl, rem, p, inf, Value(cap))
  {
  }

  /** The least of the closed subsets of rem on which the weights p, of either sign,
      sum highest, with that sum. */
  method MaxClosure(cl: Cluster, rem: set<nat>, p: seq<int>) returns (side: set<nat>, val: int)
    requires |p| == |cl.m| && rem <= Below(|cl.m|)
    ensures Closed(cl, rem, side) && val == Sum(p, side)
    ensures forall A: set<nat> :: Closed(cl, rem, A) ==> Sum(p, A) <= val && (Sum(p, A) == val ==> side <= A)
  {
    hide *;
    var n := |cl.m|;
    var cap, inf := BuildNetwork(cl, rem, p);
    ghost var M := Value(cap);
    NetworkNonNegative(cl, rem, p, inf, M);
    var flow, L := Saturate(cap, n + 2, n, n + 1, inf);
    var seen := Reachable(cap, n + 2, n);
    SideIsBest(cl, rem, p, inf, M, Value(cap), flow, L, seen);
    side := seen - {n};
    val := inf - 1 - flow;
  }
}
