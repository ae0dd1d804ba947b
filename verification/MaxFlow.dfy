/** The breadth-first levels and the level-graph augmenting search of the
    optimizer's maximum flow, in place on a capacity matrix. */
module MaxFlow {
  import opened Sums
  import opened FlowTheory

  /** The value of a capacity matrix. */
  ghost function Value(cap: array2<int>): (M: Matrix)
    reads cap
    ensures |M| == cap.Length0
    ensures forall u: nat :: u < cap.Length0 ==> |M[u]| == cap.Length1
    ensures forall u: nat, v: nat :: u < cap.Length0 && v < cap.Length1 ==> M[u][v] == cap[u, v]
    ensures cap.Length0 == cap.Length1 ==> Square(M, cap.Length0)
  {
    seq(cap.Length0, u requires 0 <= u < cap.Length0 reads cap =>
      seq(cap.Length1, v requires 0 <= v < cap.Length1 reads cap => cap[u, v]))
  }

  /** L holds the breadth-first distances from s over the edges with capacity, -1 where there is no path. */
  ghost predicate Levels(M: Matrix, n: nat, s: nat, L: seq<int>) {
    && Square(M, n) && |L| == n && s < n
    && (forall v: nat :: v < n ==> -1 <= L[v] < n)
    && (forall v: nat :: v < n ==> (L[v] == 0 <==> v == s))
    && Rooted(M, n, L)
    && (forall u: nat, v: nat :: u < n && v < n && L[u] >= 0 && M[u][v] > 0 ==> 0 <= L[v] <= L[u] + 1)
  }

  /** Some edge with capacity enters v from the level before. */
  ghost predicate HasParent(M: Matrix, n: nat, L: seq<int>, v: nat)
    requires Square(M, n) && |L| == n && v < n
  {
    exists u: nat :: u < n && M[u][v] > 0 && L[u] == L[v] - 1
  }

  /** The queue is the source's local buffer of n entries: Search bounds its length. */
  method Bfs(cap: array2<int>, n: nat, s: nat, t: nat, level: array<int>) returns (found: bool)
    requires cap.Length0 == cap.Length1 == level.Length == n && s < n && t < n
    modifies level
    ensures Levels(Value(cap), n, s, level[..])
    ensures found <==> level[t] >= 0
  {
    hide *;
    for i := 0 to n
      invariant forall j :: 0 <= j < i ==> level[j] == -1
    {
      level[i] := -1;
    }
    level[s] := 0;
    var q: seq<nat>, qh: nat := [s], 0;
    ghost var M, L := Value(cap), level[..];
    SearchStarts(M, n, s, L, q);
    while qh < |q|
      invariant 0 <= qh <= |q| && Value(cap) == M && level[..] == L
      invariant Search(M, n, s, L, q, qh)
      invariant qh < |q| ==> Tight(L, q, qh)
      decreases n - qh
    {
      SearchFacts(M, n, s, L, q, qh);
      var u := q[qh]; qh := qh + 1;
      for v := 0 to n
        invariant qh <= |q| && Value(cap) == M && level[..] == L && q[qh - 1] == u < n
        invariant Search(M, n, s, L, q, qh - 1) && Tight(L, q, qh - 1)
        invariant ScannedTo(M, n, L, u, v)
      {
        if level[v] < 0 && cap[u, v] > 0 {
          Discover(M, n, s, L, q, qh - 1, v);
          level[v] := level[u] + 1; q := q + [v];
          L := L[v := L[u] + 1];
        } else {
          ScanSkips(M, n, s, L, q, qh - 1, v);
        }
      }
      ScanDone(M, n, s, L, q, qh - 1);
    }
    SearchEnds(M, n, s, L, q);
    return level[t] >= 0;
  }

  /** The breadth-first search under way: Q lists the reached nodes once each in
      level order, and the first `done` of them have been scanned. */
  ghost predicate Search(M: Matrix, n: nat, s: nat, L: seq<int>, Q: seq<nat>, done: nat) {
    && Square(M, n) && |L| == n && s < n && done <= |Q| <= n
    && InOrder(n, L, Q)
    && Reached(n, s, L, Q)
    && Rooted(M, n, L)
    && (forall i: nat :: i < done ==> ScannedTo(M, n, L, Q[i], n))
  }

  ghost predicate InOrder(n: nat, L: seq<int>, Q: seq<nat>) {
    && |L| == n
    && (forall i: nat :: i < |Q| ==> Q[i] < n && 0 <= L[Q[i]] <= i)
    && (forall i: nat, j: nat :: i < j < |Q| ==> Q[i] != Q[j])
    && (forall i: nat, j: nat :: i < j < |Q| ==> L[Q[i]] <= L[Q[j]])
  }

  ghost predicate Reached(n: nat, s: nat, L: seq<int>, Q: seq<nat>) {
    && |L| == n
    && forall v: nat :: v < n ==> L[v] >= -1 && (L[v] >= 0 ==> v in Q) && (L[v] == 0 <==> v == s)
  }

  ghost predicate Rooted(M: Matrix, n: nat, L: seq<int>) {
    && Square(M, n) && |L| == n
    && forall v: nat {:trigger HasParent(M, n, L, v)} :: v < n && L[v] > 0 ==> HasParent(M, n, L, v)
  }

  /** The edges of u to nodes below k lead to nodes at most one level deeper. */
  ghost predicate ScannedTo(M: Matrix, n: nat, L: seq<int>, u: nat, k: nat) {
    && Square(M, n) && |L| == n && u < n && k <= n
    && forall v: nat :: v < k && M[u][v] > 0 ==> 0 <= L[v] <= L[u] + 1
  }

  /** The last queued node is at most one level below the one being scanned. */
  ghost predicate Tight(L: seq<int>, Q: seq<nat>, h: nat) {
    && h < |Q| && Q[h] < |L| && Q[|Q| - 1] < |L|
    && L[Q[|Q| - 1]] <= L[Q[h]] + 1
  }

  lemma SearchStarts(M: Matrix, n: nat, s: nat, L: seq<int>, Q: seq<nat>)
    requires Square(M, n) && |L| == n && s < n && Q == [s]
    requires forall v: nat :: v < n ==> L[v] == if v == s then 0 else -1
    ensures Search(M, n, s, L, Q, 0) && Tight(L, Q, 0)
  {
  }

  lemma SearchFacts(M: Matrix, n: nat, s: nat, L: seq<int>, Q: seq<nat>, h: nat)
    requires Search(M, n, s, L, Q, h) && h < |Q|
    ensures |L| == n && h < |Q| <= n && Q[h] < n && ScannedTo(M, n, L, Q[h], 0)
  {
  }

  lemma Discover(M: Matrix, n: nat, s: nat, L: seq<int>, Q: seq<nat>, h: nat, v: nat)
    requires Search(M, n, s, L, Q, h) && Tight(L, Q, h) && ScannedTo(M, n, L, Q[h], v)
    requires v < n && L[v] < 0 && M[Q[h]][v] > 0
    ensures var L' := L[v := L[Q[h]] + 1];
      |Q| < n && Search(M, n, s, L', Q + [v], h) && Tight(L', Q + [v], h) && ScannedTo(M, n, L', Q[h], v + 1)
  {
    hide Rooted;
    hide HasParent;
    var u, L', Q' := Q[h], L[v := L[Q[h]] + 1], Q + [v];
    OrderGrows(n, L, Q, h, v);
    RootedGrows(M, n, L, u, v);
    ScansKept(M, n, L, Q, h, v, L[u] + 1);
    assert Reached(n, s, L', Q') by { assert forall x :: x in Q ==> x in Q'; assert v in Q'; }
  }

  lemma ScansKept(M: Matrix, n: nat, L: seq<int>, Q: seq<nat>, h: nat, v: nat, l: int)
    requires |L| == n && h < |Q| && v < n && L[v] < 0
    requires forall i: nat :: i < h ==> ScannedTo(M, n, L, Q[i], n)
    requires forall i: nat :: i < |Q| ==> Q[i] < n && Q[i] != v
    ensures forall i: nat :: i < h ==> ScannedTo(M, n, L[v := l], (Q + [v])[i], n)
  {
    forall i: nat | i < h
      ensures ScannedTo(M, n, L[v := l], (Q + [v])[i], n)
    {
      assert ScannedTo(M, n, L, Q[i], n);
    }
  }

  lemma ScanSkips(M: Matrix, n: nat, s: nat, L: seq<int>, Q: seq<nat>, h: nat, v: nat)
    requires Search(M, n, s, L, Q, h) && Tight(L, Q, h) && ScannedTo(M, n, L, Q[h], v)
    requires v < n && (L[v] >= 0 || M[Q[h]][v] <= 0)
    ensures ScannedTo(M, n, L, Q[h], v + 1)
  {
    if L[v] >= 0 {
      var i :| 0 <= i < |Q| && Q[i] == v;
      assert i < |Q| - 1 ==> L[Q[i]] <= L[Q[|Q| - 1]];
    }
  }

  lemma OrderGrows(n: nat, L: seq<int>, Q: seq<nat>, done: nat, v: nat)
    requires InOrder(n, L, Q) && done < |Q| && v < n && L[v] < 0
    requires L[Q[|Q| - 1]] <= L[Q[done]] + 1
    ensures |Q| < n && InOrder(n, L[v := L[Q[done]] + 1], Q + [v])
  {
    var L', Q' := L[v := L[Q[done]] + 1], Q + [v];
    forall i: nat | i < |Q|
      ensures Q'[i] == Q[i] != v && L'[Q[i]] == L[Q[i]] <= L'[v]
    {
      if i < |Q| - 1 { assert L[Q[i]] <= L[Q[|Q| - 1]]; }
    }
    Distinct(n, Q');
  }

  lemma RootedGrows(M: Matrix, n: nat, L: seq<int>, u: nat, v: nat)
    requires Rooted(M, n, L)
    requires u < n && v < n && L[u] >= 0 && L[v] < 0 && M[u][v] > 0
    ensures Rooted(M, n, L[v := L[u] + 1])
  {
    var L' := L[v := L[u] + 1];
    forall w: nat | w < n && L'[w] > 0
      ensures HasParent(M, n, L', w)
    {
      if w == v {
        assert M[u][v] > 0;
      } else {
        assert HasParent(M, n, L, w);
      }
    }
  }

  /** A list of distinct indices below n has at most n entries. */
  lemma {:induction false} Distinct(n: nat, Q: seq<nat>)
    requires forall i: nat :: i < |Q| ==> Q[i] < n
    requires forall i: nat, j: nat :: i < j < |Q| ==> Q[i] != Q[j]
    ensures |Q| <= n
  {
    DistinctWithin(Below(n), Q);
  }

  lemma {:induction false} DistinctWithin(B: set<nat>, Q: seq<nat>)
    requires forall i: nat :: i < |Q| ==> Q[i] in B
    requires forall i: nat, j: nat :: i < j < |Q| ==> Q[i] != Q[j]
    ensures |Q| <= |B|
  {
    if |Q| > 0 {
      var k := |Q| - 1;
      assert forall i: nat :: i < k ==> Q[..k][i] == Q[i];
      DistinctWithin(B - {Q[k]}, Q[..k]);
    }
  }

  lemma ScanDone(M: Matrix, n: nat, s: nat, L: seq<int>, Q: seq<nat>, h: nat)
    requires Search(M, n, s, L, Q, h) && Tight(L, Q, h) && ScannedTo(M, n, L, Q[h], n)
    ensures Search(M, n, s, L, Q, h + 1)
    ensures h + 1 < |Q| ==> Tight(L, Q, h + 1)
  {
    if h + 1 < |Q| { assert L[Q[h]] <= L[Q[h + 1]]; }
  }

  lemma SearchEnds(M: Matrix, n: nat, s: nat, L: seq<int>, Q: seq<nat>)
    requires Search(M, n, s, L, Q, |Q|)
    ensures Levels(M, n, s, L)
  {
    forall u: nat, v: nat | u < n && v < n && L[u] >= 0 && M[u][v] > 0
      ensures 0 <= L[v] <= L[u] + 1
    {
      var i :| 0 <= i < |Q| && Q[i] == u;
      assert ScannedTo(M, n, L, Q[i], n);
    }
    forall v: nat | v < n
      ensures L[v] < n
    {
      if L[v] >= 0 {
        var i :| 0 <= i < |Q| && Q[i] == v;
      }
    }
  }

  /** Edge (u, v) cannot be on an augmenting path of the level graph any more. */
  ghost predicate Dead(M: Matrix, n: nat, L: seq<int>, I: seq<int>, t: nat, u: nat, v: nat)
    requires Square(M, n) && |L| == n && |I| == n && u < n && v < n
  {
    M[u][v] <= 0 || L[v] != L[u] + 1 || (v != t && I[v] == n)
  }

  /** Every edge a node's iterator has passed is dead. */
  ghost predicate Pruned(M: Matrix, n: nat, L: seq<int>, I: seq<int>, t: nat) {
    && Square(M, n) && |L| == n && |I| == n
    && (forall u: nat :: u < n ==> 0 <= I[u] <= n && L[u] < n)
    && (forall u: nat, v: nat :: u < n && v < n && v < I[u] ==> Dead(M, n, L, I, t, u, v))
  }

  /** The iterators only move forward, and only below u. */
  ghost predicate Advanced(n: nat, L: seq<int>, u: nat, I: seq<int>, I': seq<int>) {
    && |L| == n && |I| == n && |I'| == n && u < n
    && forall x: nat :: x < n ==> I[x] <= I'[x] && (L[x] <= L[u] && x != u ==> I'[x] == I[x])
  }

  /** M' is M after d units were pushed from u to t, through levels below u only. */
  ghost predicate Pushed(M: Matrix, M': Matrix, n: nat, L: seq<int>, u: nat, t: nat, d: int) {
    && Square(M, n) && Square(M', n) && |L| == n && u < n && t < n
    && NonNegative(M') && SamePairs(M, M', n)
    && (forall x: nat :: x < n ==>
          Out(M', x) == Out(M, x) - (if x == u then d else 0) + (if x == t then d else 0))
    && (forall x: nat, y: nat {:trigger M'[x][y]} {:trigger M[x][y]} ::
          x < n && y < n && (L[x] < L[u] || L[y] < L[u]) ==> M'[x][y] == M[x][y])
  }

  /** The depth-first search for one augmenting path of the level graph. */
  method Dfs(cap: array2<int>, n: nat, u: nat, t: nat, f: int, level: array<int>, it: array<int>) returns (d: int)
    requires cap.Length0 == cap.Length1 == level.Length == it.Length == n && level != it
    requires u < n && t < n && f > 0
    requires NonNegative(Value(cap)) && Pruned(Value(cap), n, level[..], it[..], t)
    modifies cap, it
    ensures 0 <= d <= f
    ensures Pruned(Value(cap), n, level[..], it[..], t)
    ensures Advanced(n, level[..], u, old(it[..]), it[..])
    ensures d == 0 ==> Value(cap) == old(Value(cap)) && u != t && it[u] == n
    ensures d > 0 ==> Pushed(old(Value(cap)), Value(cap), n, level[..], u, t, d)
    decreases n - level[u]
  {
    hide *;
    ghost var M, L, I := Value(cap), level[..], it[..];
    PrunedFacts(M, n, L, I, t, u);
    if u == t {
      PushNothing(M, n, L, t, f);
      return f;
    }
    while it[u] < n
      invariant Value(cap) == M && level[..] == L
      invariant Pruned(M, n, L, it[..], t) && Advanced(n, L, u, I, it[..])
      invariant 0 <= it[u] <= n
    {
      var w := it[u];
      ghost var J := it[..];
      if cap[u, w] > 0 && level[w] == level[u] + 1 {
        d := Dfs(cap, n, w, t, if f < cap[u, w] then f else cap[u, w], level, it);
        if d > 0 {
          ghost var M1 := Value(cap);
          PushFacts(M, M1, n, L, u, w, t, d);
          cap[u, w] := cap[u, w] - d;
          cap[w, u] := cap[w, u] + d;
          PushEdge(M, M1, Value(cap), n, L, u, w, t, d);
          PushPrunes(M1, Value(cap), n, L, it[..], t, u, w);
          AdvanceTrans(n, L, u, w, I, J, it[..]);
          return d;
        }
        AdvanceTrans(n, L, u, w, I, J, it[..]);
      }
      ghost var K := it[..];
      SkipEdge(M, n, L, K, t, u, w);
      it[u] := it[u] + 1;
      assert it[..] == K[u := w + 1];
      AdvanceOne(n, L, u, I, K);
    }
    d := 0;
  }

  lemma PrunedFacts(M: Matrix, n: nat, L: seq<int>, I: seq<int>, t: nat, u: nat)
    requires Pruned(M, n, L, I, t) && u < n
    ensures 0 <= I[u] <= n && L[u] < n && Advanced(n, L, u, I, I)
  {
  }

  lemma PushNothing(M: Matrix, n: nat, L: seq<int>, t: nat, f: int)
    requires Square(M, n) && NonNegative(M) && |L| == n && t < n
    ensures Pushed(M, M, n, L, t, t, f)
  {
  }

  lemma PushFacts(M: Matrix, M1: Matrix, n: nat, L: seq<int>, u: nat, w: nat, t: nat, d: int)
    requires Pushed(M, M1, n, L, w, t, d) && u < n && L[w] == L[u] + 1
    ensures M1[u][w] == M[u][w]
  {
  }

  /** M2 is M1 after d units crossed the edge (u, w). */
  ghost predicate Crossed(M1: Matrix, M2: Matrix, n: nat, u: nat, w: nat, d: int) {
    && Square(M1, n) && Square(M2, n) && u < n && w < n && u != w
    && M2[u] == M1[u][w := M1[u][w] - d] && M2[w] == M1[w][u := M1[w][u] + d]
    && forall x: nat :: x < n && x != u && x != w ==> M2[x] == M1[x]
  }

  lemma CrossOut(M1: Matrix, M2: Matrix, n: nat, u: nat, w: nat, d: int, x: nat)
    requires Crossed(M1, M2, n, u, w, d) && x < n
    ensures Out(M2, x) == Out(M1, x) - (if x == u then d else 0) + (if x == w then d else 0)
  {
    SumToUpdate(M1[u], Below(n), n, w, M1[u][w] - d);
    SumToUpdate(M1[w], Below(n), n, u, M1[w][u] + d);
  }

  lemma CrossPairs(M1: Matrix, M2: Matrix, n: nat, u: nat, w: nat, d: int)
    requires Crossed(M1, M2, n, u, w, d) && NonNegative(M1) && 0 < d <= M1[u][w]
    ensures NonNegative(M2) && SamePairs(M1, M2, n)
  {
  }

  /** Pushing over (u, w) after pushing from w to t is pushing from u to t. */
  lemma PushEdge(M: Matrix, M1: Matrix, M2: Matrix, n: nat, L: seq<int>, u: nat, w: nat, t: nat, d: int)
    requires Pushed(M, M1, n, L, w, t, d) && Square(M2, n)
    requires u < n && u != t && L[w] == L[u] + 1 && 0 < d <= M1[u][w]
    requires M2[u] == M1[u][w := M1[u][w] - d] && M2[w] == M1[w][u := M1[w][u] + d]
    requires forall x: nat :: x < n && x != u && x != w ==> M2[x] == M1[x]
    ensures Pushed(M, M2, n, L, u, t, d)
  {
    assert Crossed(M1, M2, n, u, w, d);
    CrossPairs(M1, M2, n, u, w, d);
    forall x: nat | x < n
      ensures Out(M2, x) == Out(M, x) - (if x == u then d else 0) + (if x == t then d else 0)
    {
      CrossOut(M1, M2, n, u, w, d, x);
    }
    assert SamePairs(M, M2, n);
  }

  lemma PushPrunes(M1: Matrix, M2: Matrix, n: nat, L: seq<int>, I: seq<int>, t: nat, u: nat, w: nat)
    requires Pruned(M1, n, L, I, t) && Square(M2, n)
    requires u < n && w < n && L[w] == L[u] + 1 && M2[u][w] <= M1[u][w]
    requires forall x: nat, y: nat :: x < n && y < n && !(x == u && y == w) && !(x == w && y == u) ==> M2[x][y] == M1[x][y]
    ensures Pruned(M2, n, L, I, t)
  {
    forall x: nat, y: nat | x < n && y < n && y < I[x]
      ensures Dead(M2, n, L, I, t, x, y)
    {
      assert Dead(M1, n, L, I, t, x, y);
    }
  }

  lemma SkipEdge(M: Matrix, n: nat, L: seq<int>, I: seq<int>, t: nat, u: nat, w: nat)
    requires Pruned(M, n, L, I, t) && u < n && w < n && I[u] == w
    requires Dead(M, n, L, I, t, u, w)
    ensures Pruned(M, n, L, I[u := w + 1], t)
  {
    var I' := I[u := w + 1];
    forall x: nat, y: nat | x < n && y < n && y < I'[x]
      ensures Dead(M, n, L, I', t, x, y)
    {
      assert Dead(M, n, L, I, t, x, y);
    }
  }

  lemma AdvanceTrans(n: nat, L: seq<int>, u: nat, w: nat, I: seq<int>, J: seq<int>, K: seq<int>)
    requires Advanced(n, L, u, I, J) && Advanced(n, L, w, J, K) && L[w] == L[u] + 1
    ensures Advanced(n, L, u, I, K) && K[u] == J[u]
  {
  }

  lemma AdvanceOne(n: nat, L: seq<int>, u: nat, I: seq<int>, K: seq<int>)
    requires Advanced(n, L, u, I, K)
    ensures Advanced(n, L, u, I, K[u := K[u] + 1])
  {
  }
}
