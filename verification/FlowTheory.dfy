/** Flow theory on capacity matrices: what the residual matrix of a flow says
    about every cut, without reference to how the flow was found. */
module FlowTheory {
  import opened Sums

  type Matrix = seq<seq<int>>

  ghost predicate Square(M: Matrix, n: nat) {
    && |M| == n
    && forall u: nat :: u < n ==> |M[u]| == n
  }

  ghost predicate NonNegative(M: Matrix) {
    forall u: nat, v: nat :: u < |M| && v < |M[u]| ==> M[u][v] >= 0
  }

  /** Pushing flow moves capacity between an edge and its reverse. */
  ghost predicate SamePairs(M: Matrix, R: Matrix, n: nat)
    requires Square(M, n) && Square(R, n)
  {
    forall u: nat, v: nat :: u < n && v < n ==> M[u][v] + M[v][u] == R[u][v] + R[v][u]
  }

  /** The capacity leaving u. */
  ghost function Out(M: Matrix, u: nat): int
    requires u < |M|
  {
    Sum(M[u], Below(|M[u]|))
  }

  /** R is the residual matrix of a flow of value f from s to t over M. */
  ghost predicate Residual(M: Matrix, R: Matrix, n: nat, s: nat, t: nat, f: int) {
    && Square(M, n) && Square(R, n) && s < n && t < n && s != t
    && NonNegative(R)
    && SamePairs(M, R, n)
    && (forall u: nat :: u < n && u != s && u != t ==> Out(R, u) == Out(M, u))
    && Out(R, s) == Out(M, s) - f
  }

  /** The sum of M[u][v] over u in X below k and v in Y below l. */
  ghost function Block(M: Matrix, X: set<nat>, Y: set<nat>, k: nat, l: nat): int
    requires k <= |M|
    requires forall u: nat :: u < k ==> l <= |M[u]|
  {
    if k == 0 then 0
    else Block(M, X, Y, k - 1, l) + if k - 1 in X then SumTo(M[k - 1], Y, l) else 0
  }

  /** The capacity of the cut with source side X. */
  ghost function Cut(M: Matrix, X: set<nat>, n: nat): int
    requires Square(M, n)
  {
    Block(M, X, Below(n) - X, n, n)
  }

  /** No residual edge leaves X. */
  ghost predicate Saturated(R: Matrix, X: set<nat>, n: nat)
    requires Square(R, n)
  {
    forall u: nat, v: nat :: u < n && v < n && u in X && v !in X ==> R[u][v] <= 0
  }

  /** The sum of column c over the rows in X below k. */
  ghost function Column(M: Matrix, X: set<nat>, k: nat, c: nat): int
    requires k <= |M|
    requires forall u: nat :: u < k ==> c < |M[u]|
  {
    if k == 0 then 0
    else Column(M, X, k - 1, c) + if k - 1 in X then M[k - 1][c] else 0
  }

  lemma {:induction false} BlockGrowColumn(M: Matrix, X: set<nat>, Y: set<nat>, k: nat, l: nat)
    requires k <= |M|
    requires forall u: nat :: u < k ==> l < |M[u]|
    ensures Block(M, X, Y, k, l + 1) == Block(M, X, Y, k, l) + if l in Y then Column(M, X, k, l) else 0
  {
    if k > 0 { BlockGrowColumn(M, X, Y, k - 1, l); }
  }

  /** Row r and column r of two matrices with the same pairs add up alike. */
  lemma {:induction false} CrossSums(M: Matrix, R: Matrix, n: nat, X: set<nat>, k: nat, r: nat)
    requires Square(M, n) && Square(R, n) && SamePairs(M, R, n)
    requires k <= n && r < n
    ensures SumTo(M[r], X, k) + Column(M, X, k, r) == SumTo(R[r], X, k) + Column(R, X, k, r)
  {
    if k > 0 { CrossSums(M, R, n, X, k - 1, r); }
  }

  /** The capacity inside a set only depends on the pair sums. */
  lemma {:induction false} InnerSame(M: Matrix, R: Matrix, n: nat, X: set<nat>, k: nat)
    requires Square(M, n) && Square(R, n) && SamePairs(M, R, n)
    requires k <= n
    ensures Block(M, X, X, k, k) == Block(R, X, X, k, k)
  {
    if k > 0 {
      InnerSame(M, R, n, X, k - 1);
      BlockGrowColumn(M, X, X, k - 1, k - 1);
      BlockGrowColumn(R, X, X, k - 1, k - 1);
      CrossSums(M, R, n, X, k - 1, k - 1);
      assert M[k - 1][k - 1] == R[k - 1][k - 1];
    }
  }

  lemma {:induction false} BlockSplitColumns(M: Matrix, X: set<nat>, Y: set<nat>, Z: set<nat>, k: nat, l: nat)
    requires k <= |M|
    requires forall u: nat :: u < k ==> l <= |M[u]|
    requires Y !! Z
    ensures Block(M, X, Y + Z, k, l) == Block(M, X, Y, k, l) + Block(M, X, Z, k, l)
  {
    if k > 0 {
      BlockSplitColumns(M, X, Y, Z, k - 1, l);
      SumToSplit(M[k - 1], Y, Z, l);
    }
  }

  /** The rows of X together lose exactly f when X holds s and not t. */
  lemma {:induction false} RowsLose(M: Matrix, R: Matrix, n: nat, s: nat, t: nat, f: int, X: set<nat>, k: nat)
    requires Residual(M, R, n, s, t, f)
    requires t !in X && s in X && k <= n
    ensures Block(R, X, Below(n), k, n) == Block(M, X, Below(n), k, n) - if s < k then f else 0
  {
    if k > 0 {
      RowsLose(M, R, n, s, t, f, X, k - 1);
      assert k - 1 in X && k - 1 != s ==> Out(R, k - 1) == Out(M, k - 1);
    }
  }

  lemma {:induction false} BlockNonNegative(M: Matrix, X: set<nat>, Y: set<nat>, k: nat, l: nat)
    requires k <= |M|
    requires forall u: nat :: u < k ==> l <= |M[u]|
    requires NonNegative(M)
    ensures Block(M, X, Y, k, l) >= 0
    ensures forall u: nat, v: nat :: u < k && v < l && u in X && v in Y ==> M[u][v] <= Block(M, X, Y, k, l)
  {
    if k > 0 {
      BlockNonNegative(M, X, Y, k - 1, l);
      SumToMonotone(M[k - 1], Y, l);
    }
  }

  /** A cut pays for every edge that crosses it. */
  lemma CrossingEdge(M: Matrix, X: set<nat>, n: nat, u: nat, v: nat)
    requires Square(M, n) && NonNegative(M) && u < n && v < n && u in X && v !in X
    ensures M[u][v] <= Cut(M, X, n)
  {
    assert v in Below(n) - X;
    BlockNonNegative(M, X, Below(n) - X, n, n);
  }

  lemma {:induction false} BlockZero(M: Matrix, X: set<nat>, Y: set<nat>, k: nat, l: nat)
    requires k <= |M|
    requires forall u: nat :: u < k ==> l <= |M[u]|
    requires forall u: nat, v: nat :: u < k && v < l && u in X && v in Y ==> M[u][v] == 0
    ensures Block(M, X, Y, k, l) == 0
  {
    if k > 0 {
      BlockZero(M, X, Y, k - 1, l);
      RowZero(M[k - 1], Y, l, k - 1 in X);
    }
  }

  lemma {:induction false} RowZero(p: seq<int>, Y: set<nat>, l: nat, relevant: bool)
    requires l <= |p|
    requires forall v: nat :: relevant && v < l && v in Y ==> p[v] == 0
    ensures relevant ==> SumTo(p, Y, l) == 0
  {
    if l > 0 { RowZero(p, Y, l - 1, relevant); }
  }

  /** Conservation across a cut: the residual capacity leaving X is what the flow left of it. */
  lemma CutLoses(M: Matrix, R: Matrix, n: nat, s: nat, t: nat, f: int, X: set<nat>)
    requires Residual(M, R, n, s, t, f)
    requires s in X && t !in X && X <= Below(n)
    ensures Cut(R, X, n) == Cut(M, X, n) - f
  {
    RowsLose(M, R, n, s, t, f, X, n);
    InnerSame(M, R, n, X, n);
    BlockSplitColumns(M, X, X, Below(n) - X, n, n);
    BlockSplitColumns(R, X, X, Below(n) - X, n, n);
    assert X + (Below(n) - X) == Below(n);
  }

  /** Weak duality, and when it is tight: a flow is at most any cut, and equals
      it exactly when no residual edge leaves the cut's source side. */
  lemma FlowAgainstCut(M: Matrix, R: Matrix, n: nat, s: nat, t: nat, f: int, X: set<nat>)
    requires Residual(M, R, n, s, t, f)
    requires s in X && t !in X && X <= Below(n)
    ensures f <= Cut(M, X, n)
    ensures f == Cut(M, X, n) <==> Saturated(R, X, n)
  {
    CutLoses(M, R, n, s, t, f, X);
    var Y := Below(n) - X;
    BlockNonNegative(R, X, Y, n, n);
    if Saturated(R, X, n) {
      BlockZero(R, X, Y, n, n);
    } else {
      var u: nat, v: nat :| u < n && v < n && u in X && v !in X && R[u][v] > 0;
      assert v in Y;
    }
  }
}
