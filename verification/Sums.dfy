/** Sums of integer sequences over index sets: the reading of a member bitset. */
module Sums {

  /** The sum of p[i] over the indices i < k that are in S. */
  function SumTo(p: seq<int>, S: set<nat>, k: nat): int
    requires k <= |p|
  {
    if k == 0 then 0
    else SumTo(p, S, k - 1) + if k - 1 in S then p[k - 1] else 0
  }

  /** The sum of p[i] over all indices i in S. */
  function Sum(p: seq<int>, S: set<nat>): int {
    SumTo(p, S, |p|)
  }

  /** The set of indices below k. */
  function Below(k: nat): (S: set<nat>)
    ensures forall i: nat :: i in S <==> i < k
    ensures |S| == k
  {
    if k == 0 then {} else Below(k - 1) + {k - 1}
  }

  /** Sums only look at the indices below k. */
  lemma {:induction false} SumToAgree(p: seq<int>, q: seq<int>, A: set<nat>, B: set<nat>, k: nat)
    requires k <= |p| && k <= |q|
    requires forall i: nat :: i < k ==> (i in A <==> i in B) && (i in A ==> p[i] == q[i])
    ensures SumTo(p, A, k) == SumTo(q, B, k)
  {
    if k > 0 { SumToAgree(p, q, A, B, k - 1); }
  }

  lemma {:induction false} SumToSplit(p: seq<int>, A: set<nat>, B: set<nat>, k: nat)
    requires k <= |p|
    requires A !! B
    ensures SumTo(p, A + B, k) == SumTo(p, A, k) + SumTo(p, B, k)
  {
    if k > 0 { SumToSplit(p, A, B, k - 1); }
  }

  /** A sum over B splits at any set A. */
  lemma SumSplit(p: seq<int>, A: set<nat>, B: set<nat>)
    ensures Sum(p, B) == Sum(p, B * A) + Sum(p, B - A)
  {
    SumToSplit(p, B * A, B - A, |p|);
    assert (B * A) + (B - A) == B;
  }

  lemma {:induction false} SumToMonotone(p: seq<int>, A: set<nat>, k: nat)
    requires k <= |p|
    requires forall i: nat :: i < |p| && i in A ==> p[i] >= 0
    ensures SumTo(p, A, k) >= 0
    ensures forall i: nat :: i < k && i in A ==> p[i] <= SumTo(p, A, k)
  {
    if k > 0 { SumToMonotone(p, A, k - 1); }
  }

  lemma {:induction false} EmptySum(p: seq<int>, k: nat)
    requires k <= |p|
    ensures SumTo(p, {}, k) == 0
  {
    if k > 0 { EmptySum(p, k - 1); }
  }

  /** Changing one entry changes the sum by the difference. */
  lemma {:induction false} SumToUpdate(p: seq<int>, S: set<nat>, k: nat, i: nat, x: int)
    requires k <= |p| && i < |p|
    ensures SumTo(p[i := x], S, k) == SumTo(p, S, k) + if i < k && i in S then x - p[i] else 0
  {
    if k > 0 { SumToUpdate(p, S, k - 1, i, x); }
  }

  /** Sums are linear in the summed sequence. */
  lemma {:induction false} SumToLinear(p: seq<int>, q: seq<int>, r: seq<int>, a: int, b: int, S: set<nat>, k: nat)
    requires k <= |p| && |p| == |q| == |r|
    requires forall i: nat :: i < |p| && i in S ==> r[i] == a * p[i] + b * q[i]
    ensures SumTo(r, S, k) == a * SumTo(p, S, k) + b * SumTo(q, S, k)
  {
    if k > 0 { SumToLinear(p, q, r, a, b, S, k - 1); }
  }

  lemma {:induction false} SubsetSize<T>(A: set<T>, B: set<T>)
    requires A <= B
    ensures |A| <= |B|
    ensures A != B ==> |A| < |B|
  {
    if A != {} {
      var x :| x in A;
      SubsetSize(A - {x}, B - {x});
    }
  }
}
