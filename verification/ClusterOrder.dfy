/** The order a walk through a cluster finds its members in, and why it depends on nothing but the order of the slots. */
module ClusterOrder {
  import opened Marking
  import Sums

  /** The unmarked of a list pushed, in order, and marked. */
  function PushNew(ys: seq<nat>, stack: seq<nat>, mark: set<nat>): (r: (seq<nat>, set<nat>))
    ensures mark <= r.1 && |r.0| + |mark| == |stack| + |r.1|
    ensures forall y :: y in r.1 ==> y in mark || y in ys
    ensures forall y :: y in ys ==> y in r.1
    ensures forall y :: y in r.0 ==> y in stack || y in ys
    decreases |ys|
  {
    if ys == [] then (stack, mark)
    else
      var last := ys[|ys| - 1];
      var r := PushNew(ys[..|ys| - 1], stack, mark);
      if last in r.1 then r else (r.0 + [last], r.1 + {last})
  }

  /** What a walk may be asked: slots of the graph, marked and waiting. */
  ghost predicate Ready(adj: seq<seq<nat>>, stack: seq<nat>, mark: set<nat>) {
    KidsFit(adj) && mark <= Sums.Below(|adj|) && forall s :: s in stack ==> s < |adj|
  }

  lemma StepReady(adj: seq<seq<nat>>, stack: seq<nat>, mark: set<nat>)
    requires Ready(adj, stack, mark) && |stack| > 0
    ensures stack[|stack| - 1] < |adj|
    ensures var r := PushNew(adj[stack[|stack| - 1]], stack[..|stack| - 1], mark);
      Ready(adj, r.0, r.1) && 2 * |Sums.Below(|adj|) - r.1| + |r.0| < 2 * |Sums.Below(|adj|) - mark| + |stack|
  {
    var cur, rest := stack[|stack| - 1], stack[..|stack| - 1];
    assert cur in stack;
    var r := PushNew(adj[cur], rest, mark);
    assert forall s :: s in rest ==> s in stack;
    Fewer(Sums.Below(|adj|), mark, r.1);
  }

  lemma Fewer(S: set<nat>, A: set<nat>, B: set<nat>)
    requires A <= B <= S
    ensures |S - B| == |S| - |B| && |S - A| == |S| - |A| && |A| <= |B|
  {
    assert S == (S - B) + B && S == (S - A) + A && B == A + (B - A);
  }

  /** The walk: the last of the stack taken, its unmarked neighbours pushed. */
  ghost function Walk(adj: seq<seq<nat>>, out: seq<nat>, stack: seq<nat>, mark: set<nat>): seq<nat>
    requires Ready(adj, stack, mark)
    decreases 2 * |Sums.Below(|adj|) - mark| + |stack|
  {
    if stack == [] then out
    else
      StepReady(adj, stack, mark);
      var r := PushNew(adj[stack[|stack| - 1]], stack[..|stack| - 1], mark);
      Walk(adj, out + [stack[|stack| - 1]], r.0, r.1)
  }

  ghost function Members(adj: seq<seq<nat>>, s: nat): seq<nat>
    requires KidsFit(adj) && s < |adj|
  {
    Walk(adj, [], [s], {s})
  }

  ghost predicate Apart(s: seq<nat>) {
    forall i: nat, j: nat :: i < j < |s| ==> s[i] != s[j]
  }

  function SetOf(s: seq<nat>): (r: set<nat>)
    ensures forall x :: x in r <==> x in s
  {
    set x | x in s
  }

  /** How far a walk has come: what is out and what waits is what is marked, each once. */
  ghost predicate Going(adj: seq<seq<nat>>, s: nat, out: seq<nat>, stack: seq<nat>, mark: set<nat>) {
    && Ready(adj, stack, mark) && Only(adj, {s}, mark) && Walking(adj, mark, stack, {})
    && Apart(out + stack) && SetOf(out + stack) == mark
  }

  lemma {:induction false} PushGoing(adj: seq<seq<nat>>, s: nat, out: seq<nat>, stack: seq<nat>, mark: set<nat>, p: nat, ys: seq<nat>)
    requires KidsFit(adj) && Only(adj, {s}, mark) && p < |adj| && p in mark && ys <= adj[p]
    requires Walking(adj, mark, stack, {p}) && Apart(out + stack) && SetOf(out + stack) == mark
    ensures var r := PushNew(ys, stack, mark);
      Only(adj, {s}, r.1) && Walking(adj, r.1, r.0, {p}) && Apart(out + r.0) && SetOf(out + r.0) == r.1
    decreases |ys|
  {
    if ys != [] {
      var n := |ys| - 1;
      PushGoing(adj, s, out, stack, mark, p, ys[..n]);
      var r := PushNew(ys[..n], stack, mark);
      assert ys[n] in adj[p];
      if ys[n] !in r.1 { PushOne(adj, s, out, r.0, r.1, p, ys[n]); }
    }
  }

  lemma PushOne(adj: seq<seq<nat>>, s: nat, out: seq<nat>, stack: seq<nat>, mark: set<nat>, p: nat, y: nat)
    requires KidsFit(adj) && Only(adj, {s}, mark) && p < |adj| && p in mark && y in adj[p] && y !in mark
    requires Walking(adj, mark, stack, {p}) && Apart(out + stack) && SetOf(out + stack) == mark
    ensures Only(adj, {s}, mark + {y}) && Walking(adj, mark + {y}, stack + [y], {p})
    ensures Apart(out + (stack + [y])) && SetOf(out + (stack + [y])) == mark + {y}
  {
    OnlyMore(adj, {s}, mark, p, y);
    Push(adj, mark, stack, {p}, y);
    assert out + (stack + [y]) == (out + stack) + [y];
  }

  lemma StepGoing(adj: seq<seq<nat>>, s: nat, out: seq<nat>, stack: seq<nat>, mark: set<nat>)
    requires Going(adj, s, out, stack, mark) && |stack| > 0
    ensures stack[|stack| - 1] < |adj|
    ensures var r := PushNew(adj[stack[|stack| - 1]], stack[..|stack| - 1], mark);
      Going(adj, s, out + [stack[|stack| - 1]], r.0, r.1)
  {
    hide Only, Walking, DownClosed, PushNew;
    var cur, rest := stack[|stack| - 1], stack[..|stack| - 1];
    StepReady(adj, stack, mark);
    Pop(adj, mark, stack);
    assert out + [cur] + rest == out + [cur] + rest;
    Shuffle(out, cur, rest, stack);
    PushGoing(adj, s, out + [cur], rest, mark, cur, adj[cur]);
    var r := PushNew(adj[cur], rest, mark);
    Drop(adj, r.1, r.0, cur);
  }

  lemma Shuffle(out: seq<nat>, cur: nat, rest: seq<nat>, stack: seq<nat>)
    requires stack == rest + [cur] && Apart(out + stack)
    ensures Apart(out + [cur] + rest) && SetOf(out + [cur] + rest) == SetOf(out + stack)
  {
    var a, b := out + stack, out + [cur] + rest;
    forall i: nat, j: nat | i < j < |b| ensures b[i] != b[j] {
      var f := (k: nat) => if k < |out| then k else if k == |out| then |a| - 1 else k - 1;
      assert b[i] == a[f(i)] && b[j] == a[f(j)] && f(i) != f(j);
      Pair(a, f(i), f(j));
    }
    forall x ensures x in b <==> x in a { }
  }

  lemma Pair(a: seq<nat>, i: nat, j: nat)
    requires Apart(a) && i < |a| && j < |a| && i != j
    ensures a[i] != a[j]
  {
    if i < j { assert a[i] != a[j]; } else { assert a[j] != a[i]; }
  }

  /** A walk that has come so far finds exactly the cluster, each member once. */
  lemma {:induction false} WalkFinds(adj: seq<seq<nat>>, s: nat, out: seq<nat>, stack: seq<nat>, mark: set<nat>)
    requires Going(adj, s, out, stack, mark)
    ensures Apart(Walk(adj, out, stack, mark)) && SetOf(Walk(adj, out, stack, mark)) == Below(adj, {s})
    decreases 2 * |Sums.Below(|adj|) - mark| + |stack|
  {
    if stack == [] {
      assert out + stack == out;
      WalkEnds(adj, {s}, mark);
    } else {
      StepReady(adj, stack, mark);
      StepGoing(adj, s, out, stack, mark);
      var r := PushNew(adj[stack[|stack| - 1]], stack[..|stack| - 1], mark);
      WalkFinds(adj, s, out + [stack[|stack| - 1]], r.0, r.1);
    }
  }

  lemma StartGoing(adj: seq<seq<nat>>, s: nat)
    requires KidsFit(adj) && s < |adj|
    ensures Going(adj, s, [], [s], {s})
  {
  }

  lemma MembersAre(adj: seq<seq<nat>>, s: nat)
    requires KidsFit(adj) && s < |adj|
    ensures Apart(Members(adj, s)) && SetOf(Members(adj, s)) == Below(adj, {s})
  {
    StartGoing(adj, s);
    WalkFinds(adj, s, [], [s], {s});
  }

  /** A slot through a renaming. */
  function At(from: seq<nat>, x: nat): nat {
    if x < |from| then from[x] else x
  }

  function Via(from: seq<nat>, s: seq<nat>): (r: seq<nat>)
    ensures |r| == |s| && forall k: nat :: k < |s| ==> r[k] == At(from, s[k])
  {
    seq(|s|, k requires 0 <= k < |s| => At(from, s[k]))
  }

  ghost function ViaSet(from: seq<nat>, S: set<nat>): (r: set<nat>)
    ensures forall x :: x in S ==> At(from, x) in r
    ensures forall y :: y in r ==> exists x :: x in S && At(from, x) == y
  {
    set x | x in S :: At(from, x)
  }

  ghost predicate AllIn(s: seq<nat>, K: set<nat>) {
    forall x :: x in s ==> x in K
  }

  ghost predicate OneToOne(from: seq<nat>, K: set<nat>) {
    forall a, b :: a in K && b in K && a != b ==> At(from, a) != At(from, b)
  }

  /** A closed part K of one graph renamed into another: the neighbours are the same, in the same order, and nobody is mistaken for another. */
  ghost predicate Renames(adj: seq<seq<nat>>, bdj: seq<seq<nat>>, from: seq<nat>, K: set<nat>) {
    && KidsFit(adj) && KidsFit(bdj) && K <= Sums.Below(|adj|) && OneToOne(from, K)
    && (forall a :: a in K ==> At(from, a) < |bdj| && AllIn(adj[a], K) && bdj[At(from, a)] == Via(from, adj[a]))
  }

  lemma ViaWith(from: seq<nat>, s: seq<nat>, x: nat)
    ensures Via(from, s + [x]) == Via(from, s) + [At(from, x)]
  {
  }

  lemma ViaTake(from: seq<nat>, s: seq<nat>, n: nat)
    requires n <= |s|
    ensures Via(from, s)[..n] == Via(from, s[..n])
  {
  }

  lemma ViaSetWith(from: seq<nat>, K: set<nat>, M: set<nat>, x: nat)
    requires OneToOne(from, K) && M <= K && x in K
    ensures ViaSet(from, M + {x}) == ViaSet(from, M) + {At(from, x)} && (At(from, x) in ViaSet(from, M) <==> x in M)
  {
  }

  lemma {:induction false} PushRenames(from: seq<nat>, K: set<nat>, ys: seq<nat>, stack: seq<nat>, mark: set<nat>)
    requires OneToOne(from, K) && AllIn(ys, K) && AllIn(stack, K) && mark <= K
    ensures var r := PushNew(ys, stack, mark);
      AllIn(r.0, K) && r.1 <= K && PushNew(Via(from, ys), Via(from, stack), ViaSet(from, mark)) == (Via(from, r.0), ViaSet(from, r.1))
    decreases |ys|
  {
    hide OneToOne, Via, ViaSet, At;
    if ys != [] {
      var n := |ys| - 1;
      ViaTake(from, ys, n);
      PushRenames(from, K, ys[..n], stack, mark);
      var r := PushNew(ys[..n], stack, mark);
      assert ys[n] in ys && ys[n] in K;
      ViaSetWith(from, K, r.1, ys[n]);
      ViaWith(from, r.0, ys[n]);
    } else {
      assert Via(from, ys) == [];
    }
  }

  /** One step of the walk in both graphs. */
  lemma StepRenames(adj: seq<seq<nat>>, bdj: seq<seq<nat>>, from: seq<nat>, K: set<nat>, stack: seq<nat>, mark: set<nat>)
    requires Renames(adj, bdj, from, K) && Ready(adj, stack, mark) && AllIn(stack, K) && mark <= K && |stack| > 0
    ensures var n := |stack| - 1; var cur := stack[n];
      && cur in K && cur < |adj| && Via(from, stack)[n] == At(from, cur) < |bdj|
      && var r := PushNew(adj[cur], stack[..n], mark);
         AllIn(r.0, K) && r.1 <= K && PushNew(bdj[At(from, cur)], Via(from, stack)[..n], ViaSet(from, mark)) == (Via(from, r.0), ViaSet(from, r.1))
  {
    hide Ready, Via, ViaSet, At, PushNew, OneToOne, KidsFit, Sums.Below;
    var n := |stack| - 1;
    var cur, rest := stack[n], stack[..n];
    StepReady(adj, stack, mark);
    assert cur in stack && cur in K;
    forall x | x in rest ensures x in K { assert x in stack; }
    ViaTake(from, stack, n);
    PushRenames(from, K, adj[cur], rest, mark);
  }

  /** The same walk in both graphs. */
  lemma {:induction false} WalkRenames(adj: seq<seq<nat>>, bdj: seq<seq<nat>>, from: seq<nat>, K: set<nat>, out: seq<nat>, stack: seq<nat>, mark: set<nat>)
    requires Renames(adj, bdj, from, K) && Ready(adj, stack, mark) && AllIn(out, K) && AllIn(stack, K) && mark <= K
    ensures Ready(bdj, Via(from, stack), ViaSet(from, mark)) && AllIn(Walk(adj, out, stack, mark), K)
    ensures Walk(bdj, Via(from, out), Via(from, stack), ViaSet(from, mark)) == Via(from, Walk(adj, out, stack, mark))
    decreases 2 * |Sums.Below(|adj|) - mark| + |stack|
  {
    hide Ready, Via, ViaSet, At, PushNew, Renames, Sums.Below, AllIn;
    RenamedReady(adj, bdj, from, K, stack, mark);
    if |stack| > 0 {
      var n := |stack| - 1;
      StepReady(adj, stack, mark);
      StepReady(bdj, Via(from, stack), ViaSet(from, mark));
      StepRenames(adj, bdj, from, K, stack, mark);
      var r := PushNew(adj[stack[n]], stack[..n], mark);
      ViaWith(from, out, stack[n]);
      AllInWith(out, K, stack[n]);
      WalkRenames(adj, bdj, from, K, out + [stack[n]], r.0, r.1);
    }
  }

  lemma AllInWith(s: seq<nat>, K: set<nat>, x: nat)
    requires AllIn(s, K) && x in K
    ensures AllIn(s + [x], K)
  {
  }

  lemma RenamedReady(adj: seq<seq<nat>>, bdj: seq<seq<nat>>, from: seq<nat>, K: set<nat>, stack: seq<nat>, mark: set<nat>)
    requires Renames(adj, bdj, from, K) && AllIn(stack, K) && mark <= K
    ensures Ready(bdj, Via(from, stack), ViaSet(from, mark))
  {
    forall s | s in Via(from, stack) ensures s < |bdj| {
      var k: nat :| k < |stack| && At(from, stack[k]) == s;
      assert stack[k] in stack;
    }
  }

  /** A renamed cluster is found in the same order. */
  lemma MembersRename(adj: seq<seq<nat>>, bdj: seq<seq<nat>>, from: seq<nat>, K: set<nat>, s: nat)
    requires Renames(adj, bdj, from, K) && s in K
    ensures At(from, s) < |bdj| && AllIn(Members(adj, s), K) && Members(bdj, At(from, s)) == Via(from, Members(adj, s))
  {
    assert Via(from, []) == [] && Via(from, [s]) == [At(from, s)];
    assert ViaSet(from, {s}) == {At(from, s)};
    WalkRenames(adj, bdj, from, K, [], [s], {s});
  }
}
