/** Marking a block's conflicts and everything that spends them: the walk through the children and the sweep to a fixpoint. */
module Marking {
  import Sums

  const ROUNDS := 129

  /** With a node, every node that spends it. */
  ghost predicate DownClosed(kids: seq<seq<nat>>, C: set<nat>) {
    forall p: nat, c: nat {:trigger c in kids[p]} :: p < |kids| && p in C && c in kids[p] ==> c in C
  }

  /** In every closed set that holds S. */
  ghost predicate Under(kids: seq<seq<nat>>, S: set<nat>, a: nat) {
    forall C: set<nat> :: S <= C && DownClosed(kids, C) ==> a in C
  }

  /** S and everything below it. */
  ghost function Below(kids: seq<seq<nat>>, S: set<nat>): (r: set<nat>)
    ensures r <= Sums.Below(|kids|)
  {
    set a | a in Sums.Below(|kids|) && Under(kids, S, a)
  }

  lemma BelowLeast(kids: seq<seq<nat>>, S: set<nat>, B: set<nat>)
    requires S <= B <= Sums.Below(|kids|) && DownClosed(kids, B)
    requires forall C: set<nat> :: S <= C && DownClosed(kids, C) ==> B <= C
    ensures B == Below(kids, S)
  {
  }

  /** The slots marked to leave with everything below them. */
  ghost function Level2(mark: seq<nat>): (r: set<nat>)
    ensures forall i: nat :: i in r <==> i < |mark| && mark[i] == 2
  {
    set i | i in Sums.Below(|mark|) && mark[i] == 2
  }

  /** Marks raised to 2 on a set and nowhere else. */
  ghost predicate Raised(old_: seq<nat>, mark: seq<nat>, B: set<nat>) {
    |mark| == |old_| && forall i: nat :: i < |mark| ==> mark[i] == if i in B then 2 else old_[i]
  }

  ghost predicate KidsFit(kids: seq<seq<nat>>) {
    forall p: nat, c: nat {:trigger c in kids[p]} :: p < |kids| && c in kids[p] ==> c < |kids|
  }

  /** Nothing but what is under S is in M. */
  ghost predicate Only(kids: seq<seq<nat>>, S: set<nat>, M: set<nat>) {
    S <= M <= Sums.Below(|kids|) && forall C: set<nat> :: S <= C && DownClosed(kids, C) ==> M <= C
  }

  /** The walk so far: M is marked, and closed but for what waits on the stack and what is in hand. */
  ghost predicate Walking(kids: seq<seq<nat>>, M: set<nat>, stack: seq<nat>, hand: set<nat>) {
    && (forall i: nat :: i < |stack| ==> stack[i] in M)
    && (forall p: nat, c: nat {:trigger c in kids[p]} :: p < |kids| && p in M && p !in stack && p !in hand && c in kids[p] ==> c in M)
  }

  lemma OnlyMore(kids: seq<seq<nat>>, S: set<nat>, M: set<nat>, p: nat, c: nat)
    requires Only(kids, S, M) && p < |kids| && p in M && c in kids[p] && c < |kids|
    ensures Only(kids, S, M + {c})
  {
    forall C: set<nat> | S <= C && DownClosed(kids, C) ensures M + {c} <= C {
      assert M <= C && c in kids[p];
    }
  }

  lemma Pop(kids: seq<seq<nat>>, M: set<nat>, stack: seq<nat>)
    requires Walking(kids, M, stack, {}) && |stack| > 0
    ensures stack[|stack| - 1] in M && Walking(kids, M, stack[..|stack| - 1], {stack[|stack| - 1]})
  {
    assert stack == stack[..|stack| - 1] + [stack[|stack| - 1]];
  }

  lemma Push(kids: seq<seq<nat>>, M: set<nat>, stack: seq<nat>, hand: set<nat>, c: nat)
    requires Walking(kids, M, stack, hand)
    ensures Walking(kids, M + {c}, stack + [c], hand)
  {
  }

  lemma Drop(kids: seq<seq<nat>>, M: set<nat>, stack: seq<nat>, cur: nat)
    requires Walking(kids, M, stack, {cur}) && cur < |kids| && forall c :: c in kids[cur] ==> c in M
    ensures Walking(kids, M, stack, {})
  {
  }

  lemma WalkEnds(kids: seq<seq<nat>>, S: set<nat>, M: set<nat>)
    requires Only(kids, S, M) && Walking(kids, M, [], {})
    ensures M == Below(kids, S) && DownClosed(kids, M)
  {
    BelowLeast(kids, S, M);
  }

  /** One more slot at level 2. */
  lemma RaiseOne(old_: seq<nat>, mark: seq<nat>, M: set<nat>, c: nat)
    requires Raised(old_, mark, M) && Level2(mark) == M && c < |mark| && c !in M
    ensures Raised(old_, mark[c := 2], M + {c}) && Level2(mark[c := 2]) == M + {c}
    ensures |Sums.Below(|mark|) - (M + {c})| == |Sums.Below(|mark|) - M| - 1
  {
    assert Sums.Below(|mark|) - (M + {c}) == (Sums.Below(|mark|) - M) - {c};
  }

  /** Parents and children say the same. */
  ghost predicate Mirror(kids: seq<seq<nat>>, pars: seq<seq<int>>) {
    |kids| == |pars| && forall p: nat, c: nat {:trigger c in kids[p]} :: p < |kids| && c < |kids| ==> (c in kids[p] <==> p in pars[c])
  }

  class Marker {
    const kids: seq<seq<nat>>
    const pars: seq<seq<int>>
    const mark: array<nat>
    var reseed: bool

    /** The level-2 set is closed unless it has been opened from outside. */
    ghost predicate Valid()
      reads this, mark
    {
      && mark.Length == |kids| && KidsFit(kids) && Mirror(kids, pars)
      && (!reseed ==> DownClosed(kids, Level2(mark[..])))
    }

    constructor (kids: seq<seq<nat>>, pars: seq<seq<int>>)
      requires KidsFit(kids) && Mirror(kids, pars)
      ensures Valid() && fresh(mark) && this.kids == kids && this.pars == pars && forall i: nat :: i < mark.Length ==> mark[i] == 0
    {
      this.kids, this.pars, this.reseed := kids, pars, false;
      mark := new nat[|kids|](_ => 0);
    }

    /** A transaction the block confirmed leaves alone; taking one off level 2 may open the set. */
    method Confirm(i: nat)
      requires Valid() && i < mark.Length
      modifies this, mark
      ensures Valid() && mark[..] == old(mark[..])[i := 1] && reseed == (old(reseed) || old(mark[i]) == 2)
    {
      ghost var was := mark[..];
      if mark[i] == 2 { reseed := true; }
      mark[i] := 1;
      assert mark[..] == was[i := 1];
      if was[i] != 2 { assert Level2(mark[..]) == Level2(was); }
    }

    /** The children of a node that are not at level 2 yet are raised and put on the stack. */
    method PushKids(cur: nat, stack0: seq<nat>, ghost was: seq<nat>, ghost S: set<nat>, ghost M0: set<nat>)
      returns (stack: seq<nat>, ghost M: set<nat>)
      requires mark.Length == |kids| && KidsFit(kids) && cur < |kids| && cur in M0
      requires Level2(mark[..]) == M0 && Raised(was, mark[..], M0) && Only(kids, S, M0) && Walking(kids, M0, stack0, {cur})
      modifies mark
      ensures Level2(mark[..]) == M && Raised(was, mark[..], M) && Only(kids, S, M) && Walking(kids, M, stack, {})
      ensures |stack| + |Sums.Below(|kids|) - M| == |stack0| + |Sums.Below(|kids|) - M0|
    {
      hide Raised, Only, Walking, Sums.Below, DownClosed, Level2, Stands;
      stack, M := stack0, M0;
      StandStart(kids, was, mark[..], S, M0, stack0, cur);
      for k := 0 to |kids[cur]|
        invariant M0 <= M && Stands(kids, was, mark[..], S, M, stack, cur)
        invariant forall c :: c in kids[cur][..k] ==> c in M
        invariant |stack| + |Sums.Below(|kids|) - M| == |stack0| + |Sums.Below(|kids|) - M0|
      {
        var c := kids[cur][k];
        assert c in kids[cur];
        StandOn(kids, was, mark[..], S, M, stack, cur, c);
        if mark[c] != 2 {
          Raise(c);
          stack, M := stack + [c], M + {c};
        }
      }
      assert kids[cur][..|kids[cur]|] == kids[cur];
      StandEnd(kids, was, mark[..], S, M, stack, cur);
    }

    method Raise(c: nat)
      requires c < mark.Length
      modifies mark
      ensures mark[..] == old(mark[..])[c := 2]
    {
      mark[c] := 2;
    }

    /** A parent of slot i at level 2, if it has one. */
    method RaisedParent(i: nat) returns (k: nat)
      requires i < |pars|
      ensures k < |pars[i]| ==> 0 <= pars[i][k] < mark.Length && mark[pars[i][k]] == 2
      ensures k >= |pars[i]| ==> forall j: nat :: j < |pars[i]| && 0 <= pars[i][j] < mark.Length ==> mark[pars[i][j]] != 2
    {
      k := 0;
      while k < |pars[i]| && !(0 <= pars[i][k] < mark.Length && mark[pars[i][k]] == 2)
        invariant k <= |pars[i]|
        invariant forall j: nat :: j < k && 0 <= pars[i][j] < mark.Length ==> mark[pars[i][j]] != 2
      {
        k := k + 1;
      }
    }

    /** Raises a root and everything below it, through the children. */
    method WalkFrom(root: nat)
      requires Valid()
      modifies this, mark
      ensures Valid()
      ensures root >= mark.Length || old(mark[root]) == 2 ==> mark[..] == old(mark[..]) && reseed == old(reseed)
      ensures root < mark.Length && old(mark[root]) != 2 ==>
        Raised(old(mark[..]), mark[..], Below(kids, Level2(old(mark[..])) + {root})) && !reseed
    {
      hide Raised, Only, Walking, Sums.Below, DownClosed, Below, Level2;
      if root >= mark.Length || mark[root] == 2 { return; }
      ghost var was := mark[..];
      ghost var S := Level2(was) + {root};
      var stack := [root];
      RootOnly(kids, was, root, reseed);
      RaiseRoot(was, root);
      mark[root] := 2;
      assert mark[..] == was[root := 2];
      if reseed { stack := Seeds(); }
      StartWalk(kids, was, root, stack, reseed);
      reseed := false;
      ghost var M := S;
      while |stack| > 0
        invariant Level2(mark[..]) == M && Raised(was, mark[..], M) && Only(kids, S, M) && Walking(kids, M, stack, {}) && !reseed
        decreases |stack| + |Sums.Below(|kids|) - M|
      {
        Pop(kids, M, stack);
        InSlots(kids, S, M, stack[|stack| - 1]);
        stack, M := PushKids(stack[|stack| - 1], stack[..|stack| - 1], was, S, M);
      }
      assert stack == [];
      WalkEnds(kids, S, M);
    }

    /** One pass over the slots, upwards: each one with a parent at level 2 is raised. Says whether any was. */
    method Round(ghost was: seq<nat>, ghost M0: set<nat>) returns (changed: bool, ghost M: set<nat>)
      requires mark.Length == |kids| && KidsFit(kids) && Mirror(kids, pars)
      requires Level2(mark[..]) == M0 && Raised(was, mark[..], M0)
      modifies mark
      ensures Level2(mark[..]) == M && Raised(was, mark[..], M)
      ensures M == Climb(kids, M0) && (!changed ==> M == M0)
    {
      hide Raised, Sums.Below, DownClosed, Level2, Climbing, Climb, Mirror, KidsFit;
      changed, M := false, M0;
      StartClimb(kids, M0);
      for i := 0 to mark.Length
        invariant Level2(mark[..]) == M && Raised(was, mark[..], M) && (!changed ==> M == M0)
        invariant Climbing(kids, M0, M, i)
      {
        MirrorSize(kids, pars);
        LevelAt(mark[..], i);
        if mark[i] != 2 {
          var k := RaisedParent(i);
          if k < |pars[i]| {
            LevelAt(mark[..], pars[i][k]);
            MirrorAt(kids, pars, pars[i][k], i);
            ClimbOne(kids, M0, M, i, pars[i][k]);
            RaiseOne(was, mark[..], M, i);
            Raise(i);
            changed, M := true, M + {i};
          } else {
            NoneRaised(kids, pars, mark[..], i);
            ClimbPast(kids, M0, M, i);
          }
        } else {
          ClimbIn(kids, M0, M, i);
        }
      }
      ClimbEnds(kids, M0, M);
    }

    /** Raises a root and what is below it by sweeping until nothing changes, or the rounds run out: exactly what so many rounds can climb to. */
    method SweepFrom(root: nat)
      requires Valid()
      modifies this, mark
      ensures root >= mark.Length || old(mark[root]) == 2 ==> mark[..] == old(mark[..]) && reseed == old(reseed)
      ensures root < mark.Length && old(mark[root]) != 2 ==>
        Raised(old(mark[..]), mark[..], Climbs(kids, Level2(old(mark[..])) + {root}, ROUNDS)) && !reseed
    {
      hide Raised, Sums.Below, DownClosed, Below, Level2, Climb;
      if root >= mark.Length || mark[root] == 2 { return; }
      ghost var was := mark[..];
      ghost var S := Level2(was) + {root};
      RaiseRoot(was, root);
      mark[root] := 2;
      assert mark[..] == was[root := 2];
      var changed, rounds := true, 0;
      ghost var M, r: nat := S, 0;
      while changed && rounds <= 128
        invariant mark.Length == |kids| && Level2(mark[..]) == M && Raised(was, mark[..], M)
        invariant rounds == r <= ROUNDS && M == Climbs(kids, S, r) && (!changed ==> Climb(kids, M) == M)
        decreases ROUNDS - rounds
      {
        changed, M := Round(was, M);
        rounds, r := rounds + 1, r + 1;
      }
      ClimbsStuck(kids, S, r, ROUNDS);
      reseed := false;
    }

    /** Every level-2 slot. */
    method Seeds() returns (stack: seq<nat>)
      ensures forall i: nat :: i in stack <==> i < mark.Length && mark[i] == 2
    {
      stack := [];
      for i := 0 to mark.Length
        invariant forall j: nat :: j in stack <==> j < i && mark[j] == 2
      {
        if mark[i] == 2 { stack := stack + [i]; }
      }
    }
  }

  lemma InSlots(kids: seq<seq<nat>>, S: set<nat>, M: set<nat>, c: nat)
    requires Only(kids, S, M) && c in M
    ensures c < |kids|
  {
  }

  lemma RootOnly(kids: seq<seq<nat>>, was: seq<nat>, root: nat, reseed: bool)
    requires |was| == |kids| && root < |was|
    ensures Only(kids, Level2(was) + {root}, Level2(was) + {root})
  {
  }

  lemma RaiseRoot(was: seq<nat>, root: nat)
    requires root < |was| && was[root] != 2
    ensures Level2(was[root := 2]) == Level2(was) + {root} && Raised(was, was[root := 2], Level2(was) + {root})
  {
  }

  /** Where a walk starts: the root alone when the set is closed, every level-2 slot otherwise. */
  lemma StartWalk(kids: seq<seq<nat>>, was: seq<nat>, root: nat, stack: seq<nat>, reseed: bool)
    requires |was| == |kids| && root < |was| && (!reseed ==> DownClosed(kids, Level2(was)))
    requires if reseed then forall i: nat :: i in stack <==> i in Level2(was) + {root} else stack == [root]
    ensures Walking(kids, Level2(was) + {root}, stack, {})
  {
    forall i: nat | i < |stack| ensures stack[i] in Level2(was) + {root} { assert stack[i] in stack; }
  }

  /** A set and the children of its members. */
  ghost function Layer(kids: seq<seq<nat>>, M: set<nat>): set<nat> {
    M + set c | c in Sums.Below(|kids|) && exists p: nat :: p < |kids| && p in M && c in kids[p]
  }

  /** With a node, every child of it in a higher slot. */
  ghost predicate UpwardClosed(kids: seq<seq<nat>>, C: set<nat>) {
    forall p: nat, c: nat {:trigger c in kids[p]} :: p < |kids| && p in C && c in kids[p] && p < c ==> c in C
  }

  ghost predicate Climbed(kids: seq<seq<nat>>, M: set<nat>, a: nat) {
    forall C: set<nat> :: Layer(kids, M) <= C && UpwardClosed(kids, C) ==> a in C
  }

  /** What one step down from M, and then any number of steps to higher slots, leads to. */
  ghost function Climb(kids: seq<seq<nat>>, M: set<nat>): set<nat> {
    M + set a | a in Sums.Below(|kids|) && Climbed(kids, M, a)
  }

  ghost function Climbs(kids: seq<seq<nat>>, S: set<nat>, k: nat): set<nat> {
    if k == 0 then S else Climb(kids, Climbs(kids, S, k - 1))
  }

  lemma MirrorAt(kids: seq<seq<nat>>, pars: seq<seq<int>>, p: nat, c: nat)
    requires Mirror(kids, pars) && p < |kids| && c < |kids| && p in pars[c]
    ensures c in kids[p]
  {
    var k := kids[p];
    assert c in k <==> c in kids[p];
  }

  lemma MirrorSize(kids: seq<seq<nat>>, pars: seq<seq<int>>)
    requires Mirror(kids, pars)
    ensures |kids| == |pars|
  {
  }

  lemma LevelAt(mark: seq<nat>, i: nat)
    requires i < |mark|
    ensures i in Level2(mark) <==> mark[i] == 2
  {
  }

  lemma NoneRaised(kids: seq<seq<nat>>, pars: seq<seq<int>>, mark: seq<nat>, i: nat)
    requires Mirror(kids, pars) && |mark| == |kids| && i < |kids|
    requires forall j: nat :: j < |pars[i]| && 0 <= pars[i][j] < |mark| ==> mark[pars[i][j]] != 2
    ensures forall p: nat :: p < |kids| && p in Level2(mark) ==> i !in kids[p]
  {
    forall p: nat | p < |kids| && p in Level2(mark) ensures i !in kids[p] {
      assert i in kids[p] <==> p in pars[i];
    }
  }

  /** Where the walk stands while the children of cur are looked at. */
  ghost predicate Stands(kids: seq<seq<nat>>, was: seq<nat>, mark: seq<nat>, S: set<nat>, M: set<nat>, stack: seq<nat>, cur: nat) {
    |mark| == |kids| && Level2(mark) == M && Raised(was, mark, M) && Only(kids, S, M) && Walking(kids, M, stack, {cur})
  }

  lemma StandStart(kids: seq<seq<nat>>, was: seq<nat>, mark: seq<nat>, S: set<nat>, M: set<nat>, stack: seq<nat>, cur: nat)
    requires |mark| == |kids| && Level2(mark) == M && Raised(was, mark, M) && Only(kids, S, M) && Walking(kids, M, stack, {cur})
    ensures Stands(kids, was, mark, S, M, stack, cur)
  {
  }

  lemma StandOn(kids: seq<seq<nat>>, was: seq<nat>, mark: seq<nat>, S: set<nat>, M: set<nat>, stack: seq<nat>, cur: nat, c: nat)
    requires Stands(kids, was, mark, S, M, stack, cur) && KidsFit(kids) && cur < |kids| && cur in M && c in kids[cur]
    ensures c < |mark| && (mark[c] == 2 ==> c in M)
    ensures mark[c] != 2 ==> Stands(kids, was, mark[c := 2], S, M + {c}, stack + [c], cur)
    ensures mark[c] != 2 ==> |Sums.Below(|kids|) - (M + {c})| == |Sums.Below(|kids|) - M| - 1
  {
    hide Raised, Only, Walking, Sums.Below;
    if mark[c] != 2 {
      OnlyMore(kids, S, M, cur, c);
      Push(kids, M, stack, {cur}, c);
      RaiseOne(was, mark, M, c);
    }
  }

  lemma StandEnd(kids: seq<seq<nat>>, was: seq<nat>, mark: seq<nat>, S: set<nat>, M: set<nat>, stack: seq<nat>, cur: nat)
    requires Stands(kids, was, mark, S, M, stack, cur) && cur < |kids| && forall c :: c in kids[cur] ==> c in M
    ensures Level2(mark) == M && Raised(was, mark, M) && Only(kids, S, M) && Walking(kids, M, stack, {})
  {
    Drop(kids, M, stack, cur);
  }

  /** A pass that has come to slot i: closed so far, and nothing raised without cause. */
  ghost predicate Climbing(kids: seq<seq<nat>>, M0: set<nat>, M: set<nat>, i: nat) {
    && M0 <= M && (forall a :: a in M && a !in M0 ==> a < i)
    && (forall p: nat, c: nat {:trigger c in kids[p]} :: p < |kids| && c in kids[p] && c < i && (p in M0 || (p in M && p < c)) ==> c in M)
    && (forall C: set<nat> :: Layer(kids, M0) <= C && UpwardClosed(kids, C) ==> M <= C)
  }

  lemma StartClimb(kids: seq<seq<nat>>, M0: set<nat>)
    ensures Climbing(kids, M0, M0, 0)
  {
  }

  lemma ClimbCause(kids: seq<seq<nat>>, M0: set<nat>, C: set<nat>, i: nat, p: nat)
    requires i < |kids| && p < |kids| && i in kids[p] && Layer(kids, M0) <= C && UpwardClosed(kids, C) && (p in M0 || (p < i && p in C))
    ensures i in C
  {
    if p in M0 { assert i in Layer(kids, M0); }
  }

  lemma ClimbOne(kids: seq<seq<nat>>, M0: set<nat>, M: set<nat>, i: nat, p: nat)
    requires Climbing(kids, M0, M, i) && i < |kids| && p < |kids| && p in M && i in kids[p]
    ensures Climbing(kids, M0, M + {i}, i + 1)
  {
    hide Layer, UpwardClosed;
    forall C: set<nat> | Layer(kids, M0) <= C && UpwardClosed(kids, C) ensures M + {i} <= C {
      assert M <= C;
      ClimbCause(kids, M0, C, i, p);
    }
  }

  lemma ClimbIn(kids: seq<seq<nat>>, M0: set<nat>, M: set<nat>, i: nat)
    requires Climbing(kids, M0, M, i)
    ensures i in M ==> Climbing(kids, M0, M, i + 1)
  {
  }

  lemma ClimbPast(kids: seq<seq<nat>>, M0: set<nat>, M: set<nat>, i: nat)
    requires Climbing(kids, M0, M, i) && forall p: nat :: p < |kids| && p in M ==> i !in kids[p]
    ensures Climbing(kids, M0, M, i + 1)
  {
  }

  lemma ClimbEnds(kids: seq<seq<nat>>, M0: set<nat>, M: set<nat>)
    requires Climbing(kids, M0, M, |kids|) && KidsFit(kids)
    ensures M == Climb(kids, M0)
  {
    forall c | c in Layer(kids, M0) ensures c in M { }
    assert UpwardClosed(kids, M);
    forall a | a in Climb(kids, M0) ensures a in M { }
    forall a | a in M ensures a in Climb(kids, M0) { }
  }

  lemma {:induction false} ClimbsStuck(kids: seq<seq<nat>>, S: set<nat>, r: nat, k: nat)
    requires r <= k && (r == k || Climb(kids, Climbs(kids, S, r)) == Climbs(kids, S, r))
    ensures Climbs(kids, S, k) == Climbs(kids, S, r)
    decreases k
  {
    hide Climb;
    if r < k { ClimbsStuck(kids, S, r, k - 1); }
  }

  /** A way down from S, from parent to child. */
  ghost predicate Route(kids: seq<seq<nat>>, S: set<nat>, path: seq<nat>) {
    && |path| > 0 && path[0] in S
    && forall k: nat :: k + 1 < |path| ==> path[k] < |kids| && path[k + 1] in kids[path[k]]
  }

  /** How often a way, after its first step, goes to a lower slot. */
  function Backs(path: seq<nat>): nat {
    if |path| <= 2 then 0
    else Backs(path[..|path| - 1]) + if path[|path| - 1] < path[|path| - 2] then 1 else 0
  }

  /** There is a way down to c that goes back at most b times. */
  ghost predicate Reachable(kids: seq<seq<nat>>, S: set<nat>, b: nat, c: nat) {
    exists path: seq<nat> :: Route(kids, S, path) && path[|path| - 1] == c && Backs(path) <= b
  }

  lemma RouteOn(kids: seq<seq<nat>>, S: set<nat>, path: seq<nat>, c: nat)
    requires Route(kids, S, path) && path[|path| - 1] < |kids| && c in kids[path[|path| - 1]]
    ensures Route(kids, S, path + [c]) && Backs(path + [c]) <= Backs(path) + 1
    ensures path[|path| - 1] < c || |path| == 1 ==> Backs(path + [c]) == Backs(path)
  {
    var q := path + [c];
    assert q[..|path|] == path && q[|path| - 1] == path[|path| - 1];
    forall k: nat | k + 1 < |q| ensures q[k] < |kids| && q[k + 1] in kids[q[k]] {
      assert q[k] == path[k];
      if k + 1 < |path| { assert q[k + 1] == path[k + 1]; }
    }
  }

  lemma {:induction false} RoutesClimb(kids: seq<seq<nat>>, S: set<nat>, path: seq<nat>, k: nat)
    requires KidsFit(kids) && S <= Sums.Below(|kids|) && Route(kids, S, path) && k > Backs(path)
    ensures path[|path| - 1] in Climbs(kids, S, k)
    decreases |path|
  {
    hide Climb, Sums.Below;
    if |path| == 1 {
      ClimbsGrow(kids, S, 0, k);
    } else {
      var n := |path| - 1;
      var rest, c := path[..n], path[n];
      assert Route(kids, S, rest);
      assert c in kids[rest[n - 1]];
      ClimbsGrow(kids, S, 0, k - 1);
      ClimbSteps(kids, Climbs(kids, S, k - 1));
      if n > 1 {
        if c < path[n - 1] { RoutesClimb(kids, S, rest, k - 1); } else { RoutesClimb(kids, S, rest, k); }
      }
    }
  }

  /** A climb takes in every child of what was there, and every higher child of what is there now. */
  lemma ClimbSteps(kids: seq<seq<nat>>, M: set<nat>)
    requires KidsFit(kids)
    ensures Layer(kids, M) <= Climb(kids, M) && UpwardClosed(kids, Climb(kids, M))
    ensures forall p: nat, c: nat {:trigger c in kids[p]} :: p < |kids| && p in M && c in kids[p] ==> c in Climb(kids, M)
  {
    forall a | a in Layer(kids, M) ensures a in Climb(kids, M) { }
    forall p: nat, c: nat | p < |kids| && p in Climb(kids, M) && c in kids[p] && p < c ensures c in Climb(kids, M) {
      forall C: set<nat> | Layer(kids, M) <= C && UpwardClosed(kids, C) ensures c in C {
        assert p in C by { if p in M { assert p in Layer(kids, M); } }
      }
    }
    forall p: nat, c: nat | p < |kids| && p in M && c in kids[p] ensures c in Climb(kids, M) { assert c in Layer(kids, M); }
  }

  lemma {:induction false} ClimbsGrow(kids: seq<seq<nat>>, S: set<nat>, j: nat, k: nat)
    requires j <= k
    ensures Climbs(kids, S, j) <= Climbs(kids, S, k)
    decreases k
  {
    hide Climb;
    if j < k {
      ClimbsGrow(kids, S, j, k - 1);
      ClimbHolds(kids, Climbs(kids, S, k - 1));
    }
  }

  lemma ClimbHolds(kids: seq<seq<nat>>, M: set<nat>)
    ensures M <= Climb(kids, M)
  {
  }

  /** Every slot climbed to in k rounds has a way down to it that goes back fewer than k times. */
  lemma {:induction false} ClimbsRoute(kids: seq<seq<nat>>, S: set<nat>, k: nat, c: nat)
    requires KidsFit(kids) && S <= Sums.Below(|kids|) && c in Climbs(kids, S, k)
    ensures Reachable(kids, S, if k == 0 then 0 else k - 1, c)
    decreases k
  {
    hide Climb, Sums.Below;
    if k == 0 {
      assert Route(kids, S, [c]);
    } else {
      var M := Climbs(kids, S, k - 1);
      forall a | a in M ensures Reachable(kids, S, if k == 1 then 0 else k - 2, a) { ClimbsRoute(kids, S, k - 1, a); }
      var C := set a | a in Sums.Below(|kids|) && Reachable(kids, S, k - 1, a);
      ClimbsFit(kids, S, k - 1);
      RoutesClosed(kids, S, M, k - 1, C);
      ClimbWithin(kids, M, C, c);
    }
  }

  lemma ClimbWithin(kids: seq<seq<nat>>, M: set<nat>, C: set<nat>, c: nat)
    requires c in Climb(kids, M) && Layer(kids, M) <= C && UpwardClosed(kids, C)
    ensures c in C
  {
  }

  lemma {:induction false} ClimbsFit(kids: seq<seq<nat>>, S: set<nat>, k: nat)
    requires S <= Sums.Below(|kids|)
    ensures Climbs(kids, S, k) <= Sums.Below(|kids|)
  {
    if k > 0 { ClimbsFit(kids, S, k - 1); }
  }

  lemma ReachOn(kids: seq<seq<nat>>, S: set<nat>, b: nat, p: nat, c: nat)
    requires p < |kids| && c in kids[p] && Reachable(kids, S, b, p)
    ensures Reachable(kids, S, b + 1, c) && (p < c ==> Reachable(kids, S, b, c))
  {
    var path: seq<nat> :| Route(kids, S, path) && path[|path| - 1] == p && Backs(path) <= b;
    RouteOn(kids, S, path, c);
    assert (path + [c])[|path|] == c;
  }

  lemma ReachFirst(kids: seq<seq<nat>>, S: set<nat>, p: nat, c: nat)
    requires p < |kids| && c in kids[p] && p in S
    ensures Reachable(kids, S, 0, c)
  {
    RouteOn(kids, S, [p], c);
    assert ([p] + [c])[1] == c;
  }

  lemma ReachMore(kids: seq<seq<nat>>, S: set<nat>, a: nat, b: nat, c: nat)
    requires a <= b && Reachable(kids, S, a, c)
    ensures Reachable(kids, S, b, c)
  {
  }

  lemma LayerIn(kids: seq<seq<nat>>, M: set<nat>, C: set<nat>)
    requires M <= C && forall p: nat, c: nat {:trigger c in kids[p]} :: p < |kids| && p in M && c in kids[p] && c < |kids| ==> c in C
    ensures Layer(kids, M) <= C
  {
  }

  lemma RoutesClosed(kids: seq<seq<nat>>, S: set<nat>, M: set<nat>, b: nat, C: set<nat>)
    requires KidsFit(kids) && M <= Sums.Below(|kids|) && forall a: nat :: a in C <==> a < |kids| && Reachable(kids, S, b, a)
    requires forall a: nat :: a in M ==> Reachable(kids, S, if b == 0 then 0 else b - 1, a)
    requires b == 0 ==> M == S
    ensures Layer(kids, M) <= C && UpwardClosed(kids, C)
  {
    hide Reachable, Sums.Below, Layer;
    forall a: nat | a in M ensures a in C { ReachMore(kids, S, if b == 0 then 0 else b - 1, b, a); }
    forall p: nat, c: nat | p < |kids| && p in M && c in kids[p] && c < |kids| ensures c in C {
      if b == 0 { ReachFirst(kids, S, p, c); } else { ReachOn(kids, S, b - 1, p, c); }
    }
    LayerIn(kids, M, C);
    forall p: nat, c: nat | p < |kids| && p in C && c in kids[p] && p < c ensures c in C { ReachOn(kids, S, b, p, c); }
  }

  lemma {:induction false} ClimbsBelow(kids: seq<seq<nat>>, S: set<nat>, k: nat)
    requires KidsFit(kids) && S <= Sums.Below(|kids|)
    ensures S <= Climbs(kids, S, k) <= Below(kids, S)
  {
    hide Climb, Below, Sums.Below, DownClosed;
    BelowClosed(kids, S);
    if k > 0 {
      ClimbsBelow(kids, S, k - 1);
      ClimbHolds(kids, Climbs(kids, S, k - 1));
      ClimbStays(kids, Climbs(kids, S, k - 1), Below(kids, S));
    }
  }

  lemma ClimbStays(kids: seq<seq<nat>>, M: set<nat>, B: set<nat>)
    requires M <= B && DownClosed(kids, B)
    ensures Climb(kids, M) <= B
  {
    assert Layer(kids, M) <= B;
    assert UpwardClosed(kids, B);
  }

  lemma BelowClosed(kids: seq<seq<nat>>, S: set<nat>)
    requires KidsFit(kids) && S <= Sums.Below(|kids|)
    ensures S <= Below(kids, S) && DownClosed(kids, Below(kids, S))
  {
    forall p: nat, c: nat | p < |kids| && p in Below(kids, S) && c in kids[p] ensures c in Below(kids, S) {
      forall C: set<nat> | S <= C && DownClosed(kids, C) ensures c in C { assert p in C && c in kids[p]; }
    }
  }

  /** A sweep marks what the walk marks exactly when everything below has a way down to it that goes back fewer times than a sweep has rounds. */
  lemma SweepIsWalk(kids: seq<seq<nat>>, S: set<nat>)
    requires KidsFit(kids) && S <= Sums.Below(|kids|)
    ensures Climbs(kids, S, ROUNDS) == Below(kids, S) <==> forall c :: c in Below(kids, S) ==> Reachable(kids, S, ROUNDS - 1, c)
  {
    hide Climbs, Below, Sums.Below;
    ClimbsBelow(kids, S, ROUNDS);
    forall c | c in Climbs(kids, S, ROUNDS) ensures Reachable(kids, S, ROUNDS - 1, c) { ClimbsRoute(kids, S, ROUNDS, c); }
    forall c | Reachable(kids, S, ROUNDS - 1, c) ensures c in Climbs(kids, S, ROUNDS) {
      var path: seq<nat> :| Route(kids, S, path) && path[|path| - 1] == c && Backs(path) <= ROUNDS - 1;
      RoutesClimb(kids, S, path, ROUNDS);
    }
  }

  lemma ClimbStuck(kids: seq<seq<nat>>, S: set<nat>, L: set<nat>)
    requires KidsFit(kids) && S <= L && Climb(kids, L) == L
    ensures Below(kids, S) <= L
  {
    hide Climb;
    ClimbSteps(kids, L);
    assert DownClosed(kids, L);
  }

  /** Each round finds something new until everything is found. */
  lemma {:induction false} ClimbsCount(kids: seq<seq<nat>>, S: set<nat>, k: nat)
    requires KidsFit(kids) && S <= Sums.Below(|kids|)
    ensures Climbs(kids, S, k) == Below(kids, S) || |Climbs(kids, S, k)| >= |S| + k
  {
    hide Climb, Below, Sums.Below;
    if k > 0 {
      ClimbsCount(kids, S, k - 1);
      ClimbsBelow(kids, S, k - 1); ClimbsBelow(kids, S, k);
      var L := Climbs(kids, S, k - 1);
      ClimbHolds(kids, L);
      if Climb(kids, L) == L { ClimbStuck(kids, S, L); } else { Sums.SubsetSize(L, Climb(kids, L)); }
    }
  }

  /** A conflict that brings in no more transactions than a sweep makes rounds is swept out in full. */
  lemma FewAreSwept(kids: seq<seq<nat>>, S: set<nat>)
    requires KidsFit(kids) && S <= Sums.Below(|kids|) && |Below(kids, S)| <= |S| + ROUNDS
    ensures Climbs(kids, S, ROUNDS) == Below(kids, S)
  {
    hide Climbs, Below, Sums.Below;
    ClimbsCount(kids, S, ROUNDS);
    ClimbsBelow(kids, S, ROUNDS);
    if Climbs(kids, S, ROUNDS) != Below(kids, S) { Sums.SubsetSize(Climbs(kids, S, ROUNDS), Below(kids, S)); }
  }

  lemma LayerMore(kids: seq<seq<nat>>, A: set<nat>, B: set<nat>)
    requires A <= B
    ensures Layer(kids, A) <= Layer(kids, B)
  {
  }

  lemma ClimbMore(kids: seq<seq<nat>>, A: set<nat>, B: set<nat>)
    requires A <= B
    ensures Climb(kids, A) <= Climb(kids, B)
  {
    hide Layer, UpwardClosed, Sums.Below;
    LayerMore(kids, A, B);
  }

  lemma {:induction false} ClimbsMore(kids: seq<seq<nat>>, A: set<nat>, B: set<nat>, k: nat)
    requires A <= B
    ensures Climbs(kids, A, k) <= Climbs(kids, B, k)
  {
    hide Climb;
    if k > 0 {
      ClimbsMore(kids, A, B, k - 1);
      ClimbMore(kids, Climbs(kids, A, k - 1), Climbs(kids, B, k - 1));
    }
  }

  ghost predicate UnderOne(kids: seq<seq<nat>>, S: set<nat>, a: nat) {
    exists s :: s in S && a in Below(kids, {s})
  }

  lemma UnderOneCloses(kids: seq<seq<nat>>, S: set<nat>)
    requires KidsFit(kids) && S <= Sums.Below(|kids|)
    ensures var U := set a | a in Sums.Below(|kids|) && UnderOne(kids, S, a); S <= U && DownClosed(kids, U)
  {
    hide Sums.Below, Below;
    var U := set a | a in Sums.Below(|kids|) && UnderOne(kids, S, a);
    forall s | s in S ensures s in U { BelowClosed(kids, {s}); }
    forall p: nat, c: nat | p < |kids| && p in U && c in kids[p] ensures c in U {
      var s :| s in S && p in Below(kids, {s});
      BelowClosed(kids, {s});
    }
  }

  /** What is below some slots is below one of them. */
  lemma BelowOne(kids: seq<seq<nat>>, S: set<nat>, c: nat) returns (s: nat)
    requires KidsFit(kids) && S <= Sums.Below(|kids|) && c in Below(kids, S)
    ensures s in S && c in Below(kids, {s})
  {
    hide Sums.Below, DownClosed, KidsFit;
    UnderOneCloses(kids, S);
    var U := set a | a in Sums.Below(|kids|) && UnderOne(kids, S, a);
    assert Under(kids, S, c);
    assert c in U;
    s :| s in S && c in Below(kids, {s});
  }

  /** When no one of the raised has over 130 at or below it, the sweep marks what the walk marks, however many are raised. */
  lemma SweptOneByOne(kids: seq<seq<nat>>, S: set<nat>)
    requires KidsFit(kids) && S <= Sums.Below(|kids|) && forall s :: s in S ==> |Below(kids, {s})| <= ROUNDS + 1
    ensures Climbs(kids, S, ROUNDS) == Below(kids, S)
  {
    hide Climbs, Below, Sums.Below;
    ClimbsBelow(kids, S, ROUNDS);
    forall c | c in Below(kids, S) ensures c in Climbs(kids, S, ROUNDS) {
      var s := BelowOne(kids, S, c);
      FewAreSwept(kids, {s});
      ClimbsMore(kids, {s}, S, ROUNDS);
    }
  }

  /** Each slot's one child is the slot before it. */
  function Backwards(n: nat): (kids: seq<seq<nat>>)
    ensures |kids| == n && forall i: nat :: i < n ==> kids[i] == if i == 0 then [] else [i - 1]
  {
    seq(n, i => if i == 0 then [] else [i - 1])
  }

  lemma {:induction false} BackwardsRoute(n: nat, path: seq<nat>)
    requires n > 0 && Route(Backwards(n), {n - 1}, path)
    ensures |path| <= n && path[|path| - 1] == n - |path| && Backs(path) == if |path| <= 2 then 0 else |path| - 2
    decreases |path|
  {
    if |path| > 1 {
      var rest := path[..|path| - 1];
      BackwardsRoute(n, rest);
      assert path[|path| - 1] in Backwards(n)[path[|path| - 2]];
    }
  }

  lemma {:induction false} BackwardsBelow(n: nat, c: nat)
    requires c < n
    ensures c in Below(Backwards(n), {n - 1})
    decreases n - c
  {
    var kids := Backwards(n);
    if c < n - 1 {
      BackwardsBelow(n, c + 1);
      forall C: set<nat> | {n - 1} <= C && DownClosed(kids, C) ensures c in C { assert c + 1 in C && c in kids[c + 1]; }
    }
  }

  /** A chain laid out backwards is swept out in full up to one more than the rounds, and never beyond. */
  lemma SweepFallsShort(n: nat)
    requires n > 0
    ensures Climbs(Backwards(n), {n - 1}, ROUNDS) == Below(Backwards(n), {n - 1}) <==> n <= ROUNDS + 1
  {
    hide Climbs, Below, Backs;
    var kids, S := Backwards(n), {n - 1};
    assert KidsFit(kids);
    SweepIsWalk(kids, S);
    if n <= ROUNDS + 1 {
      BelowSize(kids, S);
      FewAreSwept(kids, S);
    } else {
      BackwardsBelow(n, 0);
      assert !Reachable(kids, S, ROUNDS - 1, 0) by {
        forall path: seq<nat> | Route(kids, S, path) && path[|path| - 1] == 0 ensures Backs(path) > ROUNDS - 1 { BackwardsRoute(n, path); }
      }
    }
  }

  lemma BelowSize(kids: seq<seq<nat>>, S: set<nat>)
    ensures |Below(kids, S)| <= |kids|
  {
    Sums.SubsetSize(Below(kids, S), Sums.Below(|kids|));
  }
}
