/** Closing direct parent edges into ancestor sets, in place and in bounded passes, and turning them over into descendant sets. */
module Ancestry {
  import opened Sums

  /** A member's own set: itself and some members of the list. */
  ghost predicate Edges(e: seq<set<nat>>) {
    forall m: nat :: m < |e| ==> m in e[m] && e[m] <= Below(|e|)
  }

  /** With a member, everything it leads to. */
  ghost predicate UpClosed(e: seq<set<nat>>, C: set<nat>) {
    forall m: nat :: m in C && m < |e| ==> e[m] <= C
  }

  /** In every closed set that holds m. */
  ghost predicate Reaches(e: seq<set<nat>>, m: nat, a: nat) {
    forall C: set<nat> :: m in C && UpClosed(e, C) ==> a in C
  }

  /** A member with all its ancestors. */
  ghost function Ups(e: seq<set<nat>>, m: nat): (r: set<nat>)
    ensures r <= Below(|e|)
  {
    set a | a in Below(|e|) && Reaches(e, m, a)
  }

  /** Everything the members of S lead to. */
  ghost function Gather(e: seq<set<nat>>, S: set<nat>): set<nat> {
    set p: nat, a | p in S && p < |e| && a in e[p] :: a
  }

  lemma GatherHas(e: seq<set<nat>>, S: set<nat>, p: nat)
    requires p in S && p < |e|
    ensures e[p] <= Gather(e, S)
  {
  }

  lemma GatherFrom(e: seq<set<nat>>, S: set<nat>, a: nat) returns (p: nat)
    requires a in Gather(e, S)
    ensures p in S && p < |e| && a in e[p]
  {
    p :| p in S && p < |e| && a in e[p];
  }

  /** Everything the members of S below n lead to. */
  ghost function GatherTo(e: seq<set<nat>>, S: set<nat>, n: nat): set<nat> {
    Gather(e, S * Below(n))
  }

  lemma GatherNext(e: seq<set<nat>>, S: set<nat>, p: nat)
    requires p < |e|
    ensures GatherTo(e, S, 0) == {} && GatherTo(e, S, p + 1) == GatherTo(e, S, p) + if p in S then e[p] else {}
  {
  }

  lemma GatherAll(e: seq<set<nat>>, S: set<nat>)
    requires S <= Below(|e|)
    ensures GatherTo(e, S, |e|) == Gather(e, S)
  {
    assert S * Below(|e|) == S;
  }

  lemma UpsHold(e: seq<set<nat>>, m: nat)
    requires Edges(e) && m < |e|
    ensures m in Ups(e, m) && e[m] <= Ups(e, m) && UpClosed(e, Ups(e, m))
  {
    forall x: nat | x in Ups(e, m) && x < |e| ensures e[x] <= Ups(e, m) {
      forall a | a in e[x] ensures Reaches(e, m, a) {
        forall C: set<nat> | m in C && UpClosed(e, C) ensures a in C { assert x in C; }
      }
    }
  }

  lemma UpsLeast(e: seq<set<nat>>, m: nat, C: set<nat>)
    requires m in C && UpClosed(e, C)
    ensures Ups(e, m) <= C
  {
  }

  /** What k steps up reach. */
  ghost function Rises(e: seq<set<nat>>, m: nat, k: nat): set<nat> {
    if k == 0 then {m} else Gather(e, Rises(e, m, k - 1))
  }

  lemma OneRise(e: seq<set<nat>>, S: set<nat>)
    requires Edges(e) && S <= Below(|e|)
    ensures S <= Gather(e, S) <= Below(|e|)
    ensures UpClosed(e, S) ==> Gather(e, S) == S
    ensures Gather(e, S) != S ==> |Gather(e, S)| > |S|
    ensures Gather(e, S) == S ==> UpClosed(e, S)
  {
    hide Gather;
    var b := Gather(e, S);
    forall x: nat | x in S ensures e[x] <= b && x in b { GatherHas(e, S, x); }
    forall a | a in b ensures a < |e| && (UpClosed(e, S) ==> a in S) { var p := GatherFrom(e, S, a); }
    SubsetSize(S, b);
  }

  /** Each step reaches someone new or there is no one left to reach. */
  lemma {:induction false} RisesGrow(e: seq<set<nat>>, m: nat, k: nat)
    requires Edges(e) && m < |e|
    ensures m in Rises(e, m, k) && Rises(e, m, k) <= Below(|e|)
    ensures |Rises(e, m, k)| > k || UpClosed(e, Rises(e, m, k))
  {
    hide Gather;
    if k > 0 {
      RisesGrow(e, m, k - 1);
      OneRise(e, Rises(e, m, k - 1));
    }
  }

  /** As many steps as there are members reach every ancestor. */
  lemma RisesReach(e: seq<set<nat>>, m: nat, k: nat)
    requires Edges(e) && m < |e| && k >= |e|
    ensures Ups(e, m) <= Rises(e, m, k)
  {
    RisesGrow(e, m, k);
    if !UpClosed(e, Rises(e, m, k)) { SubsetSize(Rises(e, m, k), Below(|e|)); }
    UpsLeast(e, m, Rises(e, m, k));
  }

  /** Sets on their way to the ancestors: k steps up are in, nothing but ancestors is. */
  ghost predicate Climbed(e: seq<set<nat>>, anc: seq<set<nat>>, k: nat) {
    |anc| == |e| && forall m: nat :: m < |e| ==> e[m] <= anc[m] <= Ups(e, m) && Rises(e, m, k) <= anc[m]
  }

  /** A pass that has dealt with the members below m. */
  ghost predicate Climbing(e: seq<set<nat>>, anc: seq<set<nat>>, k: nat, m: nat) {
    Climbed(e, anc, k) && forall j: nat :: j < m && j < |e| ==> Rises(e, j, k + 1) <= anc[j]
  }

  lemma ClimbStarts(e: seq<set<nat>>)
    requires Edges(e)
    ensures Climbed(e, e, 1)
  {
    hide Ups, Gather;
    forall m: nat | m < |e| ensures e[m] <= Ups(e, m) && Rises(e, m, 1) <= e[m] {
      UpsHold(e, m);
      forall a | a in Rises(e, m, 1) ensures a in e[m] { var p := GatherFrom(e, Rises(e, m, 0), a); }
    }
  }

  lemma ClimbStep(e: seq<set<nat>>, anc: seq<set<nat>>, k: nat, m: nat, acc: set<nat>)
    requires Edges(e) && Climbing(e, anc, k, m) && m < |e| && acc == anc[m] + Gather(anc, anc[m])
    ensures Climbing(e, anc[m := acc], k, m + 1) && (anc[m] == Ups(e, m) ==> acc == anc[m])
  {
    hide Ups, Gather, UpClosed, Edges;
    UpsHold(e, m);
    forall a | a in Gather(anc, anc[m]) ensures a in Ups(e, m) {
      var p := GatherFrom(anc, anc[m], a);
      UpsLeast(e, p, Ups(e, m));
    }
    forall a | a in Rises(e, m, k + 1) ensures a in acc {
      var p := GatherFrom(e, Rises(e, m, k), a);
      GatherHas(anc, anc[m], p);
    }
  }

  lemma ClimbDone(e: seq<set<nat>>, anc: seq<set<nat>>, k: nat)
    requires Climbing(e, anc, k, |e|)
    ensures Climbed(e, anc, k + 1)
  {
  }

  lemma ClimbFull(e: seq<set<nat>>, anc: seq<set<nat>>, k: nat)
    requires Edges(e) && Climbed(e, anc, k) && k >= |e|
    ensures forall m: nat :: m < |e| ==> anc[m] == Ups(e, m)
  {
    hide Ups, Rises, Edges;
    forall m: nat | m < |e| ensures anc[m] == Ups(e, m) { RisesReach(e, m, k); }
  }

  lemma StillMeansFull(e: seq<set<nat>>, anc: seq<set<nat>>, k: nat, m: nat)
    requires Edges(e) && Climbed(e, anc, k) && m < |e| && Gather(anc, anc[m]) <= anc[m]
    ensures anc[m] == Ups(e, m)
  {
    hide Ups, Rises, Gather;
    UpsHold(e, m);
    forall x: nat | x in anc[m] && x < |e| ensures e[x] <= anc[m] { GatherHas(anc, anc[m], x); }
    UpsLeast(e, m, anc[m]);
  }

  /** One member's set with everything the sets of its members hold. */
  method GatherUp(anc: array<set<nat>>, m: nat) returns (acc: set<nat>)
    requires m < anc.Length && anc[m] <= Below(anc.Length)
    ensures acc == anc[m] + Gather(anc[..], anc[m])
  {
    hide Gather, GatherTo, Below;
    acc := anc[m];
    ghost var s := anc[..];
    GatherNext(s, s[m], m);
    for p := 0 to anc.Length
      invariant acc == s[m] + GatherTo(s, s[m], p)
    {
      if p in anc[m] { acc := acc + anc[p]; }
      GatherNext(s, s[m], p);
    }
    GatherAll(s, s[m]);
  }

  /** One pass over the members. */
  method ClimbPass(anc: array<set<nat>>, ghost e: seq<set<nat>>, ghost k: nat) returns (changed: bool)
    requires Edges(e) && Climbed(e, anc[..], k)
    modifies anc
    ensures Climbed(e, anc[..], k + 1)
    ensures !changed ==> forall m: nat :: m < |e| ==> anc[m] == Ups(e, m)
    ensures k >= |e| ==> !changed
  {
    hide Climbed, Climbing, Ups, Rises, Edges, Gather;
    ghost var start := anc[..];
    changed := false;
    SameSize(e, anc[..], k);
    if k >= |e| { ClimbFull(e, start, k); }
    for m := 0 to anc.Length
      invariant Climbing(e, anc[..], k, m)
      invariant !changed ==> anc[..] == start && forall j: nat :: j < m ==> Gather(start, start[j]) <= start[j]
      invariant k >= |e| ==> !changed
    {
      StillClimbed(e, anc[..], k, m);
      var acc := GatherUp(anc, m);
      ClimbStep(e, anc[..], k, m, acc);
      assert anc[..][m := anc[m]] == anc[..];
      if acc != anc[m] {
        ghost var s := anc[..];
        anc[m] := acc;
        changed := true;
        assert anc[..] == s[m := acc];
      }
    }
    ClimbDone(e, anc[..], k);
    if !changed {
      forall m: nat | m < |e| ensures anc[m] == Ups(e, m) {
        StillMeansFull(e, start, k, m);
        assert anc[..][m] == anc[m];
      }
    }
  }

  lemma SameSize(e: seq<set<nat>>, anc: seq<set<nat>>, k: nat)
    requires Climbed(e, anc, k)
    ensures |anc| == |e| && Climbing(e, anc, k, 0)
  {
  }

  lemma StillClimbed(e: seq<set<nat>>, anc: seq<set<nat>>, k: nat, m: nat)
    requires Climbing(e, anc, k, m) && m < |e|
    ensures |anc| == |e| && Climbed(e, anc, k) && anc[m] <= Below(|e|)
  {
  }

  /** Passes until nothing changes: always before the bound, and always the ancestors. */
  method CloseUp(anc: array<set<nat>>) returns (ok: bool)
    requires Edges(anc[..])
    modifies anc
    ensures ok && forall m: nat :: m < anc.Length ==> anc[m] == Ups(old(anc[..]), m)
  {
    ghost var e := anc[..];
    var n := anc.Length;
    ClimbStarts(e);
    for pass := 0 to n + 1
      invariant Climbed(e, anc[..], pass + 1) && pass <= n
    {
      var changed := ClimbPass(anc, e, pass + 1);
      if !changed { return true; }
      if pass == n { return false; }
    }
    return true;
  }

  /** D holds those of the first n members that have m above them. */
  ghost predicate Under(anc: seq<set<nat>>, m: nat, D: set<nat>, n: nat) {
    n <= |anc| && forall k: nat :: k in D <==> k < n && m in anc[k]
  }

  /** The ancestor sets turned over. */
  method FillDescendants(anc: seq<set<nat>>) returns (desc: seq<set<nat>>)
    ensures |desc| == |anc| && forall m: nat :: m < |anc| ==> Under(anc, m, desc[m], |anc|)
  {
    var n := |anc|;
    var d := new set<nat>[n](_ => {});
    for m := 0 to n
      invariant forall i: nat :: i < m ==> Under(anc, i, d[i], n)
      invariant forall i: nat :: m <= i < n ==> d[i] == {}
    {
      for j := 0 to n
        invariant forall i: nat :: i < m ==> Under(anc, i, d[i], n)
        invariant forall i: nat :: m < i < n ==> d[i] == {}
        invariant Under(anc, m, d[m], j)
      {
        ghost var was := d[..];
        if m in anc[j] { d[m] := d[m] + {j}; }
        assert forall i: nat :: i < m ==> d[i] == was[i];
      }
    }
    desc := d[..];
  }
}
