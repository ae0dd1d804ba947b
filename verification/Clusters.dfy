/** A cluster of dependent transactions: its members, its linearizations and
    their fee and weight sums. A member bitset is a set of member indices. */
module Clusters {
  import opened Sums

  const MAX_CLUSTER := 64

  /** `ancestors` and `descendants` include the member itself. */
  datatype Member = Member(ancestors: set<nat>, descendants: set<nat>, fee: nat, weight: nat)

  datatype Cluster = Cluster(m: seq<Member>)

  function Fees(cl: Cluster): (p: seq<int>)
    ensures |p| == |cl.m| && forall i: nat :: i < |p| ==> p[i] == cl.m[i].fee
  {
    seq(|cl.m|, i requires 0 <= i < |cl.m| => cl.m[i].fee)
  }

  function Weights(cl: Cluster): (p: seq<int>)
    ensures |p| == |cl.m| && forall i: nat :: i < |p| ==> p[i] == cl.m[i].weight
  {
    seq(|cl.m|, i requires 0 <= i < |cl.m| => cl.m[i].weight)
  }

  function Fee(cl: Cluster, S: set<nat>): int { Sum(Fees(cl), S) }

  function Weight(cl: Cluster, S: set<nat>): int { Sum(Weights(cl), S) }

  /** The ancestor sets are those of an acyclic dependency graph. */
  ghost predicate Acyclic(cl: Cluster) {
    && (forall i: nat :: i < |cl.m| ==> i in cl.m[i].ancestors && cl.m[i].ancestors <= Below(|cl.m|))
    && (forall i: nat, j: nat :: i < |cl.m| && j in cl.m[i].ancestors && j < |cl.m| ==> cl.m[j].ancestors <= cl.m[i].ancestors)
    && (forall i: nat, j: nat :: i < |cl.m| && j < |cl.m| && j in cl.m[i].ancestors && i in cl.m[j].ancestors ==> i == j)
  }

  /** The descendant sets are the transpose of the ancestor sets. */
  ghost predicate Transposed(cl: Cluster) {
    forall i: nat, j: nat :: i < |cl.m| && j < |cl.m| ==> (j in cl.m[i].descendants <==> i in cl.m[j].ancestors)
  }

  ghost predicate PositiveWeights(cl: Cluster) {
    forall i: nat :: i < |cl.m| ==> cl.m[i].weight > 0
  }

  ghost predicate WellFormed(cl: Cluster) {
    |cl.m| <= MAX_CLUSTER && Acyclic(cl) && PositiveWeights(cl)
  }

  /** A holds, with each member, all of its ancestors that are in rem. */
  ghost predicate Closed(cl: Cluster, rem: set<nat>, A: set<nat>) {
    && A <= rem
    && forall i: nat :: i in A && i < |cl.m| ==> cl.m[i].ancestors * rem <= A
  }

  /** The members of an ordering, as a set. */
  function Members(xs: seq<int>): set<nat> {
    set x: nat | x in xs
  }

  /** xs lists distinct members. */
  ghost predicate Listing(cl: Cluster, xs: seq<int>) {
    && (forall i: nat :: i < |xs| ==> 0 <= xs[i] < |cl.m|)
    && (forall i: nat, j: nat :: i < j < |xs| ==> xs[i] != xs[j])
  }

  ghost predicate Permutation(cl: Cluster, xs: seq<int>) {
    |xs| == |cl.m| && Listing(cl, xs)
  }

  /** Every ancestor of a listed member is listed before it. */
  ghost predicate ParentsFirst(cl: Cluster, xs: seq<int>) {
    && Listing(cl, xs)
    && forall i: nat :: i < |xs| ==> cl.m[xs[i]].ancestors - {xs[i]} <= Members(xs[..i])
  }

  /** A linearization: a permutation of the members in which parents precede children. */
  ghost predicate Topological(cl: Cluster, xs: seq<int>) {
    Permutation(cl, xs) && ParentsFirst(cl, xs)
  }
}
