/** When a newcomer's ancestors fit the list they are walked into, and a lawful pool where they do not. */
module AncestorRoom {
  import opened Bytes
  import opened PoolViews
  import opened PoolTables
  import opened PoolState
  import opened PoolClusters
  import opened ClusterWalk
  import opened PoolWalks
  import opened PoolLaws
  import opened PoolAccept
  import opened PoolAdmit
  import Sums

  lemma UpOf(v: View, P: set<Txid>, t: Txid)
    requires Grounded(v) && P <= v.Keys && t in v
    ensures Up(v, P + {t}) == Up(v, P) + Up(v, {t})
  {
    hide Grounded;
    UpHolds(v, P); UpHolds(v, {t});
    var U := Up(v, P) + Up(v, {t});
    assert P + {t} <= U && UpClosed(v, U);
    forall a | a in Up(v, P + {t}) ensures a in U { assert Climbs(v, P + {t}, a); }
    forall a | a in U ensures a in Up(v, P + {t}) {
      forall C: set<Txid> | P + {t} <= C && UpClosed(v, C) ensures a in C { assert P <= C && {t} <= C; }
    }
  }

  lemma UpHolds(v: View, P: set<Txid>)
    requires Grounded(v) && P <= v.Keys
    ensures P <= Up(v, P) && UpClosed(v, Up(v, P))
  {
    forall t | t in Up(v, P) && t in v ensures v[t].parents <= Up(v, P) {
      forall q | q in v[t].parents ensures q in Up(v, P) {
        forall C: set<Txid> | P <= C && UpClosed(v, C) ensures q in C { assert t in C; }
      }
    }
  }

  /** Parents bring in at most a cluster each. */
  lemma {:induction false} ClusterEach(v: View, P: set<Txid>, count: nat, bytes: nat)
    requires Lawful(v, count, bytes) && P <= v.Keys
    ensures |Up(v, P)| <= |P| * count
  {
    hide *;
    if P == {} {
      NoneAbove(v);
    } else {
      var t :| t in P;
      var Q := P - {t};
      ClusterEach(v, Q, count, bytes);
      assert Q + {t} == P;
      OneMoreParent(v, Q, t, count, bytes);
      assert |P| == |Q| + 1;
      OneMore(|Q|, count);
    }
  }

  lemma OneMoreParent(v: View, Q: set<Txid>, t: Txid, count: nat, bytes: nat)
    requires Lawful(v, count, bytes) && Q <= v.Keys && t in v
    ensures |Up(v, Q + {t})| <= |Up(v, Q)| + count
  {
    hide Up, Acyclic, Weight;
    UpOf(v, Q, t);
    UpInCluster(v, {t});
    Union(Up(v, Q), Up(v, {t}));
  }

  lemma OneMore(n: nat, w: nat)
    ensures (n + 1) * w == n * w + w
  {
  }

  lemma NoneAbove(v: View)
    ensures Up(v, {}) == {}
  {
    assert UpClosed(v, {});
  }

  lemma Union(A: set<Txid>, B: set<Txid>)
    ensures |A + B| <= |A| + |B|
  {
    assert A + B == A + (B - A);
    Sums.SubsetSize(B - A, B);
  }

  /** Up to 32 parents in a lawful pool never overrun the list. */
  lemma FewParentsFit(v: View, ins: seq<Outpoint>, count: nat, bytes: nat)
    requires Lawful(v, count, bytes) && count <= CLUSTER_LIMIT && |Parents(v, ins)| <= 32
    ensures !Overruns(v, ins)
  {
    hide Up, Parents, Lawful;
    ClusterEach(v, Parents(v, ins), count, bytes);
    Products(|Parents(v, ins)|, count);
  }

  lemma Products(a: nat, b: nat)
    requires a <= 32 && b <= 64
    ensures a * b <= 2048
  {
  }

  /** A newcomer that is let in has under 64 ancestors, so every later walk of its acceptance stays inside too. */
  lemma AdmittedFits(c: Contents, E: set<Txid>, ins: seq<Outpoint>, size: nat, count: nat, bytes: nat)
    requires Grounded(c.graph) && Admissible(c, E, ins, size, count, bytes) && count <= CLUSTER_LIMIT
    ensures |Up(c.graph, Parents(c.graph, ins))| < CLUSTER_LIMIT && !Overruns(c.graph, ins)
  {
    hide Up, Parents, Cluster;
    var v, P := c.graph, Parents(c.graph, ins);
    var w := Remove(v, E);
    GroundedRemove(v, E);
    UpStays(v, E, P);
    UpInCluster(w, P);
  }

  // ---- chains side by side ----

  /** The transaction at place j of chain i. */
  function Name(i: byte, j: byte): Txid {
    [i, j]
  }

  /** The first k of chain i. */
  ghost predicate InChain(t: Txid, i: nat, k: nat) {
    |t| == 2 && t[0] == i && t[1] < k
  }

  ghost predicate InChains(t: Txid, n: nat) {
    |t| == 2 && t[0] < n && t[1] < 64
  }

  ghost predicate IsTip(t: Txid, n: nat) {
    |t| == 2 && t[0] < n && t[1] == 63
  }

  function Chain(i: nat, k: nat): (r: set<Txid>)
    requires i < 256 && k <= 64
    ensures forall t :: t in r <==> InChain(t, i, k)
    ensures |r| == k
  {
    if k == 0 then {}
    else
      assert forall t :: InChain(t, i, k) <==> InChain(t, i, k - 1) || t == Name(i, k - 1);
      Chain(i, k - 1) + {Name(i, k - 1)}
  }

  function AllNames(n: nat): (r: set<Txid>)
    requires n <= 256
    ensures forall t :: t in r <==> InChains(t, n)
    ensures |r| == n * 64
  {
    if n == 0 then {} else JoinRows(AllNames(n - 1), Chain(n - 1, 64), n - 1)
  }

  function JoinRows(rest: set<Txid>, row: set<Txid>, i: nat): (r: set<Txid>)
    requires i < 256 && (forall t :: t in rest <==> InChains(t, i)) && (forall t :: t in row <==> InChain(t, i, 64))
    ensures forall t :: t in r <==> InChains(t, i + 1)
    ensures |r| == |rest| + |row|
  {
    assert forall t :: InChains(t, i + 1) <==> InChains(t, i) || InChain(t, i, 64);
    assert forall t :: t in rest ==> InChains(t, i) && !InChain(t, i, 64);
    assert rest !! row;
    rest + row
  }

  function Tips(n: nat): (r: set<Txid>)
    requires n <= 256
    ensures forall t :: t in r <==> IsTip(t, n)
    ensures |r| == n
  {
    if n == 0 then {}
    else
      assert forall t :: IsTip(t, n) <==> IsTip(t, n - 1) || t == Name(n - 1, 63);
      Tips(n - 1) + {Name(n - 1, 63)}
  }

  /** n chains of 64 transactions of 100 bytes each. */
  ghost function Chains(n: nat): (v: View)
    requires n <= 256
    ensures v.Keys == AllNames(n)
    ensures forall t :: t in v ==> v[t] == Entry(100, 0, Before(t))
  {
    map t | t in AllNames(n) :: Entry(100, 0, Before(t))
  }

  function Before(t: Txid): set<Txid> {
    if |t| != 2 || t[1] == 0 then {} else {Name(t[0], t[1] - 1)}
  }

  lemma ChainsSound(n: nat)
    requires n <= 256
    ensures Grounded(Chains(n)) && Acyclic(Chains(n))
  {
    hide AllNames, Chains;
    var v := Chains(n);
    var rank: map<Txid, nat> := map t | t in AllNames(n) :: if |t| == 2 then t[1] as nat else 0;
    forall t | t in v ensures v[t].parents <= v.Keys && forall p :: p in v[t].parents ==> rank[p] < rank[t] {
      assert InChains(t, n);
      forall p | p in v[t].parents ensures p in v && rank[p] < rank[t] { assert InChains(p, n); }
    }
    assert Ranked(v, rank);
  }

  lemma ChainCloses(n: nat, i: nat)
    requires i < n <= 256
    ensures LinkClosed(Chains(n), Chain(i, 64)) && Chain(i, 64) <= AllNames(n)
  {
    hide AllNames, Chains, Chain;
    var v := Chains(n);
    forall t, u | t in Chain(i, 64) && Linked(v, t, u) ensures u in Chain(i, 64) {
      assert InChain(t, i, 64) && InChains(u, n);
      assert InChain(u, i, 64);
    }
    forall t | t in Chain(i, 64) ensures t in AllNames(n) { assert InChain(t, i, 64); }
  }

  lemma {:induction false} WeightAtMost(v: View, A: set<Txid>, w: nat)
    requires A <= v.Keys && forall t :: t in A ==> v[t].size <= w
    ensures Weight(v, A) <= |A| * w
  {
    hide Weight;
    if A == {} {
      NoWeightIn(v);
    } else {
      var t :| t in A;
      var B := A - {t};
      WeightAtMost(v, B, w);
      WeightWith(v, B, t);
      assert B + {t} == A;
      assert |A| == |B| + 1;
      OneMore(|B|, w);
    }
  }

  lemma ChainsLimited(n: nat)
    requires n <= 256
    ensures Limited(Chains(n), 64, 101000)
  {
    hide AllNames, Chains, Chain, Weight;
    var v := Chains(n);
    forall t | t in v ensures |Cluster(v, {t})| <= 64 && Weight(v, Cluster(v, {t})) <= 101000 {
      assert InChains(t, n);
      var i := t[0] as nat;
      ChainCloses(n, i);
      assert InChain(t, i, 64);
      var K := Cluster(v, {t});
      assert K <= Chain(i, 64);
      Sums.SubsetSize(K, Chain(i, 64));
      WeightAtMost(v, K, 100);
    }
  }

  lemma {:induction false} AboveTip(n: nat, i: nat, k: nat)
    requires i < n <= 256 && k < 64
    ensures Name(i, 63 - k) in Up(Chains(n), Tips(n))
  {
    hide Chains, Up, AllNames, Tips, Acyclic;
    var v := Chains(n);
    ChainsSound(n);
    TipsIn(n);
    UpHolds(v, Tips(n));
    if k == 0 {
      assert IsTip(Name(i, 63), n);
    } else {
      var t := Name(i, 64 - k);
      AboveTip(n, i, k - 1);
      assert InChains(t, n) && t in v;
      assert v[t].parents == Before(t) == {Name(i, 63 - k)};
    }
  }

  lemma TipsIn(n: nat)
    requires n <= 256
    ensures Tips(n) <= Chains(n).Keys
  {
    hide Chains, AllNames, Tips;
    forall t | t in Tips(n) ensures t in AllNames(n) { assert IsTip(t, n); assert InChains(t, n); }
  }

  lemma TipsReachAll(n: nat)
    requires n <= 256
    ensures Up(Chains(n), Tips(n)) == AllNames(n) && |Up(Chains(n), Tips(n))| == n * 64
  {
    hide Up, Chains, AllNames, Tips;
    forall t | t in AllNames(n) ensures t in Up(Chains(n), Tips(n)) {
      assert InChains(t, n);
      AboveTip(n, t[0] as nat, 63 - t[1]);
      assert t == Name(t[0], t[1]);
    }
    UpWithin(Chains(n), Tips(n));
  }

  lemma UpWithin(v: View, P: set<Txid>)
    ensures Up(v, P) <= v.Keys
  {
  }

  /** The first outputs of the tips. */
  function SpendTips(n: nat): (ins: seq<Outpoint>)
    requires n <= 256
    ensures |ins| == n && forall i: nat :: i < n ==> ins[i] == (Name(i, 63), 0)
  {
    seq(n, i requires 0 <= i < n => (Name(i, 63), 0))
  }

  lemma TipsAreParents(n: nat)
    requires n <= 256
    ensures Parents(Chains(n), SpendTips(n)) == Tips(n)
  {
    hide Chains, AllNames, Tips, SpendTips;
    TipsIn(n);
    var ins := SpendTips(n);
    forall t | t in Tips(n) ensures t in Parents(Chains(n), ins) {
      assert IsTip(t, n);
      assert ins[t[0]] in ins && t == Name(t[0], 63);
    }
    forall t | t in Parents(Chains(n), ins) ensures t in Tips(n) {
      var k: nat :| k < n && ins[k].0 == t;
      assert IsTip(t, n);
    }
  }

  /** A newcomer that spends the tips of n chains, each as long as a cluster may be, in a lawful pool: its list is overrun exactly from
      33 chains on. */
  lemma ChainsOverrun(n: nat)
    requires n <= MAX_PARENTS
    ensures Lawful(Chains(n), 64, 101000) && Parents(Chains(n), SpendTips(n)) == Tips(n) && |Tips(n)| == n
    ensures Overruns(Chains(n), SpendTips(n)) <==> n >= 33
  {
    hide Chains, Up, Limited, Acyclic, Grounded, AllNames, Tips, SpendTips, Parents;
    ChainsSound(n);
    ChainsLimited(n);
    TipsAreParents(n);
    TipsReachAll(n);
  }
}
