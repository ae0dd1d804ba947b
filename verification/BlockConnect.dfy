/** A block connected: what it confirmed leaves alone, what it conflicts with leaves with everything below it. */
module BlockConnect {
  import opened ChainTable
  import opened PoolViews
  import opened NodeRemoval
  import opened BatchRemoval
  import opened PoolTables
  import opened PoolState
  import opened PoolClusters
  import opened ClusterWalk
  import opened PoolWalks
  import opened PoolLaws
  import opened PoolAccept
  import opened PoolAdmit
  import opened CacheMoves
  import opened PoolWorst
  import opened Marking
  import Sums

  /** A transaction of a block after the coinbase, by its txid and what it spends. */
  datatype Mined = Mined(txid: Txid, ins: seq<Outpoint>)

  /** The outpoints read of a block's transaction: all of them, or none when there are more than the table for them holds. */
  function Read(b: Mined): seq<Outpoint> {
    if |b.ins| <= MAX_INPUTS then b.ins else []
  }

  ghost function Confirmed(block: seq<Mined>): set<Txid> {
    set b | b in block :: b.txid
  }

  /** Those other than b that spend what is read of b. */
  ghost function FoesOf(c: Contents, b: Mined): set<Txid> {
    set s | s in c.spends && s.0 in Read(b) && s.1 != b.txid :: s.1
  }

  ghost function Foes(c: Contents, block: seq<Mined>): set<Txid> {
    if block == [] then {} else Foes(c, block[..|block| - 1]) + FoesOf(c, block[|block| - 1])
  }

  /** Who leaves: the confirmed, and the conflicting with all that spends them. */
  ghost function Leaving(c: Contents, block: seq<Mined>): set<Txid> {
    Confirmed(block) * c.graph.Keys + Down(c.graph, Foes(c, block))
  }

  lemma {:induction false} FoeIs(c: Contents, block: seq<Mined>, j: nat, s: (Outpoint, Txid))
    requires j < |block| && s in c.spends && s.0 in Read(block[j]) && s.1 != block[j].txid
    ensures s.1 in Foes(c, block)
    decreases |block|
  {
    if j < |block| - 1 { FoeIs(c, block[..|block| - 1], j, s); } else { assert s.1 in FoesOf(c, block[j]); }
  }

  /** Whoever spends what is read of the block leaves. */
  lemma SpenderLeaves(c: Contents, block: seq<Mined>, s: (Outpoint, Txid), j: nat)
    requires s in c.spends && s.1 in c.graph && Foes(c, block) <= c.graph.Keys && j < |block| && s.0 in Read(block[j])
    ensures s.1 in Leaving(c, block)
  {
    hide Foes, Down;
    DownCloses(c.graph, Foes(c, block));
    assert block[j] in block;
    if s.1 != block[j].txid { FoeIs(c, block, j, s); }
  }

  /** Nobody spends what the block spends. */
  ghost predicate Unspent(d: Contents, block: seq<Mined>) {
    forall s, j: nat :: s in d.spends && j < |block| ==> s.0 !in block[j].ins
  }

  /** Whoever spends an outpoint of a transaction too long to be read leaves all the same: confirmed, or below a conflict that was read. */
  ghost predicate Covered(c: Contents, block: seq<Mined>) {
    forall s, j: nat :: s in c.spends && j < |block| && |block[j].ins| > MAX_INPUTS && s.0 in block[j].ins ==> s.1 in Leaving(c, block)
  }

  /** Nobody left in the pool spends what the block spent exactly when those that are not found leave for another reason. */
  lemma NoneSpendsSpent(c: Contents, block: seq<Mined>)
    requires (forall t :: t in c.spends ==> t.1 in c.graph) && Foes(c, block) <= c.graph.Keys
    ensures Unspent(Without(c, Leaving(c, block)), block) <==> Covered(c, block)
  {
    hide Foes, Down, Leaving;
    var d := Without(c, Leaving(c, block));
    if Covered(c, block) {
      forall s, j: nat | s in d.spends && j < |block| ensures s.0 !in block[j].ins {
        if s.0 in block[j].ins && |block[j].ins| <= MAX_INPUTS { SpenderLeaves(c, block, s, j); }
      }
    }
    if Unspent(d, block) {
      forall s, j: nat | s in c.spends && j < |block| && |block[j].ins| > MAX_INPUTS && s.0 in block[j].ins ensures s.1 in Leaving(c, block) {
        assert s in d.spends <==> s.1 !in Leaving(c, block);
      }
    }
  }

  /** A block of transactions that can all be read leaves nobody who spends what it spent. */
  lemma ShortBlocksCover(c: Contents, block: seq<Mined>)
    requires forall j: nat :: j < |block| ==> |block[j].ins| <= MAX_INPUTS
    ensures Covered(c, block)
  {
  }

  function Outpoints(t: Txid, n: nat): (r: seq<Outpoint>)
    ensures |r| == n && forall i: nat :: i < n ==> r[i] == (t, i)
  {
    seq(n, i requires 0 <= i => (t, i))
  }

  /** A block whose one transaction has 2049 inputs, and a rival of it that stays. */
  lemma LongTxLeavesRival(t: Txid, mined: Txid, rival: Txid, e: Entry)
    requires mined != rival && e.parents == {}
    ensures var c := Contents(map[rival := e], {((t, 0), rival)}, {});
      var block := [Mined(mined, Outpoints(t, MAX_INPUTS + 1))];
      Without(c, Leaving(c, block)) == c && !Unspent(c, block)
  {
    var c := Contents(map[rival := e], {((t, 0), rival)}, {});
    var block := [Mined(mined, Outpoints(t, MAX_INPUTS + 1))];
    assert block[..0] == [] && Foes(c, []) == {};
    assert FoesOf(c, block[0]) == {};
    assert Down(c.graph, {}) == {} by { assert KidClosed(c.graph, {}); }
    assert Confirmed(block) == {mined};
    assert Leaving(c, block) == {};
    RemoveNone(c.graph);
    assert (t, 0) == block[0].ins[0];
    assert ((t, 0), rival) in c.spends;
  }

  /** And whoever stays has lost no parent but to confirmation. */
  lemma LostOnlyConfirmed(c: Contents, block: seq<Mined>, u: Txid, t: Txid)
    requires Foes(c, block) <= c.graph.Keys && u in c.graph && u !in Leaving(c, block)
    requires t in c.graph[u].parents && t in Leaving(c, block)
    ensures t in Confirmed(block)
  {
    hide Foes, Confirmed;
    DownCloses(c.graph, Foes(c, block));
    assert Spender(c.graph, t, u);
  }

  // ---- children lists and the graph ----

  lemma SlotsClosed(ns: seq<Node>, kids: seq<seq<nat>>, C: set<Txid>)
    requires Distinct(ns) && KidsOk(ns, kids) && KidClosed(ViewOf(ns), C)
    ensures DownClosed(kids, set a: nat | a < |ns| && ns[a].txid in C)
  {
    hide ViewOf, Distinct, KidsOk;
    KidsSize(ns, kids);
    var D := set a: nat | a < |ns| && ns[a].txid in C;
    forall p: nat, c: nat | p < |kids| && p in D && c in kids[p] ensures c in D { KidSpends(ns, kids, p, c); }
  }

  lemma BelowWithin(ns: seq<Node>, kids: seq<seq<nat>>, R: set<nat>, C: set<Txid>, a: nat)
    requires Distinct(ns) && KidsOk(ns, kids) && KidClosed(ViewOf(ns), C) && a in Marking.Below(kids, R)
    requires forall x :: x in R ==> x < |ns| && ns[x].txid in C
    ensures a < |ns| && ns[a].txid in C
  {
    hide ViewOf, Distinct, KidsOk, KidClosed, DownClosed;
    SlotsClosed(ns, kids, C);
    var D := set x: nat | x < |ns| && ns[x].txid in C;
    assert R <= D;
    assert Under(kids, R, a);
  }

  lemma NamesClosed(ns: seq<Node>, kids: seq<seq<nat>>, B: set<nat>)
    requires Distinct(ns) && KidsOk(ns, kids) && DownClosed(kids, B) && forall a :: a in B ==> a < |ns|
    ensures KidClosed(ViewOf(ns), NamesOf(ns, B))
  {
    hide ViewOf, Distinct, KidsOk;
    KidsSize(ns, kids);
    forall t, u | t in NamesOf(ns, B) && Spender(ViewOf(ns), t, u) ensures u in NamesOf(ns, B) {
      var a :| a in B && ns[a].txid == t;
      forall k: nat | k < |kids[a]| && kids[a][k] < |ns| ensures ns[kids[a][k]].txid in NamesOf(ns, B) {
        assert kids[a][k] in kids[a];
      }
      SpendersAre(ns, kids, a, NamesOf(ns, B));
    }
  }

  lemma KidsFitted(ns: seq<Node>, kids: seq<seq<nat>>)
    requires KidsOk(ns, kids)
    ensures KidsFit(kids) && |kids| == |ns|
  {
  }

  /** What is below some slots, by name, is what spends those transactions. */
  lemma BelowIsDown(ns: seq<Node>, kids: seq<seq<nat>>, R: set<nat>)
    requires Distinct(ns) && KidsOk(ns, kids) && R <= Sums.Below(|ns|)
    ensures (forall a :: a in Marking.Below(kids, R) ==> a < |ns|) && NamesOf(ns, Marking.Below(kids, R)) == Down(ViewOf(ns), NamesOf(ns, R))
  {
    hide ViewOf, Distinct, KidsOk, KidClosed, Marking.Below, DownClosed, Sums.Below;
    KidsFitted(ns, kids);
    var v, B, N := ViewOf(ns), Marking.Below(kids, R), NamesOf(ns, R);
    BelowClosed(kids, R);
    NamesClosed(ns, kids, B);
    assert N <= NamesOf(ns, B);
    forall t | t in NamesOf(ns, B) ensures t in v {
      var a :| a in B && ns[a].txid == t;
      ViewAt(ns, a);
    }
    forall C: set<Txid> | N <= C && KidClosed(v, C) ensures NamesOf(ns, B) <= C {
      forall t | t in NamesOf(ns, B) ensures t in C {
        var a :| a in B && ns[a].txid == t;
        BelowWithin(ns, kids, R, C, a);
      }
    }
    DownLeast(v, N, NamesOf(ns, B));
  }

  /** In a pool within the limits a sweep marks what the walk marks, whatever is raised already and however it came about. */
  lemma LawfulSwept(ns: seq<Node>, kids: seq<seq<nat>>, S: set<nat>, count: nat, bytes: nat)
    requires Distinct(ns) && KidsOk(ns, kids) && Lawful(ViewOf(ns), count, bytes) && count <= CLUSTER_LIMIT && S <= Sums.Below(|ns|)
    ensures KidsFit(kids) && Marking.Climbs(kids, S, ROUNDS) == Marking.Below(kids, S)
  {
    hide ViewOf, Distinct, KidsOk, Marking.Below, Marking.Climbs, Sums.Below, Cluster, Down, Acyclic, Weight;
    KidsFitted(ns, kids);
    forall s | s in S ensures |Marking.Below(kids, {s})| <= ROUNDS + 1 {
      BelowIsDown(ns, kids, {s});
      NamesSize(ns, Marking.Below(kids, {s}));
      assert NamesOf(ns, {s}) == {ns[s].txid};
      ViewAt(ns, s);
      DownInCluster(ViewOf(ns), ns[s].txid);
    }
    SweptOneByOne(kids, S);
  }

  // ---- the marks while a block is read ----

  /** Marked are exactly what is below the conflicting slots R, and the confirmed slots Cn; nothing else is raised, nothing of it missed. */
  ghost predicate Marks(kids: seq<seq<nat>>, mark: seq<nat>, R: set<nat>, Cn: set<nat>) {
    && |mark| == |kids| && R <= Sums.Below(|kids|) && Cn <= Sums.Below(|kids|)
    && (forall i: nat :: i < |mark| ==> mark[i] <= 2)
    && Level2(mark) <= Marking.Below(kids, R)
    && (forall i: nat :: i < |mark| && i in Marking.Below(kids, R) ==> mark[i] != 0)
    && (forall i: nat :: i < |mark| && mark[i] == 1 ==> i in Cn)
    && (forall i: nat :: i < |mark| && i in Cn ==> mark[i] != 0)
  }

  lemma MarksConfirm(kids: seq<seq<nat>>, mark: seq<nat>, R: set<nat>, Cn: set<nat>, i: nat)
    requires Marks(kids, mark, R, Cn) && i < |mark|
    ensures Marks(kids, mark[i := 1], R, Cn + {i})
  {
    hide Marking.Below, Sums.Below;
  }

  lemma BelowMore(kids: seq<seq<nat>>, A: set<nat>, B: set<nat>)
    requires A <= B
    ensures Marking.Below(kids, A) <= Marking.Below(kids, B)
  {
  }

  lemma BelowAgain(kids: seq<seq<nat>>, R: set<nat>, A: set<nat>)
    requires KidsFit(kids) && R <= Sums.Below(|kids|) && A <= Marking.Below(kids, R)
    ensures Marking.Below(kids, A) <= Marking.Below(kids, R)
  {
    BelowClosed(kids, R);
  }

  lemma BelowJoin(kids: seq<seq<nat>>, R: set<nat>, r: nat, a: nat)
    requires KidsFit(kids) && R <= Sums.Below(|kids|) && r < |kids| && a in Marking.Below(kids, R + {r})
    ensures a in Marking.Below(kids, R) || a in Marking.Below(kids, {r})
  {
    hide Marking.Below, Sums.Below;
    var s := BelowOne(kids, R + {r}, a);
    if s in R { BelowMore(kids, {s}, R); }
  }

  /** A root already raised is below the roots before it. */
  lemma MarksSame(kids: seq<seq<nat>>, mark: seq<nat>, R: set<nat>, Cn: set<nat>, r: nat)
    requires KidsFit(kids) && Marks(kids, mark, R, Cn) && r < |mark| && mark[r] == 2
    ensures Marks(kids, mark, R + {r}, Cn)
  {
    hide Marking.Below, Sums.Below;
    BelowMore(kids, R, R + {r});
    forall i: nat | i < |mark| && i in Marking.Below(kids, R + {r}) ensures mark[i] != 0 {
      BelowJoin(kids, R, r, i);
      BelowAgain(kids, R, {r});
    }
  }

  lemma MarksRaised(kids: seq<seq<nat>>, mark: seq<nat>, rark: seq<nat>, R: set<nat>, Cn: set<nat>, r: nat)
    requires KidsFit(kids) && Marks(kids, mark, R, Cn) && r < |mark| && Raised(mark, rark, Marking.Below(kids, Level2(mark) + {r}))
    ensures Marks(kids, rark, R + {r}, Cn)
  {
    hide Marking.Below, Sums.Below;
    var B := Marking.Below(kids, Level2(mark) + {r});
    BelowMore(kids, R, R + {r}); BelowMore(kids, {r}, Level2(mark) + {r});
    BelowClosed(kids, R + {r});
    BelowAgain(kids, R + {r}, Level2(mark) + {r});
    forall i: nat | i < |rark| && i in Marking.Below(kids, R + {r}) ensures rark[i] != 0 { BelowJoin(kids, R, r, i); }
    forall i: nat | i < |rark| && rark[i] == 2 ensures i in Marking.Below(kids, R + {r}) {
      if i !in B { assert i in Level2(mark); }
    }
  }

  /** The slot that claims an outpoint, or -1: the one spender it has in the pool, if it has one. */
  method Claimer(p: Pool, op: Outpoint) returns (cl: int)
    requires p.Valid()
    ensures cl < 0 ==> SpendersOf(p.Now(), op) == {}
    ensures cl >= 0 ==> cl < |p.nodes.Entries()| && SpendersOf(p.Now(), op) == {p.nodes.Entries()[cl].txid}
  {
    hide Table.Valid, Table.Entries, InOrder, Unique, Keyed, ClaimKeyed, OutKeyed, Held, SpendersOf;
    ghost var ns, cs, os := p.nodes.Entries(), p.claims.Entries(), p.outs.Entries();
    p.claims.Live();
    SoundParts(ns, cs, os);
    var s := p.claims.Find(op);
    ClaimPlace(p.claims, op, s);
    if s < 0 {
      NotSpent(ns, cs, op);
      cl := -1;
    } else {
      OneSpender(ns, cs, s, op, p.claims.key);
      cl := p.claims.entries[s].claimer;
    }
  }

  /** The conflicting found among the first i outpoints. */
  ghost function FoesUpTo(c: Contents, b: Mined, i: nat): set<Txid>
    requires i <= |Read(b)|
  {
    set s | s in c.spends && s.0 in Read(b)[..i] && s.1 != b.txid :: s.1
  }

  lemma FoesNext(c: Contents, b: Mined, i: nat)
    requires i < |Read(b)|
    ensures FoesUpTo(c, b, i + 1) == FoesUpTo(c, b, i) + (SpendersOf(c, Read(b)[i]) - {b.txid})
  {
    var ins := Read(b);
    assert ins[..i + 1] == ins[..i] + [ins[i]];
  }

  lemma FoesAll(c: Contents, b: Mined)
    ensures FoesUpTo(c, b, 0) == {} && FoesUpTo(c, b, |Read(b)|) == FoesOf(c, b)
  {
    assert Read(b)[..|Read(b)|] == Read(b);
  }

  /** Where the marking stands: what is marked and by whose names. */
  ghost predicate Stands(ns: seq<Node>, kids: seq<seq<nat>>, mark: seq<nat>, R: set<nat>, Cn: set<nat>, foes: set<Txid>, mined: set<Txid>) {
    && KidsOk(ns, kids) && KidsFit(kids) && |kids| == |ns| && Marks(kids, mark, R, Cn)
    && (forall a :: a in R ==> a < |ns|) && (forall a :: a in Cn ==> a < |ns|) && NamesOf(ns, R) == foes && NamesOf(ns, Cn) == mined
  }

  lemma NamesMore(ns: seq<Node>, S: set<nat>, a: nat)
    requires (forall x :: x in S ==> x < |ns|) && a < |ns|
    ensures NamesOf(ns, S + {a}) == NamesOf(ns, S) + {ns[a].txid}
  {
  }

  lemma StandsConfirm(ns: seq<Node>, kids: seq<seq<nat>>, mark: seq<nat>, R: set<nat>, Cn: set<nat>, foes: set<Txid>, mined: set<Txid>, i: nat)
    requires Stands(ns, kids, mark, R, Cn, foes, mined) && i < |ns| && |mark| == |ns|
    ensures Stands(ns, kids, mark[i := 1], R, Cn + {i}, foes, mined + {ns[i].txid})
  {
    hide KidsOk, KidsFit, Marks;
    MarksConfirm(kids, mark, R, Cn, i);
    NamesMore(ns, Cn, i);
  }

  lemma StandsRaised(ns: seq<Node>, kids: seq<seq<nat>>, mark: seq<nat>, rark: seq<nat>, R: set<nat>, Cn: set<nat>,
                     foes: set<Txid>, mined: set<Txid>, r: nat)
    requires Stands(ns, kids, mark, R, Cn, foes, mined) && r < |ns| && |mark| == |ns|
    requires mark[r] == 2 ==> rark == mark
    requires mark[r] != 2 ==> Raised(mark, rark, Marking.Below(kids, Level2(mark) + {r}))
    ensures Stands(ns, kids, rark, R + {r}, Cn, foes + {ns[r].txid}, mined)
  {
    hide KidsOk, KidsFit, Marks, Raised, Level2, Marking.Below;
    if mark[r] == 2 { MarksSame(kids, mark, R, Cn, r); } else { MarksRaised(kids, mark, rark, R, Cn, r); }
    NamesMore(ns, R, r);
  }

  /** A slot raised with everything below it. */
  method RaiseFrom(m: Marker, r: nat, ghost ns: seq<Node>, ghost R: set<nat>, ghost Cn: set<nat>, ghost foes: set<Txid>, ghost mined: set<Txid>)
    requires m.Valid() && r < |ns| && Stands(ns, m.kids, m.mark[..], R, Cn, foes, mined)
    modifies m, m.mark
    ensures m.Valid() && Stands(ns, m.kids, m.mark[..], R + {r}, Cn, foes + {ns[r].txid}, mined)
  {
    hide Marker.Valid, Stands, Raised, Level2, Marking.Below;
    ghost var was := m.mark[..];
    StandsSize(ns, m.kids, was, R, Cn, foes, mined);
    Shape(m);
    m.WalkFrom(r);
    StandsRaised(ns, m.kids, was, m.mark[..], R, Cn, foes, mined, r);
  }

  /** One outpoint of a block's transaction: whoever else claims it raised with everything below. */
  method MarkInput(p: Pool, m: Marker, x: Txid, self: int, op: Outpoint, ghost R0: set<nat>, ghost Cn: set<nat>, ghost foes: set<Txid>, ghost mined: set<Txid>)
    returns (ghost R: set<nat>)
    requires p.Valid() && m.Valid() && {m as object, m.mark} !! Parts(p.nodes) + Parts(p.claims) + Parts(p.outs)
    requires Stands(p.nodes.Entries(), m.kids, m.mark[..], R0, Cn, foes, mined)
    requires self >= 0 ==> self < |p.nodes.Entries()| && p.nodes.Entries()[self].txid == x
    requires self < 0 ==> x !in Txids(p.nodes.Entries())
    modifies m, m.mark
    ensures p.Valid() && m.Valid() && p.Now() == old(p.Now()) && p.nodes.Entries() == old(p.nodes.Entries())
    ensures Stands(p.nodes.Entries(), m.kids, m.mark[..], R, Cn, foes + (SpendersOf(p.Now(), op) - {x}), mined)
  {
    hide Pool.Valid, Pool.Now, Table.Valid, Table.Entries, Marker.Valid, Stands, Keyed, Distinct, ViewOf, Held, FoesOf, FoesUpTo, Raised,
      Level2, Marking.Below, SpendersOf, Txids;
    ghost var frame := Parts(p.nodes) + Parts(p.claims) + Parts(p.outs);
    Opened(p);
    ghost var ns, c := p.nodes.Entries(), p.Now();
    R := R0;
    var cl := Claimer(p, op);
    SelfIs(ns, x, self, cl);
    if cl >= 0 && cl != self {
      RaiseFrom(m, cl, ns, R, Cn, foes, mined);
      R := R + {cl};
      assert SpendersOf(c, op) - {x} == {ns[cl].txid};
    } else {
      assert foes + (SpendersOf(c, op) - {x}) == foes;
    }
  }

  /** A slot marked as confirmed. */
  method ConfirmAt(m: Marker, i: nat, ghost ns: seq<Node>, ghost R: set<nat>, ghost Cn: set<nat>, ghost foes: set<Txid>, ghost mined: set<Txid>)
    requires m.Valid() && i < |ns| && Stands(ns, m.kids, m.mark[..], R, Cn, foes, mined)
    modifies m, m.mark
    ensures m.Valid() && Stands(ns, m.kids, m.mark[..], R, Cn + {i}, foes, mined + {ns[i].txid})
  {
    hide Marker.Valid, Stands;
    StandsSize(ns, m.kids, m.mark[..], R, Cn, foes, mined);
    Shape(m);
    StandsConfirm(ns, m.kids, m.mark[..], R, Cn, foes, mined, i);
    m.Confirm(i);
  }

  /** A transaction of the block confirmed, if the pool has it. */
  method MarkSelf(p: Pool, m: Marker, x: Txid, ghost R: set<nat>, ghost Cn0: set<nat>, ghost foes: set<Txid>, ghost mined: set<Txid>)
    returns (self: int, ghost Cn: set<nat>)
    requires p.Valid() && m.Valid() && {m as object, m.mark} !! Parts(p.nodes) + Parts(p.claims) + Parts(p.outs)
    requires Stands(p.nodes.Entries(), m.kids, m.mark[..], R, Cn0, foes, mined)
    modifies m, m.mark
    ensures p.Valid() && m.Valid() && p.Now() == old(p.Now()) && p.nodes.Entries() == old(p.nodes.Entries())
    ensures self >= 0 ==> self < |p.nodes.Entries()| && p.nodes.Entries()[self].txid == x
    ensures self < 0 ==> x !in Txids(p.nodes.Entries())
    ensures Stands(p.nodes.Entries(), m.kids, m.mark[..], R, Cn, foes, mined + {x} * p.Now().graph.Keys)
  {
    hide Pool.Valid, Pool.Now, Table.Valid, Table.Entries, Marker.Valid, Stands, Keyed, Distinct, ViewOf, Held, FoesOf, FoesUpTo, Raised,
      Level2, Marking.Below, SpendersOf, Txids;
    ghost var frame := Parts(p.nodes) + Parts(p.claims) + Parts(p.outs);
    Opened(p);
    ghost var ns := p.nodes.Entries();
    Cn := Cn0;
    self := p.nodes.Find(x);
    NameOf(p.nodes, x, self);
    if self >= 0 {
      ConfirmAt(m, self, ns, R, Cn, foes, mined);
      Cn := Cn + {self};
      assert {x} * p.Now().graph.Keys == {x};
    } else {
      assert mined + {x} * p.Now().graph.Keys == mined;
    }
  }

  /** One transaction of the block: itself confirmed, and everyone else who spends what it spends raised. */
  method MarkOne(p: Pool, m: Marker, b: Mined, ghost R0: set<nat>, ghost Cn0: set<nat>, ghost foes: set<Txid>, ghost mined: set<Txid>)
    returns (ghost R: set<nat>, ghost Cn: set<nat>)
    requires p.Valid() && m.Valid() && {m as object, m.mark} !! Parts(p.nodes) + Parts(p.claims) + Parts(p.outs)
    requires Stands(p.nodes.Entries(), m.kids, m.mark[..], R0, Cn0, foes, mined)
    modifies m, m.mark
    ensures p.Valid() && m.Valid() && p.Now() == old(p.Now()) && p.nodes.Entries() == old(p.nodes.Entries())
    ensures Stands(p.nodes.Entries(), m.kids, m.mark[..], R, Cn, foes + FoesOf(p.Now(), b), mined + {b.txid} * p.Now().graph.Keys)
  {
    hide Pool.Valid, Pool.Now, Table.Valid, Table.Entries, Marker.Valid, Stands, Keyed, Distinct, ViewOf, Held, FoesOf, FoesUpTo, Raised,
      Level2, Marking.Below, SpendersOf, Txids;
    ghost var frame := Parts(p.nodes) + Parts(p.claims) + Parts(p.outs);
    ghost var ns, c := p.nodes.Entries(), p.Now();
    R := R0;
    var self;
    self, Cn := MarkSelf(p, m, b.txid, R, Cn0, foes, mined);
    ghost var done := mined + {b.txid} * c.graph.Keys;
    FoesAll(c, b);
    assert foes + {} == foes;
    var ins := Read(b);
    for i := 0 to |ins|
      invariant p.Valid() && m.Valid() && p.Now() == c && p.nodes.Entries() == ns
      invariant Stands(ns, m.kids, m.mark[..], R, Cn, foes + FoesUpTo(c, b, i), done)
    {
      FoesNext(c, b, i);
      assert foes + FoesUpTo(c, b, i) + (SpendersOf(c, ins[i]) - {b.txid}) == foes + FoesUpTo(c, b, i + 1);
      R := MarkInput(p, m, b.txid, self, ins[i], R, Cn, foes + FoesUpTo(c, b, i), done);
    }
  }

  lemma StandsSize(ns: seq<Node>, kids: seq<seq<nat>>, mark: seq<nat>, R: set<nat>, Cn: set<nat>, foes: set<Txid>, mined: set<Txid>)
    requires Stands(ns, kids, mark, R, Cn, foes, mined)
    ensures |mark| == |kids| == |ns|
  {
  }

  lemma Shape(m: Marker)
    requires m.Valid()
    ensures m.mark.Length == |m.kids|
  {
  }

  lemma SelfIs(ns: seq<Node>, x: Txid, self: int, cl: int)
    requires Distinct(ns) && cl < |ns|
    requires self >= 0 ==> self < |ns| && ns[self].txid == x
    requires self < 0 ==> x !in Txids(ns)
    ensures cl >= 0 ==> (cl == self <==> ns[cl].txid == x)
  {
  }

  lemma StandsNone(ns: seq<Node>, kids: seq<seq<nat>>, mark: seq<nat>)
    requires KidsOk(ns, kids) && |mark| == |ns| && forall i: nat :: i < |mark| ==> mark[i] == 0
    ensures Stands(ns, kids, mark, {}, {}, {}, {})
  {
    hide KidsOk;
    KidsFitted(ns, kids);
    forall a ensures a !in Marking.Below(kids, {}) { assert DownClosed(kids, {}); }
  }

  lemma MirrorOf(ns: seq<Node>, kids: seq<seq<nat>>, pars: seq<seq<int>>)
    requires KidsOk(ns, kids) && |pars| == |ns| && forall i: nat :: i < |ns| ==> pars[i] == ns[i].parents
    ensures Mirror(kids, pars)
  {
    forall p: nat, c: nat | p < |kids| && c < |kids| ensures c in kids[p] <==> p in pars[c] {
      assert HasParent(ns, c, p) <==> p in pars[c];
    }
  }

  /** The marks made are the names of those who leave. */
  lemma MarkedLeave(ns: seq<Node>, kids: seq<seq<nat>>, mark: seq<nat>, bs: seq<bool>, R: set<nat>, Cn: set<nat>,
                    foes: set<Txid>, mined: set<Txid>)
    requires Distinct(ns) && Stands(ns, kids, mark, R, Cn, foes, mined) && |bs| == |ns|
    requires forall i: nat :: i < |ns| ==> bs[i] == (i < |mark| && mark[i] != 0)
    ensures MarkedIds(ns, bs) == mined + Down(ViewOf(ns), foes)
  {
    hide Distinct, ViewOf, Down, KidsOk, KidsFit, Marking.Below, Sums.Below;
    BelowIsDown(ns, kids, R);
    var B := Marking.Below(kids, R);
    forall t | t in MarkedIds(ns, bs) ensures t in mined + NamesOf(ns, B) {
      var i: nat :| i < |ns| && bs[i] && ns[i].txid == t;
      if mark[i] == 1 { assert i in Cn; } else { assert i in Level2(mark); }
    }
    forall t | t in mined ensures t in MarkedIds(ns, bs) { var a :| a in Cn && ns[a].txid == t; assert bs[a]; }
    forall t | t in NamesOf(ns, B) ensures t in MarkedIds(ns, bs) { var a :| a in B && ns[a].txid == t; assert bs[a]; }
  }

  ghost function MinedIn(c: Contents, block: seq<Mined>): set<Txid> {
    Confirmed(block) * c.graph.Keys
  }

  lemma MinedNext(c: Contents, block: seq<Mined>, j: nat)
    requires j < |block|
    ensures MinedIn(c, block[..j + 1]) == MinedIn(c, block[..j]) + {block[j].txid} * c.graph.Keys
    ensures Foes(c, block[..j + 1]) == Foes(c, block[..j]) + FoesOf(c, block[j])
  {
    hide FoesOf;
    assert block[..j + 1] == block[..j] + [block[j]];
    assert block[..j + 1][..j] == block[..j];
    forall t | t in Confirmed(block[..j + 1]) ensures t in Confirmed(block[..j]) + {block[j].txid} { }
    assert block[j] in block[..j + 1];
    assert Confirmed(block[..j + 1]) == Confirmed(block[..j]) + {block[j].txid};
  }

  /** A block read through: exactly those who are to leave are marked. */
  method MarkBlock(p: Pool, block: seq<Mined>) returns (bs: seq<bool>)
    requires p.Valid()
    ensures |bs| == p.nodes.n == |p.nodes.Entries()| && MarkedIds(p.nodes.Entries(), bs) == Leaving(p.Now(), block)
  {
    hide Pool.Valid, Pool.Now, Table.Valid, Table.Entries, Marker.Valid, Stands, Keyed, Distinct, ViewOf, Held, FoesOf, Foes, MinedIn,
      Confirmed, Down, KidsOk, KidsFit, Mirror, MarkedIds;
    ghost var frame := Parts(p.nodes) + Parts(p.claims) + Parts(p.outs);
    Opened(p);
    ghost var c := p.Now();
    var ns := p.nodes.entries[..p.nodes.n];
    var kids := BuildKids(ns);
    KidsFitted(ns, kids);
    var pars := seq(|ns|, i requires 0 <= i < |ns| => ns[i].parents);
    MirrorOf(ns, kids, pars);
    var m := new Marker(kids, pars);
    Shape(m);
    StandsNone(ns, kids, m.mark[..]);
    ghost var R, Cn := {}, {};
    StartBlock(c, block);
    for j := 0 to |block|
      invariant p.Valid() && m.Valid() && p.Now() == c && p.nodes.Entries() == ns && m.kids == kids && fresh(m) && fresh(m.mark)
      invariant Stands(ns, kids, m.mark[..], R, Cn, Foes(c, block[..j]), MinedIn(c, block[..j]))
    {
      MinedNext(c, block, j);
      R, Cn := MarkOne(p, m, block[j], R, Cn, Foes(c, block[..j]), MinedIn(c, block[..j]));
    }
    assert block[..|block|] == block;
    Shape(m);
    bs := seq(|ns|, i requires 0 <= i < |ns| reads m.mark => i < m.mark.Length && m.mark[i] != 0);
    MarkedLeave(ns, kids, m.mark[..], bs, R, Cn, Foes(c, block), MinedIn(c, block));
    LeavingIs(c, block);
  }

  lemma StartBlock(c: Contents, block: seq<Mined>)
    ensures Foes(c, block[..0]) == {} && MinedIn(c, block[..0]) == {}
  {
  }

  lemma LeavingIs(c: Contents, block: seq<Mined>)
    ensures Leaving(c, block) == MinedIn(c, block) + Down(c.graph, Foes(c, block))
  {
  }

  /** Nobody left in d spends what the block spent, or somebody did whom no reading of the block found; and nobody in it has lost a parent of c but to confirmation. */
  ghost predicate Settled(c: Contents, d: Contents, block: seq<Mined>) {
    && (Unspent(d, block) <==> Covered(c, block))
    && (forall u, t :: u in d.graph && u in c.graph && t in c.graph[u].parents && t !in d.graph[u].parents ==> t in Confirmed(block))
  }

  lemma {:induction false} FoesLive(c: Contents, block: seq<Mined>)
    requires forall t :: t in c.spends ==> t.1 in c.graph
    ensures Foes(c, block) <= c.graph.Keys
    decreases |block|
  {
    if block != [] { FoesLive(c, block[..|block| - 1]); }
  }

  lemma ConnectSettles(ns: seq<Node>, cs: seq<Claim>, os: seq<Out>, block: seq<Mined>)
    ensures Settled(Held(ns, cs, os), Without(Held(ns, cs, os), Leaving(Held(ns, cs, os), block)), block)
  {
    hide ViewOf, Foes, Down, Leaving, Confirmed, Covered, Unspent;
    var c := Held(ns, cs, os);
    forall t | t in c.spends ensures t.1 in c.graph { var i := SpendOf(cs, ns, t); }
    FoesLive(c, block);
    var d := Without(c, Leaving(c, block));
    NoneSpendsSpent(c, block);
    forall u, t | u in d.graph && u in c.graph && t in c.graph[u].parents && t !in d.graph[u].parents ensures t in Confirmed(block) {
      LostOnlyConfirmed(c, block, u, t);
    }
  }

  /** A block connected: exactly those leave whom it confirmed, or conflicts with where it was read, or who spend such a conflict. */
  method Connect(p: Pool, block: seq<Mined>)
    requires p.Valid()
    modifies Parts(p.nodes), Parts(p.claims), Parts(p.outs)
    ensures p.Valid() && p.Now() == Without(old(p.Now()), Leaving(old(p.Now()), block))
    ensures Settled(old(p.Now()), p.Now(), block) && CacheStays(old(p.nodes.Entries()), p.nodes.Entries())
  {
    hide Pool.Valid, Pool.Now, Table.Valid, Table.Entries, Leaving, Without, MarkedIds, CacheStays, Settled, Held;
    ghost var frame := Parts(p.nodes) + Parts(p.claims) + Parts(p.outs);
    Opened(p);
    ConnectSettles(p.nodes.Entries(), p.claims.Entries(), p.outs.Entries(), block);
    var bs := MarkBlock(p, block);
    p.RemoveMarked(bs);
  }
}
