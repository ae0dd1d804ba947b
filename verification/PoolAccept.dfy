/** Acceptance: whom a newcomer replaces, the cluster it joins, the trimming that makes room, the entry. */
module PoolAccept {
  import opened ChainTable
  import opened PoolViews
  import opened PoolAncestors
  import opened NodeRemoval
  import opened PoolTables
  import opened PoolState
  import opened ClusterWalk
  import opened PoolWalks
  import opened PoolLaws
  import Sums

  const MAX_PARENTS := 63
  const MAX_EVICT := 6400
  const MAX_INPUTS := 2048

  datatype Answer = Accepted | Malformed | AlreadyIn | TooManyReplacements | SpendsConflicting | MempoolFull | TooLargeCluster | Overran | Unfit

  /** Those in the pool that spend an outpoint the newcomer spends. */
  ghost function Rivals(c: Contents, ins: seq<Outpoint>): set<Txid> {
    set s | s in c.spends && s.0 in ins :: s.1
  }

  lemma AddParent(ns: seq<Node>, par: seq<int>, p: nat)
    requires Distinct(ns) && p < |ns| && p !in par && forall k: nat :: k < |par| ==> 0 <= par[k] < |ns|
    ensures Ids(ns, par + [p]) == Ids(ns, par) + {ns[p].txid} && ns[p].txid !in Ids(ns, par)
  {
    var qs := par + [p];
    forall t | t in Ids(ns, qs) ensures t in Ids(ns, par) + {ns[p].txid} {
      var k: nat :| k < |qs| && 0 <= qs[k] < |ns| && ns[qs[k]].txid == t;
    }
    forall t | t in Ids(ns, par) ensures t in Ids(ns, qs) && t != ns[p].txid {
      var k: nat :| k < |par| && 0 <= par[k] < |ns| && ns[par[k]].txid == t;
      assert qs[k] == par[k];
      assert par[k] in par;
      DifferentIds(ns, par[k], p);
    }
    assert qs[|par|] == p;
  }

  /** The slots of a newcomer's parents, each once: all of them, unless there are too many to record. */
  ghost predicate Collected(ns: seq<Node>, par: seq<int>, P: set<Txid>) {
    && |par| == |P| && Ids(ns, par) == P && NoDoubles(ns, par)
    && forall k: nat :: k < |par| ==> 0 <= par[k] < |ns|
  }

  lemma CollectOne(ns: seq<Node>, ins: seq<Outpoint>, i: nat, par: seq<int>, p: int)
    requires Distinct(ns) && i < |ins| && Collected(ns, par, Parents(ViewOf(ns), ins[..i]))
    requires if p < 0 then ins[i].0 !in Txids(ns) else p < |ns| && ns[p].txid == ins[i].0
    ensures p < 0 || p in par ==> Parents(ViewOf(ns), ins[..i + 1]) == Parents(ViewOf(ns), ins[..i])
    ensures p >= 0 && p !in par ==> Collected(ns, par + [p], Parents(ViewOf(ns), ins[..i + 1]))
    ensures p >= 0 && p !in par ==> |Parents(ViewOf(ns), ins[..i + 1])| == |par| + 1
  {
    hide ViewOf, Distinct, Parents, Ids, NoDoubles;
    ParentsNext(ViewOf(ns), ins, i);
    if p >= 0 && p in par {
      assert ns[p].txid in Ids(ns, par);
    }
    if p >= 0 && p !in par {
      AddParent(ns, par, p);
      NoDoublesWith(ns, par, p);
    }
  }

  lemma NoDoublesWith(ns: seq<Node>, par: seq<int>, p: int)
    requires NoDoubles(ns, par) && p !in par
    ensures NoDoubles(ns, par + [p])
  {
    var qs := par + [p];
    forall j: nat, k: nat | j < k < |qs| && 0 <= qs[j] < |ns| ensures qs[j] != qs[k] {
      assert qs[j] == par[j] && qs[j] in par;
    }
  }

  lemma ParentsNext(v: View, ins: seq<Outpoint>, i: nat)
    requires i < |ins|
    ensures Parents(v, ins[..i + 1]) == if ins[i].0 in v then Parents(v, ins[..i]) + {ins[i].0} else Parents(v, ins[..i])
  {
    assert ins[..i + 1] == ins[..i] + [ins[i]];
  }

  method CollectParents(t: Nodes, ins: seq<Outpoint>) returns (par: seq<int>, cut: bool)
    requires t.Valid() && Keyed(t) && Distinct(t.Entries())
    ensures |par| <= MAX_PARENTS
    ensures !cut ==> Collected(t.Entries(), par, Parents(ViewOf(t.Entries()), ins))
    ensures cut <==> |Parents(ViewOf(t.Entries()), ins)| > MAX_PARENTS
  {
    hide Table.Valid, Table.Entries, Keyed, Distinct, ViewOf, Collected, Parents;
    ghost var ns := t.Entries();
    t.Live();
    par, cut := [], false;
    NoneCollected(ns, ins);
    for i := 0 to |ins|
      invariant |par| <= MAX_PARENTS && Collected(ns, par, Parents(ViewOf(ns), ins[..i]))
    {
      var p := t.Find(ins[i].0);
      NameOf(t, ins[i].0, p);
      CollectOne(ns, ins, i, par, p);
      if p >= 0 && p !in par {
        if |par| >= MAX_PARENTS {
          ParentsGrow(ViewOf(ns), ins, i + 1);
          cut := true;
          return;
        }
        par := par + [p];
      }
    }
    assert ins[..|ins|] == ins;
    CollectedSize(ns, par, Parents(ViewOf(ns), ins));
  }

  lemma CollectedSize(ns: seq<Node>, par: seq<int>, P: set<Txid>)
    requires Collected(ns, par, P)
    ensures |par| == |P|
  {
  }

  lemma NoneCollected(ns: seq<Node>, ins: seq<Outpoint>)
    ensures Collected(ns, [], Parents(ViewOf(ns), ins[..0]))
  {
    assert Parents(ViewOf(ns), ins[..0]) == {};
  }

  lemma ParentsGrow(v: View, ins: seq<Outpoint>, i: nat)
    requires i <= |ins|
    ensures |Parents(v, ins[..i])| <= |Parents(v, ins)|
  {
    Sums.SubsetSize(Parents(v, ins[..i]), Parents(v, ins));
  }

  /** The rivals in the order of the outpoints they claim, each once. */
  ghost function RivalList(c: Contents, ins: seq<Outpoint>): seq<Txid> {
    if ins == [] then []
    else
      var n := |ins| - 1;
      var r := RivalList(c, ins[..n]);
      if SpendersOf(c, ins[n]) == {} then r
      else
        var t :| t in SpendersOf(c, ins[n]);
        if t in r then r else r + [t]
  }

  lemma RivalListNext(ns: seq<Node>, cs: seq<Claim>, os: seq<Out>, ins: seq<Outpoint>, i: nat, conf: seq<nat>, s: int, key: Claim -> Outpoint)
    requires InOrder(ns, cs, os) && Unique(cs, key) && (forall c: Claim :: key(c) == (c.prev, c.index)) && i < |ins| && All(conf, |ns|)
    requires Names(ns, conf) == RivalList(Held(ns, cs, os), ins[..i])
    requires s >= 0 ==> s < |cs| && (cs[s].prev, cs[s].index) == ins[i]
    requires s < 0 ==> forall c :: c in cs ==> (c.prev, c.index) != ins[i]
    ensures s < 0 ==> RivalList(Held(ns, cs, os), ins[..i + 1]) == Names(ns, conf)
    ensures s >= 0 ==> 0 <= cs[s].claimer < |ns| && All(conf + [cs[s].claimer], |ns|)
    ensures s >= 0 ==> RivalList(Held(ns, cs, os), ins[..i + 1]) == Names(ns, if cs[s].claimer in conf then conf else conf + [cs[s].claimer])
  {
    hide RefsOk, AncExact, Unique, Spends, Held, SpendersOf;
    var c := Held(ns, cs, os);
    assert ins[..i + 1][..i] == ins[..i] && ins[..i + 1][i] == ins[i];
    if s < 0 {
      NotSpent(ns, cs, ins[i]);
      assert SpendersOf(Held(ns, cs, os), ins[i]) == {};
    } else {
      OneSpender(ns, cs, s, ins[i], key);
      var k := cs[s].claimer;
      assert SpendersOf(Held(ns, cs, os), ins[i]) == {ns[k].txid};
      NamedOnce(ns, conf, k);
    }
  }

  lemma NamedOnce(ns: seq<Node>, conf: seq<nat>, k: nat)
    requires Distinct(ns) && All(conf, |ns|) && k < |ns|
    ensures ns[k].txid in Names(ns, conf) <==> k in conf
    ensures Names(ns, conf + [k]) == Names(ns, conf) + [ns[k].txid]
  {
    if ns[k].txid in Names(ns, conf) {
      var j: nat :| j < |conf| && Names(ns, conf)[j] == ns[k].txid;
      assert conf[j] in conf;
    }
    if k in conf {
      var j: nat :| j < |conf| && conf[j] == k;
      assert Names(ns, conf)[j] == ns[k].txid;
    }
  }

  /** The slots of those who claim an outpoint of the newcomer's, each once. */
  method Conflicts(p: Pool, ins: seq<Outpoint>) returns (conf: seq<nat>)
    requires p.Valid()
    ensures All(conf, |p.nodes.Entries()|) && IdSet(Names(p.nodes.Entries(), conf)) == Rivals(p.Now(), ins)
    ensures Names(p.nodes.Entries(), conf) == RivalList(p.Now(), ins)
  {
    hide Table.Valid, Table.Entries, InOrder, Unique, Keyed, ClaimKeyed, OutKeyed, Rivals, Held, RivalList, Names, IdSet;
    ghost var ns, cs, os := p.nodes.Entries(), p.claims.Entries(), p.outs.Entries();
    p.claims.Live();
    conf := [];
    NoRivals(ns, cs, os, ins);
    for i := 0 to |ins|
      invariant All(conf, |ns|) && IdSet(Names(ns, conf)) == Rivals(Held(ns, cs, os), ins[..i])
      invariant Names(ns, conf) == RivalList(Held(ns, cs, os), ins[..i])
    {
      var s := p.claims.Find(ins[i]);
      ClaimPlace(p.claims, ins[i], s);
      RivalOne(ns, cs, os, ins, i, conf, s, p.claims.key);
      RivalListNext(ns, cs, os, ins, i, conf, s, p.claims.key);
      if s >= 0 {
        var c := p.claims.entries[s].claimer;
        if c !in conf { conf := conf + [c]; }
      }
    }
    assert ins[..|ins|] == ins;
  }

  lemma NoRivals(ns: seq<Node>, cs: seq<Claim>, os: seq<Out>, ins: seq<Outpoint>)
    ensures IdSet(Names(ns, [])) == Rivals(Held(ns, cs, os), ins[..0]) && Names(ns, []) == RivalList(Held(ns, cs, os), ins[..0])
  {
  }

  lemma ClaimPlace(t: Claims, op: Outpoint, s: int)
    requires t.Valid() && ClaimKeyed(t)
    requires s == -1 || (0 <= s < t.n && t.key(t.entries[s]) == op)
    requires s == -1 <==> forall i: nat :: i < t.n ==> t.key(t.entries[i]) != op
    ensures forall c: Claim :: t.key(c) == (c.prev, c.index)
    ensures s >= 0 ==> s < |t.Entries()| && t.Entries()[s] == t.entries[s] && (t.Entries()[s].prev, t.Entries()[s].index) == op
    ensures s < 0 ==> forall c :: c in t.Entries() ==> (c.prev, c.index) != op
  {
    hide Threaded;
    if s < 0 {
      forall c | c in t.Entries() ensures (c.prev, c.index) != op {
        var i: nat :| i < t.n && t.Entries()[i] == c;
        assert t.key(t.entries[i]) != op;
      }
    }
  }

  lemma NamesWith(ns: seq<Node>, conf: seq<nat>, c: nat)
    requires All(conf, |ns|) && c < |ns|
    ensures All(conf + [c], |ns|) && IdSet(Names(ns, conf + [c])) == IdSet(Names(ns, conf)) + {ns[c].txid}
  {
    assert Names(ns, conf + [c]) == Names(ns, conf) + [ns[c].txid];
  }

  /** One more outpoint: its claimer, if there is one, is one more rival. */
  lemma RivalOne(ns: seq<Node>, cs: seq<Claim>, os: seq<Out>, ins: seq<Outpoint>, i: nat, conf: seq<nat>, s: int, key: Claim -> Outpoint)
    requires InOrder(ns, cs, os) && Unique(cs, key) && (forall c: Claim :: key(c) == (c.prev, c.index)) && i < |ins| && All(conf, |ns|)
    requires IdSet(Names(ns, conf)) == Rivals(Held(ns, cs, os), ins[..i])
    requires s >= 0 ==> s < |cs| && (cs[s].prev, cs[s].index) == ins[i]
    requires s < 0 ==> forall c :: c in cs ==> (c.prev, c.index) != ins[i]
    ensures s < 0 ==> Rivals(Held(ns, cs, os), ins[..i + 1]) == Rivals(Held(ns, cs, os), ins[..i])
    ensures s >= 0 ==> 0 <= cs[s].claimer < |ns| && All(conf + [cs[s].claimer], |ns|)
    ensures s >= 0 ==> IdSet(Names(ns, conf + [cs[s].claimer])) == Rivals(Held(ns, cs, os), ins[..i + 1])
    ensures s >= 0 && cs[s].claimer in conf ==> IdSet(Names(ns, conf)) == Rivals(Held(ns, cs, os), ins[..i + 1])
  {
    hide Distinct, RefsOk, AncExact, Unique, Rivals, Spends;
    RivalsNext(Held(ns, cs, os), ins, i);
    if s < 0 {
      NotSpent(ns, cs, ins[i]);
    } else {
      OneSpender(ns, cs, s, ins[i], key);
      NamesWith(ns, conf, cs[s].claimer);
      if cs[s].claimer in conf {
        var k: nat :| k < |conf| && conf[k] == cs[s].claimer;
        assert Names(ns, conf)[k] == ns[cs[s].claimer].txid;
        assert IdSet(Names(ns, conf)) + {ns[cs[s].claimer].txid} == IdSet(Names(ns, conf));
      }
    }
  }

  /** Who spends one outpoint. */
  ghost function SpendersOf(c: Contents, op: Outpoint): set<Txid> {
    set s | s in c.spends && s.0 == op :: s.1
  }

  lemma RivalsNext(c: Contents, ins: seq<Outpoint>, i: nat)
    requires i < |ins|
    ensures Rivals(c, ins[..i + 1]) == Rivals(c, ins[..i]) + SpendersOf(c, ins[i])
  {
    assert ins[..i + 1] == ins[..i] + [ins[i]];
  }

  lemma NotSpent(ns: seq<Node>, cs: seq<Claim>, op: Outpoint)
    requires forall c :: c in cs ==> (c.prev, c.index) != op
    ensures forall os :: SpendersOf(Held(ns, cs, os), op) == {}
  {
    forall os ensures SpendersOf(Held(ns, cs, os), op) == {} {
      forall s | s in Spends(cs, ns) ensures s.0 != op {
        var i := SpendOf(cs, ns, s);
        assert cs[i] in cs;
      }
    }
  }

  lemma OneSpender(ns: seq<Node>, cs: seq<Claim>, s: nat, op: Outpoint, key: Claim -> Outpoint)
    requires ClaimsLive(cs, |ns|) && Unique(cs, key) && (forall c: Claim :: key(c) == (c.prev, c.index))
    requires s < |cs| && (cs[s].prev, cs[s].index) == op
    ensures 0 <= cs[s].claimer < |ns| && forall os :: SpendersOf(Held(ns, cs, os), op) == {ns[cs[s].claimer].txid}
  {
    var t := ns[cs[s].claimer].txid;
    IsSpend(cs, ns, s);
    forall x | x in Spends(cs, ns) && x.0 == op ensures x.1 == t {
      var i := SpendOf(cs, ns, x);
      SamePlace(cs, key, i, s);
    }
    forall os ensures SpendersOf(Held(ns, cs, os), op) == {t} {
      assert (op, t) in Held(ns, cs, os).spends;
    }
  }

  lemma IdSetWith(s: seq<Txid>, t: Txid)
    ensures IdSet(s + [t]) == IdSet(s) + {t}
  {
  }

  /** How many entries of a list repeat earlier ones. */
  ghost function Surplus(s: seq<Txid>): int {
    |s| - |IdSet(s)|
  }

  lemma SurplusWith(s: seq<Txid>, t: Txid)
    ensures Surplus([]) == 0 && Surplus(s + [t]) == Surplus(s) + if t in s then 1 else 0
    ensures t in s <==> t in IdSet(s)
  {
    IdSetWith(s, t);
    if t in s { assert IdSet(s) + {t} == IdSet(s); }
  }

  /** The fees a set of transactions pays. */
  ghost function FeeSum(v: View, A: set<Txid>): nat {
    Weight(Priced(v), A * v.Keys)
  }

  /** The graph with each transaction's fee for its size. */
  ghost function Priced(v: View): (w: View)
    ensures w.Keys == v.Keys
  {
    map t | t in v :: v[t].(size := v[t].fee)
  }

  lemma FeeWith(v: View, A: set<Txid>, t: Txid)
    requires t in v && t !in A
    ensures FeeSum(v, A + {t}) == FeeSum(v, A) + v[t].fee
  {
    WeightWith(Priced(v), A * v.Keys, t);
    assert (A + {t}) * v.Keys == A * v.Keys + {t};
  }

  /** A list with what it lacks of another, and what that pays. */
  method Merge(ns: seq<Node>, evict: seq<Txid>, slots: seq<nat>, fees0: nat) returns (ok: bool, r: seq<Txid>, fees: nat)
    requires Distinct(ns) && |evict| <= MAX_EVICT && All(slots, |ns|)
    ensures ok ==> IdSet(r) == IdSet(evict) + IdSet(Names(ns, slots)) && |r| <= MAX_EVICT && Surplus(r) == Surplus(evict)
    ensures ok ==> fees - FeeSum(ViewOf(ns), IdSet(r)) == fees0 - FeeSum(ViewOf(ns), IdSet(evict))
    ensures !ok ==> |IdSet(evict) + IdSet(Names(ns, slots))| + Surplus(evict) > MAX_EVICT
  {
    hide IdSet, Surplus, FeeSum, ViewOf, Distinct, Names;
    ok, r, fees := true, evict, fees0;
    var ids := Names(ns, slots);
    NoIds();
    for d := 0 to |ids|
      invariant IdSet(r) == IdSet(evict) + IdSet(ids[..d]) && |r| <= MAX_EVICT && Surplus(r) == Surplus(evict)
      invariant fees - FeeSum(ViewOf(ns), IdSet(r)) == fees0 - FeeSum(ViewOf(ns), IdSet(evict))
    {
      assert ids[..d + 1] == ids[..d] + [ids[d]];
      IdSetWith(ids[..d], ids[d]);
      SurplusWith(r, ids[d]);
      if ids[d] !in r {
        if |r| >= MAX_EVICT {
          IdSetPrefix(ids, d + 1);
          FullList(r, ids[d], IdSet(evict) + IdSet(ids));
          return false, r, fees;
        }
        IdSetWith(r, ids[d]);
        ViewAt(ns, slots[d]);
        FeeWith(ViewOf(ns), IdSet(r), ids[d]);
        r, fees := r + [ids[d]], fees + ns[slots[d]].fee;
      }
    }
    assert ids[..|ids|] == ids;
  }

  /** A full list and one more name need more places than there are. */
  lemma FullList(s: seq<Txid>, t: Txid, D: set<Txid>)
    requires |s| >= MAX_EVICT && IdSet(s) <= D && t in D && t !in IdSet(s)
    ensures |D| + Surplus(s) > MAX_EVICT
  {
    hide IdSet;
    Sums.SubsetSize(IdSet(s), D);
  }

  lemma IdSetPrefix(s: seq<Txid>, k: nat)
    requires k <= |s|
    ensures IdSet(s[..k]) <= IdSet(s)
  {
  }

  lemma NoIds()
    ensures IdSet([]) == {}
  {
  }

  ghost function PaidAgain(ns: seq<Node>, c: nat, evict: seq<Txid>): nat
    requires c < |ns|
  {
    if ns[c].txid in IdSet(evict) then ns[c].fee else 0
  }

  /** One rival and all that spends it, onto the list; the rival itself is put there and paid for even if it is on it. */
  method EvictWith(ns: seq<Node>, kids: seq<seq<nat>>, c: nat, evict: seq<Txid>, fees0: nat) returns (ok: bool, r: seq<Txid>, fees: nat)
    requires Distinct(ns) && KidsOk(ns, kids) && c < |ns| && |evict| <= MAX_EVICT
    ensures ok ==> |Down(ViewOf(ns), {ns[c].txid})| <= PACKAGE_MAX && |r| <= MAX_EVICT
    ensures ok ==> IdSet(r) == IdSet(evict) + Down(ViewOf(ns), {ns[c].txid})
    ensures ok ==> Surplus(r) == Surplus(evict) + if ns[c].txid in IdSet(evict) then 1 else 0
    ensures ok ==> fees + FeeSum(ViewOf(ns), IdSet(evict)) == fees0 + FeeSum(ViewOf(ns), IdSet(r)) + PaidAgain(ns, c, evict)
    ensures !ok ==> |Down(ViewOf(ns), {ns[c].txid})| > PACKAGE_MAX || Overfull(ns, c, evict)
  {
    hide Distinct, KidsOk, ViewOf, Down, IdSet, Surplus, FeeSum, Names, Overfull;
    ghost var v, t := ViewOf(ns), ns[c].txid;
    ViewAt(ns, c);
    if |evict| >= MAX_EVICT { FullAlready(ns, c, evict); return false, evict, fees0; }
    var full, ids, slots := Descendants(ns, kids, c);
    if full { return false, evict, fees0; }
    IdSetWith(evict, ids[0]);
    SurplusWith(evict, ids[0]);
    AllIds(ids);
    if t in IdSet(evict) { assert IdSet(evict) + {t} == IdSet(evict); } else { FeeWith(v, IdSet(evict), t); }
    ok, r, fees := Merge(ns, evict + [ids[0]], slots, fees0 + ns[c].fee);
    RivalIn(v, t);
    assert IdSet(evict) + {t} + Down(v, {t}) == IdSet(evict) + Down(v, {t});
    if !ok { OverfullIs(ns, c, evict); }
  }

  /** More places are needed for these and one rival's than there are. */
  ghost predicate Overfull(ns: seq<Node>, c: nat, evict: seq<Txid>)
    requires c < |ns|
  {
    |IdSet(evict) + Down(ViewOf(ns), {ns[c].txid})| + Surplus(evict) + (if ns[c].txid in IdSet(evict) then 1 else 0) > MAX_EVICT
  }

  lemma OverfullIs(ns: seq<Node>, c: nat, evict: seq<Txid>)
    requires c < |ns|
    requires |IdSet(evict) + Down(ViewOf(ns), {ns[c].txid})| + Surplus(evict) + (if ns[c].txid in IdSet(evict) then 1 else 0) > MAX_EVICT
    ensures Overfull(ns, c, evict)
  {
  }

  lemma RivalIn(v: View, t: Txid)
    requires t in v
    ensures t in Down(v, {t})
  {
    DownCloses(v, {t});
  }

  lemma FullAlready(ns: seq<Node>, c: nat, evict: seq<Txid>)
    requires c < |ns| && |evict| >= MAX_EVICT && ns[c].txid in ViewOf(ns)
    ensures Overfull(ns, c, evict)
  {
    hide IdSet, ViewOf, Down;
    var t, D := ns[c].txid, IdSet(evict) + Down(ViewOf(ns), {ns[c].txid});
    RivalIn(ViewOf(ns), t);
    Sums.SubsetSize(IdSet(evict), D);
    if t !in IdSet(evict) { FullList(evict, t, D); }
  }

  /** Everything the rivals take along. */
  ghost function Taken(ns: seq<Node>, conf: seq<nat>): set<Txid>
    requires All(conf, |ns|)
  {
    Down(ViewOf(ns), IdSet(Names(ns, conf)))
  }

  /** How many rivals an earlier one already takes along. */
  ghost function Repeats(ns: seq<Node>, conf: seq<nat>): nat
    requires All(conf, |ns|)
  {
    if conf == [] then 0
    else
      var n := |conf| - 1;
      Repeats(ns, conf[..n]) + if ns[conf[n]].txid in Taken(ns, conf[..n]) then 1 else 0
  }

  /** And what those pay. */
  ghost function PaidTwice(ns: seq<Node>, conf: seq<nat>): nat
    requires All(conf, |ns|)
  {
    if conf == [] then 0
    else
      var n := |conf| - 1;
      PaidTwice(ns, conf[..n]) + if ns[conf[n]].txid in Taken(ns, conf[..n]) then ns[conf[n]].fee else 0
  }

  /** The places the whole list needs. */
  ghost function Places(ns: seq<Node>, conf: seq<nat>): nat
    requires All(conf, |ns|)
  {
    |Taken(ns, conf)| + Repeats(ns, conf)
  }

  lemma TakenNext(ns: seq<Node>, conf: seq<nat>, k: nat)
    requires All(conf, |ns|) && k < |conf|
    ensures All(conf[..k], |ns|) && All(conf[..k + 1], |ns|)
    ensures Taken(ns, conf[..k + 1]) == Taken(ns, conf[..k]) + Down(ViewOf(ns), {ns[conf[k]].txid})
    ensures Repeats(ns, conf[..k + 1]) == Repeats(ns, conf[..k]) + if ns[conf[k]].txid in Taken(ns, conf[..k]) then 1 else 0
    ensures PaidTwice(ns, conf[..k + 1]) == PaidTwice(ns, conf[..k]) + if ns[conf[k]].txid in Taken(ns, conf[..k]) then ns[conf[k]].fee else 0
  {
    hide ViewOf, Down, IdSet, Names;
    assert conf[..k + 1] == conf[..k] + [conf[k]];
    assert conf[..k + 1][..k] == conf[..k];
    EvictNext(ns, conf[..k], conf[k]);
  }

  lemma {:induction false} PlacesGrow(ns: seq<Node>, conf: seq<nat>, k: nat)
    requires All(conf, |ns|) && k <= |conf|
    ensures All(conf[..k], |ns|) && Places(ns, conf[..k]) <= Places(ns, conf)
    decreases |conf| - k
  {
    hide Taken, Repeats, Down, ViewOf, PaidTwice;
    if k == |conf| {
      assert conf[..k] == conf;
    } else {
      PlacesGrow(ns, conf, k + 1);
      TakenNext(ns, conf, k);
      Sums.SubsetSize(Taken(ns, conf[..k]), Taken(ns, conf[..k + 1]));
    }
  }

  /** Everything that leaves: the rivals and all that spends them, and what they are held to pay. It is given up exactly when a
      rival has over 128 to take along, or when the list would need over 6400 places, a rival that another takes along having two. */
  method EvictSet(ns: seq<Node>, kids: seq<seq<nat>>, conf: seq<nat>) returns (ok: bool, evict: seq<Txid>, fees: nat)
    requires Distinct(ns) && KidsOk(ns, kids) && All(conf, |ns|)
    ensures ok <==> Places(ns, conf) <= MAX_EVICT && forall k: nat :: k < |conf| ==> |Down(ViewOf(ns), {ns[conf[k]].txid})| <= PACKAGE_MAX
    ensures ok ==> IdSet(evict) == Taken(ns, conf) && |evict| == Places(ns, conf)
    ensures ok ==> fees == FeeSum(ViewOf(ns), Taken(ns, conf)) + PaidTwice(ns, conf)
  {
    hide Distinct, KidsOk, ViewOf, Down, IdSet, Names, Taken, Repeats, PaidTwice, FeeSum, Overfull;
    ok, evict, fees := true, [], 0;
    NoneEvicted(ns);
    assert conf[..0] == [];
    for k := 0 to |conf|
      invariant All(conf[..k], |ns|) && IdSet(evict) == Taken(ns, conf[..k]) && |evict| <= MAX_EVICT
      invariant Surplus(evict) == Repeats(ns, conf[..k])
      invariant fees == FeeSum(ViewOf(ns), IdSet(evict)) + PaidTwice(ns, conf[..k])
      invariant forall j: nat :: j < k ==> |Down(ViewOf(ns), {ns[conf[j]].txid})| <= PACKAGE_MAX
    {
      TakenNext(ns, conf, k);
      ghost var before := evict;
      ok, evict, fees := EvictWith(ns, kids, conf[k], evict, fees);
      if !ok {
        Unplaced(ns, conf, k, before);
        return;
      }
    }
    assert conf[..|conf|] == conf;
  }

  lemma Unplaced(ns: seq<Node>, conf: seq<nat>, k: nat, evict: seq<Txid>)
    requires All(conf, |ns|) && k < |conf| && All(conf[..k], |ns|) && IdSet(evict) == Taken(ns, conf[..k]) && Surplus(evict) == Repeats(ns, conf[..k])
    ensures Overfull(ns, conf[k], evict) ==> Places(ns, conf) > MAX_EVICT
  {
    hide Taken, Repeats, Down, ViewOf, PaidTwice, IdSet, Surplus;
    TakenNext(ns, conf, k);
    PlacesGrow(ns, conf, k + 1);
  }

  /** How many of a list of rivals an earlier one already takes along. */
  ghost function RepeatsIn(v: View, ids: seq<Txid>): nat {
    if ids == [] then 0
    else
      var n := |ids| - 1;
      RepeatsIn(v, ids[..n]) + if ids[n] in Down(v, IdSet(ids[..n])) then 1 else 0
  }

  /** The places a list of all that leaves takes. */
  ghost function PlacesFor(v: View, ids: seq<Txid>): nat {
    |Down(v, IdSet(ids))| + RepeatsIn(v, ids)
  }

  /** Too much would leave: over 6400 places, or over 128 with one rival. */
  ghost predicate TooManyLeave(v: View, ids: seq<Txid>) {
    PlacesFor(v, ids) > 6400 || exists k: nat :: k < |ids| && |Down(v, {ids[k]})| > 128
  }

  lemma {:induction false} RepeatsAre(ns: seq<Node>, conf: seq<nat>)
    requires All(conf, |ns|)
    ensures Repeats(ns, conf) == RepeatsIn(ViewOf(ns), Names(ns, conf)) && Places(ns, conf) == PlacesFor(ViewOf(ns), Names(ns, conf))
  {
    hide ViewOf, Down, IdSet;
    if conf == [] {
      assert Names(ns, conf) == [];
    } else {
      var n := |conf| - 1;
      RepeatsAre(ns, conf[..n]);
      assert Names(ns, conf)[..n] == Names(ns, conf[..n]);
    }
  }

  lemma TooManyIs(ns: seq<Node>, conf: seq<nat>)
    requires All(conf, |ns|)
    ensures TooManyLeave(ViewOf(ns), Names(ns, conf)) <==>
      !(Places(ns, conf) <= MAX_EVICT && forall k: nat :: k < |conf| ==> |Down(ViewOf(ns), {ns[conf[k]].txid})| <= PACKAGE_MAX)
  {
    hide ViewOf, Down, IdSet, Places, PlacesFor;
    RepeatsAre(ns, conf);
    forall k: nat | k < |conf| ensures Names(ns, conf)[k] == ns[conf[k]].txid { }
  }

  /** What is held to be paid is what those that leave pay exactly when no rival with a fee spends, directly or not, one listed before it. */
  lemma PaidOnceExactly(ns: seq<Node>, conf: seq<nat>)
    requires All(conf, |ns|)
    ensures FeeSum(ViewOf(ns), Taken(ns, conf)) + PaidTwice(ns, conf) == FeeSum(ViewOf(ns), Taken(ns, conf)) <==>
      forall j: nat, k: nat :: j < k < |conf| && ns[conf[k]].txid in Down(ViewOf(ns), {ns[conf[j]].txid}) ==> ns[conf[k]].fee == 0
  {
    hide Taken, PaidTwice, Down, ViewOf, FeeSum;
    PaidNothing(ns, conf);
    if PaidTwice(ns, conf) == 0 {
      forall j: nat, k: nat | j < k < |conf| && ns[conf[k]].txid in Down(ViewOf(ns), {ns[conf[j]].txid}) ensures ns[conf[k]].fee == 0 {
        TakenIs(ns, conf[..k], ns[conf[k]].txid);
        assert conf[..k][j] == conf[j];
      }
    } else {
      var k: nat :| k < |conf| && ns[conf[k]].txid in Taken(ns, conf[..k]) && ns[conf[k]].fee > 0;
      TakenIs(ns, conf[..k], ns[conf[k]].txid);
      var j: nat :| j < k && ns[conf[k]].txid in Down(ViewOf(ns), {ns[conf[..k][j]].txid});
      assert conf[..k][j] == conf[j];
    }
  }

  lemma {:induction false} PaidNothing(ns: seq<Node>, conf: seq<nat>)
    requires All(conf, |ns|)
    ensures forall k: nat :: k <= |conf| ==> All(conf[..k], |ns|)
    ensures PaidTwice(ns, conf) == 0 <==> forall k: nat :: k < |conf| && ns[conf[k]].txid in Taken(ns, conf[..k]) ==> ns[conf[k]].fee == 0
  {
    hide Taken;
    if conf != [] {
      var n := |conf| - 1;
      PaidNothing(ns, conf[..n]);
      forall k: nat | k <= n ensures conf[..n][..k] == conf[..k] { }
    }
  }

  lemma {:induction false} TakenIs(ns: seq<Node>, conf: seq<nat>, t: Txid)
    requires All(conf, |ns|)
    ensures t in Taken(ns, conf) <==> exists j: nat :: j < |conf| && t in Down(ViewOf(ns), {ns[conf[j]].txid})
  {
    hide ViewOf, Down, IdSet, Names, Taken, Repeats, PaidTwice;
    if conf == [] {
      NoneTaken(ns);
    } else {
      var n := |conf| - 1;
      TakenNext(ns, conf, n);
      assert conf[..n + 1] == conf;
      TakenIs(ns, conf[..n], t);
      forall j: nat | j < n ensures conf[..n][j] == conf[j] { }
    }
  }

  lemma NoneTaken(ns: seq<Node>)
    ensures Taken(ns, []) == {}
  {
    DownNone(ViewOf(ns));
    assert Names(ns, []) == [];
  }

  /** A rival and its child, both rivals, the child's fee held twice when it is listed last. */
  lemma ChildPaidTwice(a: Txid, b: Txid)
    requires a != b
    ensures var ns := [Node(a, 1, 1, [], 0, 0, Stale), Node(b, 1, 1, [0], 0, 0, Stale)];
      PaidTwice(ns, [0, 1]) == 1 && PaidTwice(ns, [1, 0]) == 0
  {
    var ns := [Node(a, 1, 1, [], 0, 0, Stale), Node(b, 1, 1, [0], 0, 0, Stale)];
    hide PaidTwice, ViewOf, Down;
    ChildBelow(ns, a, b);
    PaidNext(ns, 0, 1);
    PaidNext(ns, 1, 0);
  }

  lemma ChildBelow(ns: seq<Node>, a: Txid, b: Txid)
    requires a != b && ns == [Node(a, 1, 1, [], 0, 0, Stale), Node(b, 1, 1, [0], 0, 0, Stale)]
    ensures b in Down(ViewOf(ns), {a}) && a !in Down(ViewOf(ns), {b})
  {
    hide ViewOf;
    var v := ViewOf(ns);
    ViewAt(ns, 0); ViewAt(ns, 1);
    assert Ids(ns, [0]) == {a} && Ids(ns, []) == {};
    assert v[a].parents == {} && v[b].parents == {a} && v.Keys == {a, b};
    assert KidClosed(v, {b});
    DownCloses(v, {a});
    assert Spender(v, a, b);
  }

  lemma PaidNext(ns: seq<Node>, c: nat, d: nat)
    requires c < |ns| && d < |ns|
    ensures PaidTwice(ns, [c, d]) == if ns[d].txid in Down(ViewOf(ns), {ns[c].txid}) then ns[d].fee else 0
  {
    hide Down, ViewOf, IdSet, Names;
    NoneTaken(ns);
    TakenIs(ns, [c], ns[d].txid);
    assert [c, d][..1] == [c] && [c][..0] == [];
    assert PaidTwice(ns, []) == 0 && PaidTwice(ns, [c]) == 0;
    assert [c][0] == c;
  }

  lemma AllIds(ids: seq<Txid>)
    ensures IdSet(ids) == set t | t in ids
  {
  }

  lemma NoneEvicted(ns: seq<Node>)
    ensures IdSet([]) == Taken(ns, []) == {} && Surplus([]) == 0 && FeeSum(ViewOf(ns), {}) == 0 && Repeats(ns, []) == PaidTwice(ns, []) == 0
  {
    NoneTaken(ns);
    assert {} * ViewOf(ns).Keys == {};
  }

  lemma EvictNext(ns: seq<Node>, conf: seq<nat>, c: nat)
    requires All(conf, |ns|) && c < |ns|
    ensures All(conf + [c], |ns|)
    ensures Down(ViewOf(ns), IdSet(Names(ns, conf + [c]))) == Down(ViewOf(ns), IdSet(Names(ns, conf))) + Down(ViewOf(ns), {ns[c].txid})
  {
    hide ViewOf, Down, IdSet, Names;
    NamesWith(ns, conf, c);
    NamesLive(ns, conf);
    DownUnion(ViewOf(ns), IdSet(Names(ns, conf)), {ns[c].txid});
  }

  lemma NamesLive(ns: seq<Node>, conf: seq<nat>)
    requires All(conf, |ns|)
    ensures IdSet(Names(ns, conf)) <= Txids(ns) == ViewOf(ns).Keys
  {
  }

  lemma DownNone(v: View)
    ensures Down(v, {}) == {}
  {
    assert KidClosed(v, {});
  }
}
