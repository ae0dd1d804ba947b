/** The pool's graph as its transactions see it: by txid, without slots or their order. */
module PoolViews {
  import opened Bytes
  import opened ChainTable

  type Txid = seq<byte>

  datatype Cache = Stale | Fresh(cid: nat, chunk: Option<(nat, nat)>, inLast: bool)

  /** A node of the table: its parents are slots, or NONE once they have left. */
  datatype Node = Node(txid: Txid, size: nat, fee: nat, parents: seq<int>, ancCnt: nat, ancBytes: nat, ck: Cache)

  datatype Claim = Claim(prev: Txid, index: nat, claimer: int)

  datatype Out = Out(txid: Txid, index: nat, value: nat)

  /** A transaction by itself: what it weighs and pays, and whom it spends. */
  datatype Entry = Entry(size: nat, fee: nat, parents: set<Txid>)

  type View = map<Txid, Entry>

  ghost predicate Distinct(ns: seq<Node>) {
    forall i: nat, j: nat :: i < j < |ns| ==> ns[i].txid != ns[j].txid
  }

  /** The txids a list of slots names. */
  function Ids(ns: seq<Node>, refs: seq<int>): (r: set<Txid>)
    ensures forall k: nat :: k < |refs| && 0 <= refs[k] < |ns| ==> ns[refs[k]].txid in r
    ensures forall t :: t in r ==> exists k: nat :: k < |refs| && 0 <= refs[k] < |ns| && ns[refs[k]].txid == t
  {
    set k: nat | k < |refs| && 0 <= refs[k] < |ns| :: ns[refs[k]].txid
  }

  function EntryOf(ns: seq<Node>, i: nat): Entry
    requires i < |ns|
  {
    Entry(ns[i].size, ns[i].fee, Ids(ns, ns[i].parents))
  }

  function Txids(ns: seq<Node>): (r: set<Txid>)
    ensures forall i: nat :: i < |ns| ==> ns[i].txid in r
    ensures forall t :: t in r ==> exists i: nat :: i < |ns| && ns[i].txid == t
  {
    set i: nat | i < |ns| :: ns[i].txid
  }

  ghost function SlotOf(ns: seq<Node>, t: Txid): (i: nat)
    requires t in Txids(ns)
    ensures i < |ns| && ns[i].txid == t
  {
    var i: nat :| i < |ns| && ns[i].txid == t;
    i
  }

  ghost function ViewOf(ns: seq<Node>): (v: View)
    ensures v.Keys == Txids(ns)
  {
    map t | t in Txids(ns) :: EntryOf(ns, SlotOf(ns, t))
  }

  lemma ViewAt(ns: seq<Node>, i: nat)
    requires Distinct(ns) && i < |ns|
    ensures ns[i].txid in ViewOf(ns) && ViewOf(ns)[ns[i].txid] == EntryOf(ns, i)
  {
    var j := SlotOf(ns, ns[i].txid);
    assert i == j;
  }

  /** The graph without some of its transactions: nobody spends them any more. */
  function Remove(v: View, gone: set<Txid>): View {
    map t | t in v && t !in gone :: v[t].(parents := v[t].parents - gone)
  }

  /** Removing some and then others is removing them together. */
  lemma RemoveRemove(v: View, a: set<Txid>, b: set<Txid>)
    ensures Remove(Remove(v, a), b) == Remove(v, a + b)
  {
    forall t | t in Remove(v, a + b) ensures Remove(Remove(v, a), b)[t] == Remove(v, a + b)[t] {
      assert v[t].parents - a - b == v[t].parents - (a + b);
    }
  }

  lemma RemoveNone(v: View)
    ensures Remove(v, {}) == v
  {
    forall t | t in v ensures Remove(v, {})[t] == v[t] { assert v[t].parents - {} == v[t].parents; }
  }

  /** A reference p to an old slot became q: the same node's new slot, or none when it has left. */
  ghost predicate RefMoved(p: int, q: int, from: seq<nat>, n: nat) {
    if 0 <= p < n && p in from then 0 <= q < |from| && from[q] == p else q == NONE
  }

  /** The nodes at the old slots from[..], moved, their references with them. */
  ghost predicate Moved(old_: seq<Node>, ns: seq<Node>, from: seq<nat>) {
    && |ns| == |from|
    && (forall j: nat :: j < |from| ==> from[j] < |old_|)
    && (forall i: nat, j: nat :: i < j < |from| ==> from[i] != from[j])
    && (forall j: nat :: j < |from| ==> NodeMoved(old_[from[j]], ns[j], from, |old_|))
  }

  ghost predicate NodeMoved(a: Node, b: Node, from: seq<nat>, n: nat) {
    && a.txid == b.txid && a.size == b.size && a.fee == b.fee && |a.parents| == |b.parents|
    && forall k: nat :: k < |a.parents| ==> RefMoved(a.parents[k], b.parents[k], from, n)
  }

  /** The transactions that did not move with the others. */
  ghost function Gone(old_: seq<Node>, from: seq<nat>): set<Txid> {
    set i: nat | i < |old_| && i !in from :: old_[i].txid
  }

  lemma IdsMoved(old_: seq<Node>, ns: seq<Node>, from: seq<nat>, j: nat)
    requires Distinct(old_) && Moved(old_, ns, from) && j < |ns|
    ensures Ids(ns, ns[j].parents) == Ids(old_, old_[from[j]].parents) - Gone(old_, from)
  {
    var a, b := old_[from[j]], ns[j];
    assert NodeMoved(a, b, from, |old_|);
    var R := Ids(old_, a.parents) - Gone(old_, from);
    forall t | t in Ids(ns, b.parents) ensures t in R {
      var k: nat :| k < |b.parents| && 0 <= b.parents[k] < |ns| && ns[b.parents[k]].txid == t;
      assert RefMoved(a.parents[k], b.parents[k], from, |old_|);
      var p := a.parents[k];
      assert from[b.parents[k]] == p;
      assert NodeMoved(old_[p], ns[b.parents[k]], from, |old_|);
      StaysBehind(old_, from, p);
    }
    forall t | t in R ensures t in Ids(ns, b.parents) {
      var k: nat :| k < |a.parents| && 0 <= a.parents[k] < |old_| && old_[a.parents[k]].txid == t;
      assert RefMoved(a.parents[k], b.parents[k], from, |old_|);
      var p := a.parents[k];
      assert p in from;
      assert NodeMoved(old_[p], ns[b.parents[k]], from, |old_|);
    }
  }

  lemma StaysBehind(old_: seq<Node>, from: seq<nat>, p: nat)
    requires Distinct(old_) && p < |old_| && p in from
    ensures old_[p].txid !in Gone(old_, from)
  {
    forall i: nat | i < |old_| && i !in from ensures old_[i].txid != old_[p].txid {
      assert i != p;
      if i < p { assert old_[i].txid != old_[p].txid; } else { assert old_[p].txid != old_[i].txid; }
    }
  }

  lemma MovedDistinct(old_: seq<Node>, ns: seq<Node>, from: seq<nat>)
    requires Distinct(old_) && Moved(old_, ns, from)
    ensures Distinct(ns)
  {
    forall i: nat, j: nat | i < j < |ns| ensures ns[i].txid != ns[j].txid {
      assert NodeMoved(old_[from[i]], ns[i], from, |old_|) && NodeMoved(old_[from[j]], ns[j], from, |old_|);
      assert from[i] != from[j];
    }
  }

  lemma KeysMoved(old_: seq<Node>, ns: seq<Node>, from: seq<nat>)
    requires Distinct(old_) && Moved(old_, ns, from)
    ensures Txids(ns) == Txids(old_) - Gone(old_, from)
  {
    forall t | t in Txids(ns) ensures t in Txids(old_) - Gone(old_, from) {
      var j := SlotOf(ns, t);
      assert NodeMoved(old_[from[j]], ns[j], from, |old_|);
      StaysBehind(old_, from, from[j]);
    }
    forall t | t in Txids(old_) - Gone(old_, from) ensures t in Txids(ns) {
      var i := SlotOf(old_, t);
      assert i in from;
      var j: nat :| j < |from| && from[j] == i;
      assert NodeMoved(old_[i], ns[j], from, |old_|);
    }
  }

  /** A move is a removal of those that stayed behind, whatever the slots. */
  lemma ViewMoved(old_: seq<Node>, ns: seq<Node>, from: seq<nat>)
    requires Distinct(old_) && Moved(old_, ns, from)
    ensures Distinct(ns) && ViewOf(ns) == Remove(ViewOf(old_), Gone(old_, from))
  {
    hide EntryOf, ViewOf, Gone, Txids, Moved, Distinct;
    MovedDistinct(old_, ns, from);
    KeysMoved(old_, ns, from);
    var v, w := ViewOf(ns), Remove(ViewOf(old_), Gone(old_, from));
    forall t | t in v ensures v[t] == w[t] {
      var j := SlotOf(ns, t);
      EntryMoved(old_, ns, from, j);
      ViewAt(ns, j);
    }
    assert v.Keys == w.Keys;
  }

  ghost predicate MovedAt(old_: seq<Node>, ns: seq<Node>, from: seq<nat>, j: nat)
    requires j < |ns|
  {
    var t, w := ns[j].txid, Remove(ViewOf(old_), Gone(old_, from));
    t in w && w[t] == EntryOf(ns, j)
  }

  lemma EntryMoved(old_: seq<Node>, ns: seq<Node>, from: seq<nat>, j: nat)
    requires Distinct(old_) && Moved(old_, ns, from) && j < |ns|
    ensures MovedAt(old_, ns, from, j)
  {
    hide Ids, Gone;
    assert NodeMoved(old_[from[j]], ns[j], from, |old_|);
    StaysBehind(old_, from, from[j]);
    IdsMoved(old_, ns, from, j);
    ViewAt(old_, from[j]);
  }

  /** Closed under spending: with a transaction, everything it spends. */
  ghost predicate UpClosed(v: View, C: set<Txid>) {
    forall t :: t in C && t in v ==> v[t].parents <= C
  }

  ghost predicate Grounded(v: View) {
    forall t :: t in v ==> v[t].parents <= v.Keys
  }

  /** In every closed set that holds what t spends. */
  ghost predicate Above(v: View, t: Txid, a: Txid)
    requires t in v
  {
    forall C: set<Txid> :: v[t].parents <= C && UpClosed(v, C) ==> a in C
  }

  /** What a transaction spends, and what that spends, and so on. */
  ghost function Ancestors(v: View, t: Txid): set<Txid>
    requires t in v
  {
    set a | a in v && Above(v, t, a)
  }

  lemma AncestorsLeast(v: View, t: Txid, S: set<Txid>)
    requires t in v && v[t].parents <= S <= v.Keys && UpClosed(v, S)
    requires forall C: set<Txid> :: v[t].parents <= C && UpClosed(v, C) ==> S <= C
    ensures S == Ancestors(v, t)
  {
    forall a | a in S ensures a in Ancestors(v, t) { }
  }

  lemma ViewGrounded(ns: seq<Node>)
    ensures Grounded(ViewOf(ns))
  {
  }

  /** When no survivor spends what leaves, no survivor's ancestors change. */
  lemma NoOrphans(v: View, gone: set<Txid>, t: Txid)
    requires Grounded(v) && t in v && t !in gone
    requires forall u :: u in v && u !in gone ==> v[u].parents !! gone
    ensures t in Remove(v, gone) && Ancestors(Remove(v, gone), t) == Ancestors(v, t)
  {
    var w := Remove(v, gone);
    forall u | u in w ensures w[u].parents == v[u].parents { }
    forall a | a in Ancestors(v, t) ensures a in Ancestors(w, t) {
      var K := w.Keys;
      assert UpClosed(v, K);
      assert v[t].parents <= K;
      assert a in K;
      forall C: set<Txid> | w[t].parents <= C && UpClosed(w, C) ensures a in C {
        assert UpClosed(v, C * K);
        assert v[t].parents <= C * K;
      }
    }
    forall a | a in Ancestors(w, t) ensures a in Ancestors(v, t) {
      forall C: set<Txid> | v[t].parents <= C && UpClosed(v, C) ensures a in C {
        assert UpClosed(w, C);
      }
    }
  }

  /** What a set of transactions weighs together. */
  ghost function Weight(v: View, A: set<Txid>): nat
    requires A <= v.Keys
  {
    if A == {} then 0
    else
      var t :| t in A;
      v[t].size + Weight(v, A - {t})
  }

  lemma {:induction false} WeightWith(v: View, A: set<Txid>, t: Txid)
    requires A <= v.Keys && t in v && t !in A
    ensures Weight(v, A + {t}) == Weight(v, A) + v[t].size
    decreases |A|
  {
    var B := A + {t};
    var u :| u in B && Weight(v, B) == v[u].size + Weight(v, B - {u});
    if u == t {
      assert B - {u} == A;
    } else {
      assert B - {u} == (A - {u}) + {t};
      WeightWith(v, A - {u}, t);
      WeightWith(v, A - {u}, u);
      assert (A - {u}) + {u} == A;
    }
  }
}
