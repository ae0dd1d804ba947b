/** The children index a process keeps between calls: edge lists tied to a generation counter that every process shares. */
module ChildIndex {
  import opened PoolViews
  import opened PoolAncestors
  import opened NodeRemoval
  import opened ChunkCache
  import opened ChainTable

  /** An index as it stands: the table it covers, the first edge of each node, where each edge goes on, and whom it leads to. */
  datatype Index = Index(built: bool, gen: nat, head: seq<int>, nxt: seq<int>, chld: seq<nat>)

  /** Edges go on to earlier edges only. */
  ghost predicate Backward(head: seq<int>, nxt: seq<int>, chld: seq<nat>) {
    && |nxt| == |chld|
    && (forall e: nat :: e < |nxt| ==> NONE <= nxt[e] < e)
    && (forall i: nat :: i < |head| ==> NONE <= head[i] < |nxt|)
  }

  /** The children from an edge on. */
  function From(nxt: seq<int>, chld: seq<nat>, e: int): seq<nat>
    requires |nxt| == |chld| && e < |nxt| && forall k: nat :: k < |nxt| ==> nxt[k] < k
    decreases e
  {
    if e < 0 then [] else [chld[e]] + From(nxt, chld, nxt[e])
  }

  /** How often a list names a. */
  function Times(refs: seq<int>, a: int): nat {
    if refs == [] then 0 else Times(refs[..|refs| - 1], a) + if refs[|refs| - 1] == a then 1 else 0
  }

  function Copies(x: nat, k: nat): seq<nat> {
    if k == 0 then [] else [x] + Copies(x, k - 1)
  }

  /** The children of a slot among the first n, the highest first, once for each time they name it. */
  function Kids(ns: seq<Node>, a: nat, n: nat): seq<nat>
    requires n <= |ns|
  {
    if n == 0 then [] else Copies(n - 1, Times(ns[n - 1].parents, a)) + Kids(ns, a, n - 1)
  }

  /** The lists are what a rebuild over the table gives. */
  ghost predicate Mirrors(ix: Index, ns: seq<Node>) {
    && |ix.head| == |ns| && Backward(ix.head, ix.nxt, ix.chld)
    && forall a: nat :: a < |ns| ==> From(ix.nxt, ix.chld, ix.head[a]) == Kids(ns, a, |ns|)
  }

  /** An index that claims to be current is; one from another generation claims nothing. */
  ghost predicate Honest(ix: Index, ns: seq<Node>, gen: nat) {
    ix.gen <= gen && (ix.built && ix.gen == gen ==> Mirrors(ix, ns))
  }

  /** More edges do not change the lists there were. */
  lemma {:induction false} FromMore(nxt: seq<int>, chld: seq<nat>, y: int, c: nat, e: int)
    requires |nxt| == |chld| && e < |nxt| && (forall k: nat :: k < |nxt| ==> nxt[k] < k) && y < |nxt|
    ensures From(nxt + [y], chld + [c], e) == From(nxt, chld, e)
    decreases e
  {
    if e >= 0 { FromMore(nxt, chld, y, c, nxt[e]); }
  }

  /** A rebuild over the table so far: the first i nodes whole, and k parents of the next. */
  ghost predicate Building(head: seq<int>, nxt: seq<int>, chld: seq<nat>, ns: seq<Node>, i: nat, k: nat) {
    && i < |ns| && k <= |ns[i].parents| && Backward(head, nxt, chld)
    && forall a: nat :: a < |head| ==>
      From(nxt, chld, head[a]) == Copies(i, Times(ns[i].parents[..k], a)) + Kids(ns, a, i)
  }

  /** One more parent of the node in hand, with its edge in front if it names a node. */
  lemma EdgePushed(head: seq<int>, nxt: seq<int>, chld: seq<nat>, ns: seq<Node>, i: nat, k: nat)
    requires Building(head, nxt, chld, ns, i, k) && k < |ns[i].parents|
    ensures var p := ns[i].parents[k];
      if 0 <= p < |head| then Building(head[p := |nxt|], nxt + [head[p]], chld + [i], ns, i, k + 1)
      else Building(head, nxt, chld, ns, i, k + 1)
  {
    var refs, p := ns[i].parents, ns[i].parents[k];
    assert refs[..k + 1][..k] == refs[..k];
    if 0 <= p < |head| {
      var head', nxt', chld' := head[p := |nxt|], nxt + [head[p]], chld + [i];
      assert Backward(head', nxt', chld');
      forall a: nat | a < |head| ensures From(nxt', chld', head'[a]) == Copies(i, Times(refs[..k + 1], a)) + Kids(ns, a, i) {
        FromMore(nxt, chld, head[p], i, head[a]);
        if a == p { assert From(nxt', chld', |nxt|) == [i] + From(nxt', chld', head[p]); }
      }
    }
  }

  lemma NodeDone(head: seq<int>, nxt: seq<int>, chld: seq<nat>, ns: seq<Node>, i: nat)
    requires i < |ns| && Building(head, nxt, chld, ns, i, |ns[i].parents|)
    ensures forall a: nat :: a < |head| ==> From(nxt, chld, head[a]) == Kids(ns, a, i + 1)
  {
    assert ns[i].parents[..|ns[i].parents|] == ns[i].parents;
  }

  lemma NodeStarts(head: seq<int>, nxt: seq<int>, chld: seq<nat>, ns: seq<Node>, i: nat)
    requires i < |ns| && Backward(head, nxt, chld) && forall a: nat :: a < |head| ==> From(nxt, chld, head[a]) == Kids(ns, a, i)
    ensures Building(head, nxt, chld, ns, i, 0)
  {
    assert ns[i].parents[..0] == [];
  }

  /** The parents of a node pushed, each an edge in front of its list. */
  method Push(head0: seq<int>, nxt0: seq<int>, chld0: seq<nat>, ns: seq<Node>, i: nat)
    returns (head: seq<int>, nxt: seq<int>, chld: seq<nat>)
    requires i < |ns| && Backward(head0, nxt0, chld0)
    requires forall a: nat :: a < |head0| ==> From(nxt0, chld0, head0[a]) == Kids(ns, a, i)
    ensures |head| == |head0| && Backward(head, nxt, chld)
    ensures forall a: nat :: a < |head| ==> From(nxt, chld, head[a]) == Kids(ns, a, i + 1)
  {
    hide From, Kids, Times, Copies;
    head, nxt, chld := head0, nxt0, chld0;
    NodeStarts(head, nxt, chld, ns, i);
    for k := 0 to |ns[i].parents|
      invariant |head| == |head0| && Building(head, nxt, chld, ns, i, k)
    {
      var p := ns[i].parents[k];
      EdgePushed(head, nxt, chld, ns, i, k);
      if 0 <= p < |head| {
        nxt, chld := nxt + [head[p]], chld + [i];
        head := head[p := |nxt| - 1];
      }
    }
    NodeDone(head, nxt, chld, ns, i);
  }

  /** The shared part: the node table and the counter that every change of it moves on. */
  class Shared {
    var nodes: seq<Node>
    var gen: nat

    constructor ()
      ensures nodes == [] && gen == 0
    {
      nodes, gen := [], 0;
    }

    /** Any other change of the table, by any process. */
    method Change(rs: seq<Node>)
      modifies this
      ensures nodes == rs && gen == old(gen) + 1
    {
      nodes := rs;
      gen := gen + 1;
    }
  }

  /** One process's index. */
  class Keeper {
    var ix: Index

    constructor ()
      ensures !ix.built && ix.gen == 0
    {
      ix := Index(false, 0, [], [], []);
    }

    /** The index brought up to date, if it is not. */
    method Get(sh: Shared)
      requires Honest(ix, sh.nodes, sh.gen)
      modifies this
      ensures ix.built && ix.gen == sh.gen && Mirrors(ix, sh.nodes)
    {
      hide From, Kids;
      if ix.built && ix.gen == sh.gen && |ix.head| == |sh.nodes| { return; }
      var ns := sh.nodes;
      var head, nxt, chld := seq(|ns|, _ => NONE), [], [];
      Nothing(head, ns);
      for i := 0 to |ns|
        invariant |head| == |ns| && Backward(head, nxt, chld)
        invariant forall a: nat :: a < |head| ==> From(nxt, chld, head[a]) == Kids(ns, a, i)
      {
        head, nxt, chld := Push(head, nxt, chld, ns, i);
      }
      ix := Index(true, sh.gen, head, nxt, chld);
    }

    /** A newcomer at the end of the table: an index that was current is carried along, any other is given up. */
    method Insert(sh: Shared, nd: Node)
      requires Honest(ix, sh.nodes, sh.gen) && RefsOk(sh.nodes) && forall k: nat :: k < |nd.parents| ==> nd.parents[k] < |sh.nodes|
      modifies this, sh
      ensures sh.nodes == old(sh.nodes) + [nd] && sh.gen == old(sh.gen) + 1
      ensures Honest(ix, sh.nodes, sh.gen)
      ensures old(ix.built && ix.gen == sh.gen) ==> ix.built && ix.gen == sh.gen
    {
      hide From, Kids;
      var i := |sh.nodes|;
      ghost var was := sh.nodes;
      sh.nodes := sh.nodes + [nd];
      var mirror := ix.built && ix.gen == sh.gen && |ix.head| == i;
      sh.gen := sh.gen + 1;
      if !mirror {
        ix := ix.(built := false);
        return;
      }
      Appended(ix, was, nd);
      var head, nxt, chld := Push(ix.head + [NONE], ix.nxt, ix.chld, sh.nodes, i);
      ix := Index(true, sh.gen, head, nxt, chld);
    }
  }

  lemma Nothing(head: seq<int>, ns: seq<Node>)
    requires |head| == |ns| && forall a: nat :: a < |ns| ==> head[a] == NONE
    ensures Backward(head, [], []) && forall a: nat :: a < |ns| ==> From([], [], head[a]) == Kids(ns, a, 0)
  {
  }

  lemma {:induction false} KidsPrefix(ns: seq<Node>, ms: seq<Node>, a: nat, n: nat)
    requires n <= |ns| && n <= |ms| && forall i: nat :: i < n ==> ns[i] == ms[i]
    ensures Kids(ns, a, n) == Kids(ms, a, n)
  {
    if n > 0 { KidsPrefix(ns, ms, a, n - 1); }
  }

  lemma {:induction false} NotNamed(refs: seq<int>, a: int)
    requires a !in refs
    ensures Times(refs, a) == 0
  {
    if refs != [] { NotNamed(refs[..|refs| - 1], a); }
  }

  lemma {:induction false} NoKids(ns: seq<Node>, a: nat, n: nat)
    requires n <= |ns| && forall i: nat :: i < n ==> a !in ns[i].parents
    ensures Kids(ns, a, n) == []
  {
    if n > 0 { NoKids(ns, a, n - 1); NotNamed(ns[n - 1].parents, a); }
  }

  /** Nobody names a newcomer's slot yet. */
  lemma Appended(ix: Index, ns: seq<Node>, nd: Node)
    requires Mirrors(ix, ns) && RefsOk(ns)
    ensures Backward(ix.head + [NONE], ix.nxt, ix.chld)
    ensures forall a: nat :: a < |ns| + 1 ==> From(ix.nxt, ix.chld, (ix.head + [NONE])[a]) == Kids(ns + [nd], a, |ns|)
  {
    var ms := ns + [nd];
    forall a: nat | a < |ns| + 1 ensures From(ix.nxt, ix.chld, (ix.head + [NONE])[a]) == Kids(ms, a, |ns|) {
      KidsPrefix(ns, ms, a, |ns|);
      if a == |ns| {
        forall i: nat | i < |ns| ensures a !in ns[i].parents {
          forall k: nat | k < |ns[i].parents| ensures ns[i].parents[k] != a { }
        }
        NoKids(ns, a, |ns|);
      }
    }
  }

  /** Where no parent is named twice, the lists are those the cluster walks read. */
  lemma {:induction false} KidsAsWalked(ns: seq<Node>, a: nat, n: nat)
    requires RefsOk(ns) && a < |ns| && n <= |ns|
    ensures Kids(ns, a, n) == KidsFrom(ns, a, n)
  {
    hide *;
    if n == 0 {
      NoneWalked(ns, a);
    } else {
      KidsAsWalked(ns, a, n - 1);
      OnceOrNever(ns, a, n - 1);
      OneMore(ns, a, n);
    }
  }

  lemma NoneWalked(ns: seq<Node>, a: nat)
    ensures Kids(ns, a, 0) == KidsFrom(ns, a, 0) == []
  {
  }

  lemma OneMore(ns: seq<Node>, a: nat, n: nat)
    requires 0 < n <= |ns|
    ensures Kids(ns, a, n) == Copies(n - 1, Times(ns[n - 1].parents, a)) + Kids(ns, a, n - 1)
    ensures KidsFrom(ns, a, n) == (if a in ns[n - 1].parents then [n - 1] else []) + KidsFrom(ns, a, n - 1)
  {
    hide Copies, Times;
    var rest := KidsFrom(ns, a, n - 1);
    assert [] + rest == rest;
  }

  lemma OnceOrNever(ns: seq<Node>, a: nat, i: nat)
    requires RefsOk(ns) && a < |ns| && i < |ns|
    ensures Copies(i, Times(ns[i].parents, a)) == if a in ns[i].parents then [i] else []
  {
    assert NoDoubles(ns, ns[i].parents);
    NamedOnce(ns, ns[i].parents, a);
    assert Copies(i, 1) == [i] + Copies(i, 0);
  }

  lemma {:induction false} NamedOnce(ns: seq<Node>, refs: seq<int>, a: nat)
    requires a < |ns| && forall i: nat, j: nat :: i < j < |refs| && refs[i] == a ==> refs[j] != a
    ensures Times(refs, a) == if a in refs then 1 else 0
  {
    if refs != [] {
      var n := |refs| - 1;
      NamedOnce(ns, refs[..n], a);
      assert refs == refs[..n] + [refs[n]];
    }
  }

  /** A newcomer entered by one process, a change of another kind by any, a process asking for its index. */
  datatype Event = Arrives(who: nat, nd: Node) | Changes(rs: seq<Node>) | Asks(asker: nat)

  /** The table after some events. */
  function TableAfter(evs: seq<Event>): seq<Node> {
    if evs == [] then []
    else
      var ns := TableAfter(evs[..|evs| - 1]);
      match evs[|evs| - 1]
      case Arrives(_, nd) => ns + [nd]
      case Changes(rs) => rs
      case Asks(_) => ns
  }

  /** Newcomers name earlier nodes, none of them twice, and other changes leave a table that does. */
  ghost predicate Proper(ns: seq<Node>, ev: Event, processes: nat) {
    match ev
    case Arrives(who, nd) => who < processes && NoDoubles(ns, nd.parents) && forall k: nat :: k < |nd.parents| ==> 0 <= nd.parents[k] < |ns|
    case Changes(rs) => RefsOk(rs)
    case Asks(asker) => asker < processes
  }

  lemma ArrivalOk(ns: seq<Node>, nd: Node)
    requires RefsOk(ns) && NoDoubles(ns, nd.parents) && forall k: nat :: k < |nd.parents| ==> 0 <= nd.parents[k] < |ns|
    ensures RefsOk(ns + [nd])
  {
    var ms := ns + [nd];
    forall j: nat, k: nat | j < |ms| && k < |ms[j].parents| ensures ms[j].parents[k] == NONE || 0 <= ms[j].parents[k] < |ms| { }
    forall j: nat | j < |ms| ensures NoDoubles(ms, ms[j].parents) {
      if j < |ns| {
        assert NoDoubles(ns, ns[j].parents);
        forall k: nat | k < |ns[j].parents| ensures ns[j].parents[k] < |ns| { }
      }
    }
  }

  ghost predicate ProperRun(evs: seq<Event>, processes: nat) {
    forall k: nat :: k < |evs| ==> Proper(TableAfter(evs[..k]), evs[k], processes)
  }

  /** However the processes take turns, no index claims to be current and is not, and whoever asks gets the rebuilt one. */
  method Turns(sh: Shared, ks: seq<Keeper>, evs: seq<Event>)
    requires sh.nodes == [] && sh.gen == 0 && ProperRun(evs, |ks|)
    requires forall p: nat, q: nat :: p < q < |ks| ==> ks[p] != ks[q]
    requires forall q: nat :: q < |ks| ==> !ks[q].ix.built && ks[q].ix.gen == 0
    modifies sh, ks
    ensures sh.nodes == TableAfter(evs) && forall q: nat :: q < |ks| ==> Honest(ks[q].ix, TableAfter(evs), sh.gen)
    ensures |evs| > 0 && evs[|evs| - 1].Asks? ==>
      var ix := ks[evs[|evs| - 1].asker].ix; ix.built && ix.gen == sh.gen && Mirrors(ix, TableAfter(evs))
  {
    hide Mirrors, RefsOk, NoDoubles;
    assert evs[..0] == [];
    NoTable();
    for k := 0 to |evs|
      invariant sh.nodes == TableAfter(evs[..k]) && RefsOk(sh.nodes)
      invariant forall q: nat :: q < |ks| ==> Honest(ks[q].ix, sh.nodes, sh.gen)
      invariant 0 < k && evs[k - 1].Asks? && evs[k - 1].asker < |ks| ==>
        var ix := ks[evs[k - 1].asker].ix; ix.built && ix.gen == sh.gen && Mirrors(ix, sh.nodes)
    {
      assert evs[..k + 1][..k] == evs[..k] && Proper(TableAfter(evs[..k]), evs[k], |ks|);
      match evs[k]
      case Arrives(who, nd) =>
        ArrivalOk(sh.nodes, nd);
        ks[who].Insert(sh, nd);
      case Changes(rs) => sh.Change(rs);
      case Asks(asker) => ks[asker].Get(sh);
    }
    assert evs[..|evs|] == evs;
    if |evs| > 0 { assert Proper(TableAfter(evs[..|evs| - 1]), evs[|evs| - 1], |ks|); }
  }

  lemma NoTable()
    ensures RefsOk([])
  {
  }
}
