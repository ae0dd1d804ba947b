/** Parent lists: eight entries in the node, the rest in a block from a pool threaded by a free list. */
module ParentLists {
  import opened ChainTable

  const INLINE := 8
  const SLOTS := 55
  const MAX_PARENTS := 63

  datatype PNode = PNode(inline: seq<int>, povf: int, count: nat)

  /** Entry k of a node's list, wherever it lives; none where there is no such place. */
  function At(nd: PNode, blocks: seq<seq<int>>, k: nat): int {
    if k < INLINE then if k < |nd.inline| then nd.inline[k] else NONE
    else if 0 <= nd.povf < |blocks| && k - INLINE < |blocks[nd.povf]| then blocks[nd.povf][k - INLINE]
    else NONE
  }

  /** A node's parents, as they read. */
  function ListOf(nd: PNode, blocks: seq<seq<int>>): (r: seq<int>)
    ensures |r| == nd.count && forall k: nat :: k < nd.count ==> r[k] == At(nd, blocks, k)
  {
    seq(nd.count, k requires 0 <= k => At(nd, blocks, k))
  }

  function Lists(nodes: seq<PNode>, blocks: seq<seq<int>>): (r: seq<seq<int>>)
    ensures |r| == |nodes| && forall i: nat :: i < |nodes| ==> r[i] == ListOf(nodes[i], blocks)
  {
    seq(|nodes|, i requires 0 <= i < |nodes| => ListOf(nodes[i], blocks))
  }

  ghost predicate Shaped(nd: PNode, blocks: seq<seq<int>>) {
    |nd.inline| == INLINE && nd.count <= MAX_PARENTS && (nd.povf == NONE || 0 <= nd.povf < |blocks|)
  }

  /** Where the free list goes on from each block: through its first slot. */
  function Firsts(blocks: seq<seq<int>>): (r: seq<int>)
    ensures |r| == |blocks| && forall b: nat :: b < |blocks| && |blocks[b]| > 0 ==> r[b] == blocks[b][0]
  {
    seq(|blocks|, b requires 0 <= b < |blocks| => if |blocks[b]| > 0 then blocks[b][0] else NONE)
  }

  ghost predicate Owned(nodes: seq<PNode>, b: nat) {
    exists i: nat :: i < |nodes| && nodes[i].povf == b
  }

  /** Every block is on the free list or belongs to exactly one live node. */
  ghost predicate Partition(nodes: seq<PNode>, blocks: seq<seq<int>>, head: int, free: seq<nat>) {
    && (forall b: nat :: b < |blocks| ==> |blocks[b]| == SLOTS)
    && (forall i: nat :: i < |nodes| ==> Shaped(nodes[i], blocks))
    && Chain(Firsts(blocks), head, free)
    && (forall i: nat, j: nat :: i < j < |nodes| && nodes[i].povf != NONE ==> nodes[i].povf != nodes[j].povf)
    && (forall b: nat :: b < |blocks| ==> (b in free <==> !Owned(nodes, b)))
  }

  /** A block taken off the front of the free list for a new node. */
  lemma Reserve(nodes: seq<PNode>, blocks: seq<seq<int>>, head: int, free: seq<nat>, nd: PNode, block: seq<int>)
    requires Partition(nodes, blocks, head, free) && |free| > 0 && |block| == SLOTS
    ensures head == free[0] && 0 <= head < |blocks|
    ensures nd.povf == head && Shaped(nd, blocks) ==>
      Partition(nodes + [nd], blocks[head := block], blocks[head][0], free[1..])
    ensures Lists(nodes, blocks[head := block]) == Lists(nodes, blocks)
  {
    var b := free[0];
    assert b in free && !Owned(nodes, b);
    var blocks' := blocks[head := block];
    ChainFrame(Firsts(blocks), Firsts(blocks'), blocks[head][0], free[1..]);
    forall i: nat | i < |nodes| ensures ListOf(nodes[i], blocks') == ListOf(nodes[i], blocks) {
      assert nodes[i].povf != head;
    }
    if nd.povf == head && Shaped(nd, blocks) {
      var nodes' := nodes + [nd];
      forall c: nat | c < |blocks'| ensures c in free[1..] <==> !Owned(nodes', c) {
        assert c in free[1..] <==> c in free && c != b by { assert free == [b] + free[1..]; }
        if Owned(nodes, c) {
          var i: nat :| i < |nodes| && nodes[i].povf == c;
          assert nodes'[i].povf == c;
        }
        if c == b { assert nodes'[|nodes|].povf == c; }
      }
      forall i: nat | i < |nodes| ensures nodes[i].povf != head {
        assert nodes[i].povf == b ==> Owned(nodes, b);
      }
    }
  }

  /** A node whose list fits its own slots. */
  lemma AddInline(nodes: seq<PNode>, blocks: seq<seq<int>>, head: int, free: seq<nat>, nd: PNode)
    requires Partition(nodes, blocks, head, free) && Shaped(nd, blocks) && nd.povf == NONE
    ensures Partition(nodes + [nd], blocks, head, free)
  {
    var nodes' := nodes + [nd];
    forall b: nat | b < |blocks| ensures b in free <==> !Owned(nodes', b) {
      if Owned(nodes, b) {
        var i: nat :| i < |nodes| && nodes[i].povf == b;
        assert nodes'[i].povf == b;
      }
    }
  }

  /** Handing a node's block back to the front of the free list. */
  lemma Release(nodes: seq<PNode>, blocks: seq<seq<int>>, head: int, free: seq<nat>, i: nat)
    requires Partition(nodes, blocks, head, free) && i < |nodes| && nodes[i].povf != NONE
    ensures 0 <= nodes[i].povf < |blocks|
    ensures var b := nodes[i].povf; var nodes', blocks' := nodes[i := nodes[i].(povf := NONE)], blocks[b := blocks[b][0 := head]];
      && Partition(nodes', blocks', b, [b] + free)
      && forall j: nat :: j < |nodes| && j != i ==> ListOf(nodes[j], blocks') == ListOf(nodes[j], blocks)
  {
    assert Shaped(nodes[i], blocks);
    var b: nat := nodes[i].povf;
    var nodes', blocks' := nodes[i := nodes[i].(povf := NONE)], blocks[b := blocks[b][0 := head]];
    assert Owned(nodes, b);
    ChainFrame(Firsts(blocks), Firsts(blocks'), head, free);
    assert ([b] + free)[1..] == free;
    forall j: nat | j < |nodes| && j != i ensures nodes[j].povf != b {
    }
    forall j: nat | j < |nodes| && j != i ensures ListOf(nodes[j], blocks') == ListOf(nodes[j], blocks) {
      assert nodes[j].povf != b;
    }
    forall c: nat | c < |blocks'| ensures c in [b] + free <==> !Owned(nodes', c) {
      if Owned(nodes, c) && c != b {
        var j: nat :| j < |nodes| && nodes[j].povf == c;
        assert nodes'[j].povf == c;
      }
      if Owned(nodes', c) {
        var j: nat :| j < |nodes'| && nodes'[j].povf == c;
        assert nodes[j].povf == c;
      }
    }
  }

  /** A node without a block can leave its place to another. */
  lemma Dropped(nodes: seq<PNode>, blocks: seq<seq<int>>, head: int, free: seq<nat>, keep: seq<PNode>, from: seq<nat>)
    requires Partition(nodes, blocks, head, free) && |keep| == |from|
    requires forall i: nat :: i < |keep| ==> from[i] < |nodes| && keep[i] == nodes[from[i]]
    requires forall i: nat, j: nat :: i < j < |keep| ==> from[i] != from[j]
    requires forall k: nat :: k < |nodes| && nodes[k].povf != NONE ==> k in from
    ensures Partition(keep, blocks, head, free)
  {
    forall b: nat | b < |blocks| ensures b in free <==> !Owned(keep, b) {
      if Owned(nodes, b) {
        var k: nat :| k < |nodes| && nodes[k].povf == b;
        var i: nat :| i < |from| && from[i] == k;
        assert keep[i].povf == b;
      }
      if Owned(keep, b) {
        var i: nat :| i < |keep| && keep[i].povf == b;
        assert nodes[from[i]].povf == b;
      }
    }
    forall i: nat, j: nat | i < j < |keep| && keep[i].povf != NONE ensures keep[i].povf != keep[j].povf {
      var a, c := from[i], from[j];
      if a < c { assert nodes[a].povf != nodes[c].povf; } else { assert c < a; }
    }
  }

  /** An entry changed in a live node's block. */
  lemma WriteBlock(nodes: seq<PNode>, blocks: seq<seq<int>>, head: int, free: seq<nat>, i: nat, k: nat, v: int)
    requires Partition(nodes, blocks, head, free) && i < |nodes| && nodes[i].povf != NONE && INLINE <= k < nodes[i].count
    ensures var b := nodes[i].povf; 0 <= b < |blocks| && k - INLINE < |blocks[b]|
    ensures var b := nodes[i].povf; var blocks' := blocks[b := blocks[b][k - INLINE := v]];
      && Partition(nodes, blocks', head, free)
      && Lists(nodes, blocks') == Lists(nodes, blocks)[i := ListOf(nodes[i], blocks)[k := v]]
  {
    assert Shaped(nodes[i], blocks);
    var b: nat := nodes[i].povf;
    var blocks' := blocks[b := blocks[b][k - INLINE := v]];
    assert Owned(nodes, b);
    ChainFrame(Firsts(blocks), Firsts(blocks'), head, free);
    forall j: nat | j < |nodes| ensures Lists(nodes, blocks')[j] == Lists(nodes, blocks)[i := ListOf(nodes[i], blocks)[k := v]][j] {
      if j != i { assert nodes[j].povf != b; }
    }
  }

  /** An entry changed in a node's own slots. */
  lemma WriteInline(nodes: seq<PNode>, blocks: seq<seq<int>>, head: int, free: seq<nat>, i: nat, k: nat, v: int)
    requires Partition(nodes, blocks, head, free) && i < |nodes| && k < INLINE && k < nodes[i].count && |nodes[i].inline| == INLINE
    ensures var nodes' := nodes[i := nodes[i].(inline := nodes[i].inline[k := v])];
      && Partition(nodes', blocks, head, free)
      && Lists(nodes', blocks) == Lists(nodes, blocks)[i := ListOf(nodes[i], blocks)[k := v]]
  {
    var nodes' := nodes[i := nodes[i].(inline := nodes[i].inline[k := v])];
    forall j: nat | j < |nodes| ensures Lists(nodes', blocks)[j] == Lists(nodes, blocks)[i := ListOf(nodes[i], blocks)[k := v]][j] {
      if j == i { assert ListOf(nodes'[i], blocks) == ListOf(nodes[i], blocks)[k := v]; }
    }
    forall b: nat | b < |blocks| ensures b in free <==> !Owned(nodes', b) {
      if Owned(nodes, b) {
        var j: nat :| j < |nodes| && nodes[j].povf == b;
        assert nodes'[j].povf == b;
      }
      if Owned(nodes', b) {
        var j: nat :| j < |nodes'| && nodes'[j].povf == b;
        assert nodes[j].povf == b;
      }
    }
  }

  class Store {
    const nodes: array<PNode>
    const blocks: array<seq<int>>
    var n: nat
    var head: int
    ghost var free: seq<nat>

    ghost predicate Valid()
      reads this, nodes, blocks
    {
      && n <= nodes.Length && (nodes as object) != blocks
      && Partition(nodes[..n], blocks[..], head, free)
      && forall i: nat :: i < n && nodes[i].count > INLINE ==> nodes[i].povf != NONE
    }

    /** The parent lists of the live nodes, as they read. */
    ghost function Stored(): seq<seq<int>>
      requires n <= nodes.Length
      reads this, nodes, blocks
    {
      Lists(nodes[..n], blocks[..])
    }

    /** A new pool: every block free, threaded in order. */
    constructor (cap: nat, nb: nat)
      ensures Valid() && Stored() == [] && nodes.Length == cap && blocks.Length == nb && |free| == nb
      ensures fresh(nodes) && fresh(blocks)
    {
      nodes := new PNode[cap](_ => PNode([], NONE, 0));
      blocks := new seq<int>[nb](b => [if b + 1 < nb then b + 1 else NONE] + seq(SLOTS - 1, _ => NONE));
      n := 0;
      head := if nb == 0 then NONE else 0;
      free := FromOn(0, nb);
      new;
      AllFree(blocks[..]);
      assert nodes[..0] == [];
    }

    /** Entry k of node i's list. */
    function Read(i: nat, k: nat): (r: int)
      requires n <= nodes.Length && i < n
      reads this, nodes, blocks
      ensures k < nodes[i].count ==> r == Stored()[i][k]
    {
      At(nodes[i], blocks[..], k)
    }

    /** Changes entry k of node i's list. */
    method Write(i: nat, k: nat, v: int)
      requires Valid() && i < n && k < nodes[i].count
      modifies nodes, blocks
      ensures Valid() && Stored() == old(Stored())[i := old(Stored()[i])[k := v]]
    {
      hide Partition, Lists, ListOf, At;
      ShapedAt(nodes[..n], blocks[..], head, free, i);
      ghost var ns, bs := nodes[..n], blocks[..];
      if k < INLINE {
        WriteInline(ns, bs, head, free, i, k, v);
        nodes[i] := nodes[i].(inline := nodes[i].inline[k := v]);
        assert nodes[..n] == ns[i := nodes[i]];
      } else {
        WriteBlock(ns, bs, head, free, i, k, v);
        var b := nodes[i].povf;
        blocks[b] := blocks[b][k - INLINE := v];
        assert blocks[..] == bs[b := blocks[b]] && nodes[..n] == ns;
      }
    }

    /** Writes a list into a node's slots and the block it holds, if it holds one. */
    method Fill(nd0: PNode, list: seq<int>) returns (nd: PNode)
      requires |nd0.inline| == INLINE && nd0.count == |list| <= MAX_PARENTS
      requires nd0.povf == NONE || (0 <= nd0.povf < blocks.Length && |blocks[nd0.povf]| == SLOTS)
      requires |list| > INLINE ==> nd0.povf != NONE
      modifies blocks
      ensures nd.povf == nd0.povf && nd.count == nd0.count && |nd.inline| == INLINE
      ensures ListOf(nd, blocks[..]) == list
      ensures forall b: nat :: b < blocks.Length && b != nd0.povf ==> blocks[b] == old(blocks[b])
      ensures nd0.povf != NONE ==> |blocks[nd0.povf]| == SLOTS
    {
      nd := nd0;
      for k := 0 to |list|
        invariant nd.povf == nd0.povf && nd.count == nd0.count && |nd.inline| == INLINE
        invariant nd0.povf != NONE ==> |blocks[nd0.povf]| == SLOTS
        invariant forall b: nat :: b < blocks.Length && b != nd0.povf ==> blocks[b] == old(blocks[b])
        invariant forall j: nat :: j < k ==> At(nd, blocks[..], j) == list[j]
      {
        ghost var was, bs := nd, blocks[..];
        if k < INLINE {
          nd := nd.(inline := nd.inline[k := list[k]]);
        } else {
          blocks[nd.povf] := blocks[nd.povf][k - INLINE := list[k]];
        }
        assert forall j: nat :: j < k ==> At(nd, blocks[..], j) == At(was, bs, j);
      }
    }

    /** A new node with a list of parents; refused, and nothing changed, only when it needs a block and none is free. */
    method Insert(list: seq<int>) returns (ok: bool)
      requires Valid() && n < nodes.Length && |list| <= MAX_PARENTS
      modifies this, nodes, blocks
      ensures Valid() && ok == (|list| <= INLINE || |old(free)| > 0)
      ensures Stored() == if ok then old(Stored()) + [list] else old(Stored())
    {
      hide Partition, Lists, ListOf, At;
      ghost var ns, bs, h, f := nodes[..n], blocks[..], head, free;
      var nd := PNode(seq(INLINE, _ => NONE), NONE, |list|);
      FreeHead(ns, bs, head, free);
      if |list| > INLINE {
        if head == NONE { return false; }
        nd := nd.(povf := head);
        head := blocks[head][0];
        blocks[nd.povf] := seq(SLOTS, _ => NONE);
      }
      nd := Fill(nd, list);
      if |list| > INLINE {
        Reserve(ns, bs, h, f, nd, blocks[nd.povf]);
        assert blocks[..] == bs[h := blocks[h]];
        free := free[1..];
      } else {
        AddInline(ns, bs, h, f, nd);
        assert blocks[..] == bs;
      }
      nodes[n] := nd;
      n := n + 1;
      assert nodes[..n] == ns + [nd];
      ListsNext(ns, blocks[..], nd);
      ok := true;
    }

    /** Hands node i's block back, when it has one. */
    method ReleaseBlock(i: nat)
      requires n <= nodes.Length && (nodes as object) != blocks && i < n && Partition(nodes[..n], blocks[..], head, free)
      modifies this`head, this`free, nodes, blocks
      ensures Partition(nodes[..n], blocks[..], head, free) && nodes[..n] == old(nodes[..n])[i := old(nodes[i]).(povf := NONE)]
      ensures forall j: nat :: j < n && j != i ==> ListOf(nodes[j], blocks[..]) == old(ListOf(nodes[j], blocks[..]))
      ensures |free| >= |old(free)|
    {
      hide Partition, ListOf;
      ghost var ns, bs := nodes[..n], blocks[..];
      if nodes[i].povf == NONE {
        assert ns[i := ns[i].(povf := NONE)] == ns;
        return;
      }
      Release(ns, bs, head, free, i);
      var b := nodes[i].povf;
      ShapedAt(ns, bs, head, free, i);
      blocks[b] := blocks[b][0 := head];
      head := b;
      free := [b as nat] + free;
      nodes[i] := nodes[i].(povf := NONE);
      assert blocks[..] == bs[b := blocks[b]];
      assert nodes[..n] == ns[i := nodes[i]];
    }

    /** Removal by moving the last node into the place: its block freed, the moved node's block moved with it. */
    method Remove(i: nat)
      requires Valid() && i < n
      modifies this, nodes, blocks
      ensures Valid() && Stored() == SwapOut(old(Stored()), i) && |free| >= |old(free)|
    {
      hide Partition, ListOf, Lists;
      ghost var was := Stored();
      ListsAre(nodes[..n], blocks[..]);
      ReleaseBlock(i);
      ghost var ns := nodes[..n];
      var last := n - 1;
      nodes[i] := nodes[last];
      n := last;
      assert nodes[..n] == SwapOut(ns, i);
      SwappedOut(ns, blocks[..], head, free, i, was);
    }

    /** Every marked node's block handed back. */
    method ReleaseMarked(mark: seq<bool>)
      requires Valid() && |mark| == n
      modifies this`head, this`free, nodes, blocks
      ensures Partition(nodes[..n], blocks[..], head, free)
      ensures forall j: nat :: j < n && mark[j] ==> nodes[j].povf == NONE
      ensures forall j: nat :: j < n && !mark[j] ==> nodes[j] == old(nodes[j])
      ensures forall j: nat :: j < n && !mark[j] ==> ListOf(nodes[j], blocks[..]) == old(ListOf(nodes[j], blocks[..]))
      ensures |free| >= |old(free)|
    {
      hide Partition, ListOf;
      for i := 0 to n
        invariant Partition(nodes[..n], blocks[..], head, free) && |free| >= |old(free)|
        invariant forall j: nat :: j < i && mark[j] ==> nodes[j].povf == NONE
        invariant forall j: nat :: j < n && (i <= j || !mark[j]) ==> nodes[j] == old(nodes[j])
        invariant forall j: nat :: j < n && (i <= j || !mark[j]) ==> ListOf(nodes[j], blocks[..]) == old(ListOf(nodes[j], blocks[..]))
      {
        if mark[i] {
          ghost var ns := nodes[..n];
          ReleaseBlock(i);
          assert forall j: nat :: j < n && j != i ==> nodes[j] == ns[j] by {
            forall j: nat | j < n && j != i ensures nodes[j] == ns[j] { assert nodes[..n][j] == ns[j]; }
          }
          assert nodes[..n][i] == ns[i].(povf := NONE);
        }
      }
    }

    /** Removal of every marked node at once: blocks freed, the others moved up in order. */
    method Compact(mark: seq<bool>)
      requires Valid() && |mark| == n
      modifies this, nodes, blocks
      ensures Valid() && Stored() == Kept(old(Stored()), mark) && |free| >= |old(free)|
    {
      hide Partition, ListOf, Lists, Kept;
      ghost var was := Stored();
      ListsAre(nodes[..n], blocks[..]);
      ReleaseMarked(mark);
      ghost var ns := nodes[..n];
      n := ChainTable.Compact(nodes, n, mark);
      Compacted(ns, blocks[..], head, free, mark, was);
    }

    /** One step of an eviction. */
    method Evict(ch: Departure)
      requires Valid() && Fits(Stored(), ch)
      modifies this, nodes, blocks
      ensures Valid() && Stored() == After(old(Stored()), ch) && |free| >= |old(free)|
    {
      hide Partition, ListOf;
      match ch
      case Clears(i, k) => Write(i, k, NONE);
      case Leaves(i) => Remove(i);
      case Leave(mark) => Compact(mark);
    }

    /** An entry that looks for a block before it evicts: refused with nothing evicted exactly when it needs a block and
        none is free; otherwise the block is still there when the evictions are over. */
    method Enter(list: seq<int>, evictions: seq<Departure>) returns (ok: bool)
      requires Valid() && n < nodes.Length && |list| <= MAX_PARENTS && FitAll(Stored(), evictions)
      modifies this, nodes, blocks
      ensures Valid() && ok == (|list| <= INLINE || |old(free)| > 0)
      ensures Stored() == if ok then AfterAll(old(Stored()), evictions) + [list] else old(Stored())
    {
      hide Partition, ListOf, After, Fits, Lists, FitAll, AfterAll;
      FreeHead(nodes[..n], blocks[..], head, free);
      if |list| > INLINE && head == NONE { return false; }
      ghost var was := Stored();
      NoneYet(was);
      assert evictions[..0] == [];
      for k := 0 to |evictions|
        invariant Valid() && Stored() == AfterAll(was, evictions[..k]) && n <= old(n) && |free| >= |old(free)|
      {
        assert evictions[..k + 1] == evictions[..k] + [evictions[k]];
        FitNext(was, evictions, k);
        Evict(evictions[k]);
      }
      assert evictions[..|evictions|] == evictions;
      ok := Insert(list);
    }
  }

  /** What an eviction does to the lists: a reference cleared, a node gone, many nodes gone at once. */
  datatype Departure = Clears(node: nat, entry: nat) | Leaves(slot: nat) | Leave(mark: seq<bool>)

  predicate Fits(s: seq<seq<int>>, ch: Departure) {
    match ch
    case Clears(i, k) => i < |s| && k < |s[i]|
    case Leaves(i) => i < |s|
    case Leave(mark) => |mark| == |s|
  }

  function After(s: seq<seq<int>>, ch: Departure): (r: seq<seq<int>>)
    ensures |r| <= |s|
  {
    if !Fits(s, ch) then s
    else match ch
    case Clears(i, k) => s[i := s[i][k := NONE]]
    case Leaves(i) => SwapOut(s, i)
    case Leave(mark) => Kept(s, mark)
  }

  /** Each fits what the ones before it leave. */
  predicate FitAll(s: seq<seq<int>>, chs: seq<Departure>)
    decreases |chs|
  {
    chs == [] || (FitAll(s, chs[..|chs| - 1]) && Fits(AfterAll(s, chs[..|chs| - 1]), chs[|chs| - 1]))
  }

  function AfterAll(s: seq<seq<int>>, chs: seq<Departure>): (r: seq<seq<int>>)
    ensures |r| <= |s|
    decreases |chs|
  {
    if chs == [] then s else After(AfterAll(s, chs[..|chs| - 1]), chs[|chs| - 1])
  }

  lemma NoneYet(s: seq<seq<int>>)
    ensures FitAll(s, []) && AfterAll(s, []) == s
  {
  }

  lemma {:induction false} FitNext(s: seq<seq<int>>, chs: seq<Departure>, k: nat)
    requires FitAll(s, chs) && k < |chs|
    ensures FitAll(s, chs[..k]) && FitAll(s, chs[..k + 1]) && Fits(AfterAll(s, chs[..k]), chs[k])
    ensures AfterAll(s, chs[..k + 1]) == After(AfterAll(s, chs[..k]), chs[k])
    decreases |chs|
  {
    hide Fits, After;
    var n := |chs| - 1;
    if k < n {
      FitNext(s, chs[..n], k);
      assert chs[..n][..k] == chs[..k] && chs[..n][..k + 1] == chs[..k + 1];
    } else {
      assert chs[..k + 1] == chs;
    }
  }

  /** What is left when node i, its block already handed back, gives its place to the last one. */
  lemma SwappedOut(ns: seq<PNode>, bs: seq<seq<int>>, head: int, free: seq<nat>, i: nat, was: seq<seq<int>>)
    requires Partition(ns, bs, head, free) && i < |ns| == |was| && ns[i].povf == NONE
    requires forall j: nat :: j < |ns| && j != i ==> ListOf(ns[j], bs) == was[j]
    requires forall j: nat :: j < |ns| && j != i && ns[j].count > INLINE ==> ns[j].povf != NONE
    ensures Partition(SwapOut(ns, i), bs, head, free) && Lists(SwapOut(ns, i), bs) == SwapOut(was, i)
    ensures forall j: nat :: j < |ns| - 1 && SwapOut(ns, i)[j].count > INLINE ==> SwapOut(ns, i)[j].povf != NONE
  {
    hide Partition, ListOf, Lists;
    var last, keep := |ns| - 1, SwapOut(ns, i);
    var from := seq(last, j => if j == i then last else j);
    forall k: nat | k < |ns| && ns[k].povf != NONE ensures k in from {
      assert k != i;
      if k < last { assert from[k] == k; } else { assert from[i] == last; }
    }
    Dropped(ns, bs, head, free, keep, from);
    ListsAre(keep, bs);
  }

  /** What is left when the marked nodes, their blocks already handed back, are dropped. */
  lemma Compacted(ns: seq<PNode>, bs: seq<seq<int>>, head: int, free: seq<nat>, mark: seq<bool>, was: seq<seq<int>>)
    requires Partition(ns, bs, head, free) && |mark| == |ns| == |was|
    requires forall j: nat :: j < |ns| && mark[j] ==> ns[j].povf == NONE
    requires forall j: nat :: j < |ns| && !mark[j] ==> ListOf(ns[j], bs) == was[j]
    requires forall j: nat :: j < |ns| && !mark[j] && ns[j].count > INLINE ==> ns[j].povf != NONE
    ensures Partition(Kept(ns, mark), bs, head, free) && Lists(Kept(ns, mark), bs) == Kept(was, mark)
    ensures forall i: nat :: i < |Kept(ns, mark)| && Kept(ns, mark)[i].count > INLINE ==> Kept(ns, mark)[i].povf != NONE
  {
    hide Partition, ListOf, Lists, Kept;
    KeptAre(ns, mark);
    KeptAre(was, mark);
    Dropped(ns, bs, head, free, Kept(ns, mark), KeptFrom(mark));
    ListsAre(Kept(ns, mark), bs);
  }

  lemma ListsAre(ns: seq<PNode>, bs: seq<seq<int>>)
    ensures |Lists(ns, bs)| == |ns| && forall j: nat :: j < |ns| ==> Lists(ns, bs)[j] == ListOf(ns[j], bs)
  {
  }

  lemma ListsNext(ns: seq<PNode>, bs: seq<seq<int>>, nd: PNode)
    ensures Lists(ns + [nd], bs) == Lists(ns, bs) + [ListOf(nd, bs)]
  {
  }

  lemma FreeHead(nodes: seq<PNode>, blocks: seq<seq<int>>, head: int, free: seq<nat>)
    requires Partition(nodes, blocks, head, free)
    ensures if |free| == 0 then head == NONE else 0 <= head < |blocks| && |blocks[head]| == SLOTS
  {
  }

  lemma ShapedAt(nodes: seq<PNode>, blocks: seq<seq<int>>, head: int, free: seq<nat>, i: nat)
    requires Partition(nodes, blocks, head, free) && i < |nodes|
    ensures Shaped(nodes[i], blocks) && forall b: nat :: b < |blocks| ==> |blocks[b]| == SLOTS
  {
  }

  lemma AllFree(blocks: seq<seq<int>>)
    requires forall c: nat :: c < |blocks| ==> |blocks[c]| == SLOTS && blocks[c][0] == if c + 1 < |blocks| then c + 1 else NONE
    ensures Partition([], blocks, if |blocks| == 0 then NONE else 0, FromOn(0, |blocks|)) && |FromOn(0, |blocks|)| == |blocks|
  {
    ThreadedInOrder(blocks, 0);
    FromOnIs(0, |blocks|);
    forall b: nat | b < |blocks| ensures b in FromOn(0, |blocks|) { assert FromOn(0, |blocks|)[b] == b; }
  }

  function FromOn(b: nat, nb: nat): seq<nat>
    requires b <= nb
    decreases nb - b
  {
    if b == nb then [] else [b] + FromOn(b + 1, nb)
  }

  lemma {:induction false} ThreadedInOrder(blocks: seq<seq<int>>, b: nat)
    requires b <= |blocks|
    requires forall c: nat :: c < |blocks| ==> |blocks[c]| > 0 && blocks[c][0] == if c + 1 < |blocks| then c + 1 else NONE
    ensures Chain(Firsts(blocks), if b < |blocks| then b else NONE, FromOn(b, |blocks|))
    decreases |blocks| - b
  {
    if b < |blocks| {
      ThreadedInOrder(blocks, b + 1);
      FromOnIs(b + 1, |blocks|);
      assert FromOn(b, |blocks|)[1..] == FromOn(b + 1, |blocks|);
    }
  }

  lemma {:induction false} FromOnIs(b: nat, nb: nat)
    requires b <= nb
    ensures |FromOn(b, nb)| == nb - b && forall i: nat :: i < nb - b ==> FromOn(b, nb)[i] == b + i
    decreases nb - b
  {
    if b < nb { FromOnIs(b + 1, nb); }
  }
}
