/** Flat tables with swap-with-last removal, each indexed by hash chains threaded through two arrays. */
module ChainTable {
  const NONE := -1

  /** The chain that starts at h is c, without a slot twice. */
  ghost predicate Chain(next: seq<int>, h: int, c: seq<nat>)
    decreases |c|
  {
    if |c| == 0 then h == NONE
    else h == c[0] && c[0] < |next| && c[0] !in c[1..] && Chain(next, next[c[0]], c[1..])
  }

  /** A chain does not see the slots that are not on it. */
  lemma {:induction false} ChainFrame(next: seq<int>, next': seq<int>, h: int, c: seq<nat>)
    requires Chain(next, h, c) && |next| == |next'| && forall s: nat :: s in c && s < |next| ==> next'[s] == next[s]
    ensures Chain(next', h, c)
    decreases |c|
  {
    if |c| > 0 {
      assert c[0] in c;
      ChainFrame(next, next', next[c[0]], c[1..]);
    }
  }

  function Cut(c: seq<nat>, k: nat): seq<nat>
    requires k < |c|
  {
    c[..k] + c[k + 1..]
  }

  lemma {:induction false} ChainSlots(next: seq<int>, h: int, c: seq<nat>, k: nat)
    requires Chain(next, h, c) && k < |c|
    ensures c[k] < |next| && (k == 0 ==> h == c[0]) && (k > 0 ==> c[k - 1] < |next| && next[c[k - 1]] == c[k])
    ensures c[k] !in Cut(c, k) && forall s :: s in Cut(c, k) <==> s in c && s != c[k]
    ensures c[k] !in c[k + 1..] && (k > 0 ==> c[k - 1] != c[k])
    decreases |c|
  {
    if k > 0 {
      ChainSlots(next, next[c[0]], c[1..], k - 1);
      assert c[1..][k - 1] == c[k] && c[1..][k..] == c[k + 1..];
      assert Cut(c, k) == [c[0]] + Cut(c[1..], k - 1);
      assert c[k] in c[1..];
    } else {
      assert Cut(c, 0) == c[1..];
    }
    assert c == [c[0]] + c[1..];
  }

  /** Taking the slot at place k out, by pointing past it. */
  lemma {:induction false} ChainCut(next: seq<int>, h: int, c: seq<nat>, k: nat, next': seq<int>)
    requires Chain(next, h, c) && k < |c| && c[k] < |next| && |next'| == |next|
    requires k > 0 ==> c[k - 1] < |next| && next'[c[k - 1]] == next[c[k]]
    requires forall s: nat :: s < |next| && s != c[k] && (k > 0 ==> s != c[k - 1]) ==> next'[s] == next[s]
    ensures Chain(next', if k == 0 then next[c[0]] else h, Cut(c, k))
    decreases |c|
  {
    ChainSlots(next, h, c, k);
    if k == 0 {
      assert Cut(c, 0) == c[1..];
      ChainFrame(next, next', next[c[0]], c[1..]);
    } else {
      assert Cut(c, k) == [c[0]] + Cut(c[1..], k - 1);
      assert c[0] !in Cut(c[1..], k - 1);
      if k == 1 {
        assert Cut(c[1..], 0) == c[2..];
        assert c[1..][1..] == c[2..] && c[1..][0] == c[1];
        assert c[0] !in c[2..];
        ChainFrame(next, next', next[c[1]], c[2..]);
      } else {
        assert c[1..][k - 1] == c[k] && c[1..][k - 2] == c[k - 1];
        assert c[k - 1] in c[1..] && c[k] in c[1..];
        ChainCut(next, next[c[0]], c[1..], k - 1, next');
      }
    }
  }

  /** Bucket b's chain holds live slots of that bucket only. */
  ghost predicate OnChain(head: seq<int>, next: seq<int>, chains: seq<seq<nat>>, bucket: map<nat, nat>, b: nat)
    requires b < |head| == |chains|
  {
    Chain(next, head[b], chains[b]) && forall s: nat :: s in chains[b] ==> s in bucket && bucket[s] == b
  }

  /** Each live slot is on exactly one chain, that of its bucket. */
  ghost predicate Threaded(head: seq<int>, next: seq<int>, chains: seq<seq<nat>>, bucket: map<nat, nat>) {
    && |chains| == |head|
    && (forall b: nat :: b < |head| ==> OnChain(head, next, chains, bucket, b))
    && (forall s: nat :: s in bucket ==> s < |next| && bucket[s] < |head| && s in chains[bucket[s]])
  }

  /** Putting a slot at the front of a chain. */
  lemma LinkKeeps(head: seq<int>, next: seq<int>, chains: seq<seq<nat>>, bucket: map<nat, nat>, b: nat, s: nat)
    requires Threaded(head, next, chains, bucket) && b < |head| && s < |next| && s !in bucket
    ensures Threaded(head[b := s], next[s := head[b]], chains[b := [s] + chains[b]], bucket[s := b])
  {
    var head', next', chains', bucket' := head[b := s], next[s := head[b]], chains[b := [s] + chains[b]], bucket[s := b];
    forall a: nat | a < |head| ensures OnChain(head', next', chains', bucket', a) {
      assert OnChain(head, next, chains, bucket, a);
      assert s !in chains[a];
      ChainFrame(next, next', head[a], chains[a]);
      if a == b { assert ([s] + chains[b])[1..] == chains[b]; }
    }
    forall t: nat | t in bucket' ensures t in chains'[bucket'[t]] {
      if t != s { assert t in chains[bucket[t]]; }
    }
  }

  /** Taking a slot out of its chain. */
  lemma UnlinkKeeps(head: seq<int>, next: seq<int>, chains: seq<seq<nat>>, bucket: map<nat, nat>, b: nat, k: nat,
                    head': seq<int>, next': seq<int>)
    requires Threaded(head, next, chains, bucket) && b < |head| == |head'| && k < |chains[b]| && |next| == |next'|
    requires chains[b][k] < |next| && (k > 0 ==> chains[b][k - 1] < |next| && next'[chains[b][k - 1]] == next[chains[b][k]])
    requires head' == if k == 0 then head[b := next[chains[b][0]]] else head
    requires forall s: nat :: s < |next| && s != chains[b][k] && (k > 0 ==> s != chains[b][k - 1]) ==> next'[s] == next[s]
    ensures Threaded(head', next', chains[b := Cut(chains[b], k)], bucket - {chains[b][k]})
  {
    var c, chains', bucket' := chains[b], chains[b := Cut(chains[b], k)], bucket - {chains[b][k]};
    assert OnChain(head, next, chains, bucket, b);
    ChainSlots(next, head[b], c, k);
    ChainCut(next, head[b], c, k, next');
    assert c[k] in c && (k > 0 ==> c[k - 1] in c);
    forall a: nat | a < |head| ensures OnChain(head', next', chains', bucket', a) {
      if a != b {
        assert OnChain(head, next, chains, bucket, a);
        ChainFrame(next, next', head[a], chains[a]);
      }
    }
    forall t: nat | t in bucket' ensures t in chains'[bucket'[t]] {
      assert t in chains[bucket[t]];
    }
  }

  function Slots(c: seq<nat>): set<nat> {
    set s | s in c
  }

  /** A chain is no longer than the slots there are. */
  lemma {:induction false} ChainShort(next: seq<int>, h: int, c: seq<nat>, n: nat)
    requires Chain(next, h, c) && forall s :: s in c ==> s < n
    ensures |Slots(c)| == |c| <= n
    decreases |c|
  {
    if |c| > 0 {
      assert forall s :: s in c[1..] ==> s in c;
      ChainShort(next, next[c[0]], c[1..], n);
      assert c == [c[0]] + c[1..];
      assert Slots(c) == Slots(c[1..]) + {c[0]};
    } else {
      assert Slots(c) == {};
    }
    Below(Slots(c), n);
  }

  lemma {:induction false} Below(S: set<nat>, n: nat)
    requires forall s :: s in S ==> s < n
    ensures |S| <= n
  {
    if n > 0 { Below(S - {n - 1}, n - 1); }
  }

  /** Which bucket each live slot belongs to. */
  function BucketMap<E(!new), K>(es: seq<E>, key: E -> K, hash: K -> nat, nb: nat): (m: map<nat, nat>)
    requires nb > 0
    ensures forall s: nat :: s in m <==> s < |es|
    ensures forall s: nat :: s < |es| ==> m[s] == hash(key(es[s])) % nb
  {
    map s: nat | s < |es| :: hash(key(es[s])) % nb
  }

  /** What removing entry i by moving the last one into its place leaves. */
  function SwapOut<E>(es: seq<E>, i: nat): seq<E>
    requires i < |es|
  {
    if i == |es| - 1 then es[..i] else es[..|es| - 1][i := es[|es| - 1]]
  }

  class Table<E(!new), K(==,!new)> {
    const entries: array<E>
    const head: array<int>
    const next: array<int>
    const key: E -> K
    const hash: K -> nat
    var n: nat
    ghost var chains: seq<seq<nat>>

    ghost predicate Shaped()
      reads this
    {
      entries.Length == next.Length && head.Length > 0 && n <= entries.Length
      && head != next && (entries as object) != head && (entries as object) != next
    }

    /** The index names every live entry, once, under the bucket of its key. */
    ghost predicate Valid()
      reads this, entries, head, next
    {
      Shaped() && Threaded(head[..], next[..], chains, BucketMap(entries[..n], key, hash, head.Length))
    }

    ghost function Entries(): seq<E>
      reads this, entries
    {
      if n <= entries.Length then entries[..n] else []
    }

    lemma Live()
      requires Valid()
      ensures n <= entries.Length && |Entries()| == n && forall i: nat :: i < n ==> Entries()[i] == entries[i]
    {
    }

    function Bucket(k: K): (b: nat)
      requires head.Length > 0
      ensures b < head.Length
    {
      hash(k) % head.Length
    }

    constructor (cap: nat, nb: nat, blank: E, k: E -> K, h: K -> nat)
      requires nb > 0
      ensures Valid() && Entries() == [] && entries.Length == cap && key == k && hash == h
      ensures fresh(entries) && fresh(head) && fresh(next)
    {
      entries := new E[cap](_ => blank);
      head, next := new int[nb](_ => NONE), new int[cap](_ => NONE);
      key, hash, n := k, h, 0;
      chains := seq(nb, _ => []);
    }

    /** Puts a slot at the front of a bucket's chain. */
    method Link(b: nat, s: nat, ghost bucket: map<nat, nat>)
      requires Shaped() && b < head.Length && s < next.Length && s !in bucket
      requires Threaded(head[..], next[..], chains, bucket)
      modifies this`chains, head, next
      ensures Threaded(head[..], next[..], chains, bucket[s := b])
    {
      hide Threaded;
      LinkKeeps(head[..], next[..], chains, bucket, b, s);
      ghost var h, x := head[..], next[..];
      next[s] := head[b];
      head[b] := s;
      assert head[..] == h[b := s] && next[..] == x[s := h[b]];
      ThreadedSize(h, x, chains, bucket);
      chains := chains[b := [s] + chains[b]];
    }

    /** Takes a live slot out of its bucket's chain. The walk's bound never stops it. */
    method Unlink(b: nat, s: nat, ghost bucket: map<nat, nat>)
      requires Shaped() && s in bucket && bucket[s] == b && b < head.Length
      requires Threaded(head[..], next[..], chains, bucket)
      modifies this`chains, head, next
      ensures Threaded(head[..], next[..], chains, bucket - {s})
    {
      hide Threaded, Chain;
      ghost var h, x := head[..], next[..];
      ghost var c := ChainOf(h, x, chains, bucket, b, s);
      var prev, cur, guard := NONE, head[b], 0;
      ghost var k: nat :| k < |c| && c[k] == s;
      ghost var j: nat := 0;
      ChainPlace(x, h[b], c, 0);
      while cur != NONE && guard <= next.Length
        invariant head[..] == h && next[..] == x && chains == old(chains) && j <= k && guard == j
        invariant cur == (if j < |c| then c[j] else NONE) && prev == (if j == 0 then NONE else c[j - 1])
        decreases |c| - j
      {
        guard := guard + 1;
        ChainPlace(x, h[b], c, j);
        ChainSlots(x, h[b], c, j);
        if cur == s {
          if prev == NONE { head[b] := next[s]; } else { next[prev] := next[s]; }
          next[s] := NONE;
          UnlinkKeeps(h, x, chains, bucket, b, j, head[..], next[..]);
          ThreadedSize(h, x, chains, bucket);
          chains := chains[b := Cut(c, j)];
          return;
        }
        prev, cur := cur, next[cur];
        j := j + 1;
      }
      assert false;
    }

    /** The slot of a key, or -1: what a scan of the whole table would say. */
    method Find(k: K) returns (r: int)
      requires Valid()
      ensures r == -1 || (0 <= r < n && key(entries[r]) == k)
      ensures r == -1 <==> forall i: nat :: i < n ==> key(entries[i]) != k
    {
      hide Threaded, Chain;
      ghost var x, c := next[..], chains;
      var b := Bucket(k);
      ghost var l := LiveChain(head[..], next[..], chains, BucketMap(entries[..n], key, hash, head.Length), b, n);
      r := head[b];
      var guard := 0;
      ghost var j: nat := 0;
      ChainPlace(x, r, l, 0);
      while r != NONE && guard <= n
        invariant j <= |l| && guard == j && r == (if j < |l| then l[j] else NONE)
        invariant forall i: nat :: i < j ==> l[i] < n && key(entries[l[i]]) != k
        decreases |l| - j
      {
        guard := guard + 1;
        ChainPlace(x, head[b], l, j);
        assert l[j] in l;
        if r < n && key(entries[r]) == k { return; }
        r := next[r];
        j := j + 1;
      }
      r := -1;
      forall i: nat | i < n ensures key(entries[i]) != k {
        if hash(key(entries[i])) % head.Length == b {
          OnIt(head[..], next[..], chains, BucketMap(entries[..n], key, hash, head.Length), i);
        }
      }
    }

    /** A new entry after the live ones. */
    method Add(e: E)
      requires Valid() && n < entries.Length
      modifies this, entries, head, next
      ensures Valid() && Entries() == old(Entries()) + [e]
    {
      hide Threaded;
      ghost var es := entries[..n];
      entries[n] := e;
      Link(Bucket(key(e)), n, BucketMap(es, key, hash, head.Length));
      n := n + 1;
      assert entries[..n] == es + [e];
      MapNext(es, e, key, hash, head.Length);
    }

    /** Changes an entry but not its key. */
    method Set(i: nat, e: E)
      requires Valid() && i < n && key(e) == key(entries[i])
      modifies entries
      ensures Valid() && Entries() == old(Entries())[i := e]
    {
      hide Threaded;
      ghost var es := entries[..n];
      entries[i] := e;
      assert entries[..n] == es[i := e];
      assert BucketMap(es[i := e], key, hash, head.Length) == BucketMap(es, key, hash, head.Length);
    }

    /** Removal by moving the last entry into the place: both unlinked first, the moved one linked again. */
    method RemoveAt(i: nat)
      requires Valid() && i < n
      modifies this, entries, head, next
      ensures Valid() && Entries() == SwapOut(old(Entries()), i)
    {
      hide Threaded;
      ghost var es := entries[..n];
      ghost var m := BucketMap(es, key, hash, head.Length);
      var last := n - 1;
      Unlink(Bucket(key(entries[i])), i, m);
      if last != i { Unlink(Bucket(key(entries[last])), last, m - {i}); }
      entries[i] := entries[last];
      n := n - 1;
      if last != i { Link(Bucket(key(entries[i])), i, m - {i} - {last}); }
      assert entries[..n] == SwapOut(es, i);
      MapSwapOut(es, i, key, hash, head.Length);
    }

    /** The index built again from nothing, over the first m entries. */
    method Rebuild(m: nat)
      requires Shaped() && m <= entries.Length
      modifies this, head, next
      ensures Valid() && n == m && Entries() == old(entries[..m])
    {
      hide Threaded;
      ghost var es := entries[..m];
      for b := 0 to head.Length
        modifies head
        invariant forall a: nat :: a < b ==> head[a] == NONE
      {
        head[b] := NONE;
      }
      for s := 0 to next.Length
        modifies next
        invariant forall a: nat :: a < s ==> next[a] == NONE
      {
        next[s] := NONE;
      }
      chains := seq(head.Length, _ => []);
      n := m;
      NoneThreaded(head[..], next[..], chains);
      NoEntries(es, key, hash, head.Length);
      for s := 0 to m
        invariant Shaped() && n == m && entries[..m] == es
        invariant Threaded(head[..], next[..], chains, BucketMap(es[..s], key, hash, head.Length))
      {
        Link(Bucket(key(entries[s])), s, BucketMap(es[..s], key, hash, head.Length));
        MapNext(es[..s], es[s], key, hash, head.Length);
        assert es[..s + 1] == es[..s] + [es[s]] && entries[s] == es[s];
      }
      assert es[..m] == es;
    }
  }

  lemma NoneThreaded(head: seq<int>, next: seq<int>, chains: seq<seq<nat>>)
    requires |chains| == |head| && (forall b: nat :: b < |head| ==> head[b] == NONE && chains[b] == [])
    ensures Threaded(head, next, chains, map[])
  {
  }

  lemma NoEntries<E(!new), K>(es: seq<E>, key: E -> K, hash: K -> nat, nb: nat)
    requires nb > 0
    ensures BucketMap(es[..0], key, hash, nb) == map[]
  {
  }

  lemma MapNext<E(!new), K>(es: seq<E>, e: E, key: E -> K, hash: K -> nat, nb: nat)
    requires nb > 0
    ensures BucketMap(es + [e], key, hash, nb) == BucketMap(es, key, hash, nb)[|es| := hash(key(e)) % nb]
  {
  }

  lemma MapSwapOut<E(!new), K>(es: seq<E>, i: nat, key: E -> K, hash: K -> nat, nb: nat)
    requires nb > 0 && i < |es|
    ensures var m, last := BucketMap(es, key, hash, nb), |es| - 1;
      BucketMap(SwapOut(es, i), key, hash, nb)
      == if i == last then m - {i} else (m - {i} - {last})[i := hash(key(es[last])) % nb]
  {
  }

  /** A bucket's chain: live slots only, so no longer than there are. */
  lemma LiveChain(head: seq<int>, next: seq<int>, chains: seq<seq<nat>>, bucket: map<nat, nat>, b: nat, n: nat) returns (c: seq<nat>)
    requires Threaded(head, next, chains, bucket) && b < |head| && forall s: nat :: s in bucket ==> s < n
    ensures |chains| == |head| && c == chains[b] && Chain(next, head[b], c) && |c| <= n
    ensures forall s: nat :: s in c ==> s < n
  {
    c := chains[b];
    assert OnChain(head, next, chains, bucket, b);
    ChainShort(next, head[b], c, n);
  }

  lemma OnIt(head: seq<int>, next: seq<int>, chains: seq<seq<nat>>, bucket: map<nat, nat>, s: nat)
    requires Threaded(head, next, chains, bucket) && s in bucket
    ensures |chains| == |head| && bucket[s] < |head| && s in chains[bucket[s]]
  {
  }

  /** Where a live slot is found, and how far a walk can go. */
  lemma ChainOf(head: seq<int>, next: seq<int>, chains: seq<seq<nat>>, bucket: map<nat, nat>, b: nat, s: nat) returns (c: seq<nat>)
    requires Threaded(head, next, chains, bucket) && s in bucket && bucket[s] == b && b < |head|
    ensures |chains| == |head| && c == chains[b] && Chain(next, head[b], c) && s in c && |c| <= |next|
  {
    c := chains[b];
    assert OnChain(head, next, chains, bucket, b);
    ChainShort(next, head[b], c, |next|);
  }

  lemma {:induction false} ChainPlace(next: seq<int>, h: int, c: seq<nat>, j: nat)
    requires Chain(next, h, c) && j <= |c|
    ensures h == (if |c| == 0 then NONE else c[0])
    ensures j < |c| ==> c[j] < |next| && next[c[j]] == (if j + 1 < |c| then c[j + 1] else NONE)
    ensures 0 < j < |c| ==> c[j - 1] < |next|
    decreases |c|
  {
    if |c| > 0 && j < |c| {
      if j > 0 {
        ChainPlace(next, next[c[0]], c[1..], j - 1);
      } else {
        ChainPlace(next, next[c[0]], c[1..], 0);
      }
    }
  }

  lemma ThreadedSize(head: seq<int>, next: seq<int>, chains: seq<seq<nat>>, bucket: map<nat, nat>)
    requires Threaded(head, next, chains, bucket)
    ensures |chains| == |head|
  {
  }

  /** The entries that are not marked, in order. */
  function Kept<T>(s: seq<T>, mark: seq<bool>): (r: seq<T>)
    requires |s| == |mark|
    ensures |r| <= |s|
  {
    if |s| == 0 then []
    else Kept(s[..|s| - 1], mark[..|s| - 1]) + if mark[|s| - 1] then [] else [s[|s| - 1]]
  }

  /** Where the kept entries stood. */
  function KeptFrom(mark: seq<bool>): (r: seq<nat>)
    ensures |r| <= |mark|
    ensures forall i: nat :: i < |r| ==> i <= r[i] < |mark| && !mark[r[i]]
    ensures forall i: nat, j: nat :: i < j < |r| ==> r[i] < r[j]
    ensures forall k: nat :: k < |mark| && !mark[k] ==> k in r
  {
    if |mark| == 0 then []
    else
      var r := KeptFrom(mark[..|mark| - 1]);
      if mark[|mark| - 1] then r else r + [|mark| - 1]
  }

  lemma {:induction false} KeptAre<T>(s: seq<T>, mark: seq<bool>)
    requires |s| == |mark|
    ensures |Kept(s, mark)| == |KeptFrom(mark)|
    ensures forall i: nat :: i < |Kept(s, mark)| ==> Kept(s, mark)[i] == s[KeptFrom(mark)[i]]
  {
    if |s| > 0 {
      var t, m := s[..|s| - 1], mark[..|s| - 1];
      KeptAre(t, m);
      assert forall i: nat :: i < |Kept(t, m)| ==> t[KeptFrom(m)[i]] == s[KeptFrom(m)[i]];
    }
  }

  lemma KeptNext<T>(s: seq<T>, mark: seq<bool>, i: nat)
    requires |s| == |mark| && i < |s|
    ensures Kept(s[..i + 1], mark[..i + 1]) == Kept(s[..i], mark[..i]) + if mark[i] then [] else [s[i]]
    ensures KeptFrom(mark[..i + 1]) == KeptFrom(mark[..i]) + if mark[i] then [] else [i]
  {
    assert s[..i + 1][..i] == s[..i] && mark[..i + 1][..i] == mark[..i];
  }

  lemma NothingKept<T>(s: seq<T>, mark: seq<bool>)
    requires |s| == |mark|
    ensures Kept(s[..0], mark[..0]) == []
  {
  }

  /** Compaction in place: the unmarked entries move up, in order. */
  method Compact<T>(a: array<T>, n: nat, mark: seq<bool>) returns (w: nat)
    requires n == |mark| <= a.Length
    modifies a
    ensures w <= n && a[..w] == Kept(old(a[..n]), mark)
  {
    hide Kept, KeptFrom;
    ghost var s := a[..n];
    w := 0;
    NothingKept(s, mark);
    for i := 0 to n
      invariant w <= i && a[..w] == Kept(s[..i], mark[..i]) && a[i..n] == s[i..]
    {
      KeptNext(s, mark, i);
      ghost var rest := a[i..n];
      assert a[i] == s[i] by { assert rest[0] == s[i..][0]; }
      if !mark[i] {
        a[w] := a[i];
        w := w + 1;
        assert a[..w] == Kept(s[..i], mark[..i]) + [s[i]];
      }
      assert a[i + 1..n] == rest[1..];
    }
    assert s[..n] == s && mark[..n] == mark;
  }
}
