/** Removing repeated scripts through an open-addressing table on their hashes. */
module ScriptTable {
  import opened Bytes
  import opened Words
  import Sums

  type Script = seq<byte>

  const EMPTY := -1

  /** The scripts of a list without their repetitions, each where it first stood. */
  function Distinct(s: seq<Script>): (r: seq<Script>)
    ensures |r| <= |s|
    ensures forall x :: x in r <==> x in s
  {
    if |s| == 0 then []
    else
      var d, x := Distinct(s[..|s| - 1]), s[|s| - 1];
      assert s == s[..|s| - 1] + [x];
      if x in d then d else d + [x]
  }

  ghost predicate NoRepeat(s: seq<Script>) {
    forall i: nat, j: nat :: i < j < |s| ==> s[i] != s[j]
  }

  lemma {:induction false} DistinctNoRepeat(s: seq<Script>)
    ensures NoRepeat(Distinct(s))
  {
    if |s| > 0 { DistinctNoRepeat(s[..|s| - 1]); }
  }

  /** The slot t places past a hash's own, around a table of m. */
  function Slot(home: nat, t: nat, m: nat): (p: nat)
    requires home < m
    ensures p < m
  {
    if t == 0 then home else (Slot(home, t - 1, m) + 1) % m
  }

  lemma {:induction false} SlotValue(home: nat, t: nat, m: nat)
    requires home < m && t < m
    ensures Slot(home, t, m) == if home + t < m then home + t else home + t - m
  {
    if t > 0 {
      SlotValue(home, t - 1, m);
      Wrap(Slot(home, t - 1, m), m);
    }
  }

  lemma Wrap(p: nat, m: nat)
    requires p < m
    ensures (p + 1) % m == if p + 1 < m then p + 1 else 0
  {
    if p + 1 < m {
      assert (p + 1) / m == 0;
    }
  }

  /** Script j of d is found from its hash's slot without meeting an empty one. */
  ghost predicate Reached(tab: seq<int>, home: nat, t: nat, j: int)
    requires home < |tab|
  {
    t < |tab| && tab[Slot(home, t, |tab|)] == j && forall u: nat :: u < t ==> tab[Slot(home, u, |tab|)] != EMPTY
  }

  /** The table holds the scripts of d, each where a search for it ends. */
  ghost predicate Holds(tab: seq<int>, d: seq<Script>, hash: Script -> Word64, dist: seq<nat>, used: set<nat>) {
    && |tab| > 0 && |dist| == |d| == |used|
    && (forall p: nat :: p < |tab| ==> tab[p] == EMPTY || 0 <= tab[p] < |d|)
    && (forall p: nat :: p in used <==> p < |tab| && tab[p] != EMPTY)
    && (forall j: nat :: j < |d| ==> Reached(tab, hash(d[j]) % |tab|, dist[j], j))
  }

  /** A search has passed k slots, none empty and none holding the script. */
  ghost predicate Passed(tab: seq<int>, d: seq<Script>, home: nat, k: nat, x: Script)
    requires home < |tab|
  {
    forall u: nat :: u < k ==> 0 <= tab[Slot(home, u, |tab|)] < |d| && d[tab[Slot(home, u, |tab|)]] != x
  }

  /** The slots a search has passed. */
  function Visited(home: nat, k: nat, m: nat): set<nat>
    requires home < m
  {
    if k == 0 then {} else Visited(home, k - 1, m) + {Slot(home, k - 1, m)}
  }

  lemma SlotsDiffer(home: nat, u: nat, v: nat, m: nat)
    requires home < m && u < v < m
    ensures Slot(home, u, m) != Slot(home, v, m)
  {
    hide Slot;
    SlotValue(home, u, m); SlotValue(home, v, m);
  }

  lemma {:induction false} VisitedSlot(home: nat, k: nat, m: nat, p: nat) returns (u: nat)
    requires home < m && p in Visited(home, k, m)
    ensures u < k && p == Slot(home, u, m)
  {
    hide Slot;
    if p == Slot(home, k - 1, m) { u := k - 1; } else { u := VisitedSlot(home, k - 1, m, p); }
  }

  lemma {:induction false} VisitedSize(home: nat, k: nat, m: nat)
    requires home < m && k <= m
    ensures |Visited(home, k, m)| == k
  {
    hide Slot;
    if k > 0 {
      VisitedSize(home, k - 1, m);
      if Slot(home, k - 1, m) in Visited(home, k - 1, m) {
        var u := VisitedSlot(home, k - 1, m, Slot(home, k - 1, m));
        SlotsDiffer(home, u, k - 1, m);
      }
    }
  }

  /** A search passes no more slots than there are scripts in the table, so it ends. */
  lemma SearchEnds(tab: seq<int>, d: seq<Script>, hash: Script -> Word64, dist: seq<nat>, used: set<nat>, home: nat, k: nat, x: Script)
    requires Holds(tab, d, hash, dist, used) && home < |tab| && k <= |tab| && Passed(tab, d, home, k, x)
    ensures k <= |d|
  {
    hide Slot, Visited;
    VisitedSize(home, k, |tab|);
    forall p | p in Visited(home, k, |tab|) ensures p in used {
      var u := VisitedSlot(home, k, |tab|, p);
      assert tab[Slot(home, u, |tab|)] != EMPTY;
    }
    Sums.SubsetSize(Visited(home, k, |tab|), used);
  }

  /** An empty slot at the end of a search means the script is new. */
  lemma SearchMisses(tab: seq<int>, d: seq<Script>, hash: Script -> Word64, dist: seq<nat>, used: set<nat>, k: nat, x: Script)
    requires Holds(tab, d, hash, dist, used) && k < |tab|
    requires Passed(tab, d, hash(x) % |tab|, k, x) && tab[Slot(hash(x) % |tab|, k, |tab|)] == EMPTY
    ensures x !in d
  {
    forall j: nat | j < |d| ensures d[j] != x {
      assert Reached(tab, hash(d[j]) % |tab|, dist[j], j);
    }
  }

  /** A new script put into the empty slot its search ended at. */
  lemma Insert(tab: seq<int>, d: seq<Script>, hash: Script -> Word64, dist: seq<nat>, used: set<nat>, k: nat, x: Script)
    requires Holds(tab, d, hash, dist, used) && k < |tab|
    requires Passed(tab, d, hash(x) % |tab|, k, x) && tab[Slot(hash(x) % |tab|, k, |tab|)] == EMPTY
    ensures var p := Slot(hash(x) % |tab|, k, |tab|);
      Holds(tab[p := |d|], d + [x], hash, dist + [k], used + {p})
  {
    hide Reached, Passed, Slot;
    var home := hash(x) % |tab|;
    var p := Slot(home, k, |tab|);
    var tab', d', dist' := tab[p := |d|], d + [x], dist + [k];
    forall j: nat | j < |d'| ensures Reached(tab', hash(d'[j]) % |tab'|, dist'[j], j) {
      if j < |d| {
        assert Reached(tab, hash(d[j]) % |tab|, dist[j], j);
        StillReached(tab, hash(d[j]) % |tab|, dist[j], j, p, |d|);
      } else {
        NowReached(tab, d, home, k, x, |d|);
      }
    }
  }

  lemma StillReached(tab: seq<int>, home: nat, t: nat, j: nat, p: nat, v: nat)
    requires home < |tab| && p < |tab| && tab[p] == EMPTY && Reached(tab, home, t, j)
    ensures Reached(tab[p := v], home, t, j)
  {
  }

  lemma NowReached(tab: seq<int>, d: seq<Script>, home: nat, k: nat, x: Script, v: nat)
    requires home < |tab| && k < |tab| && Passed(tab, d, home, k, x)
    ensures Reached(tab[Slot(home, k, |tab|) := v], home, k, v)
  {
  }

  /** Looks a script up: where it stands, or the empty slot where it would go. */
  method Search(tab: array<int>, el: array<Script>, h: array<nat>, hash: Script -> Word64, x: Script,
                ghost d: seq<Script>, ghost dist: seq<nat>, ghost used: set<nat>)
    returns (found: bool, p: nat, ghost k: nat)
    requires Holds(tab[..], d, hash, dist, used) && |d| < tab.Length
    requires |d| <= el.Length && |d| <= h.Length && el[..|d|] == d
    requires forall j: nat :: j < |d| ==> h[j] == hash(d[j])
    ensures found <==> x in d
    ensures !found ==> k < tab.Length && p == Slot(hash(x) % tab.Length, k, tab.Length) && tab[p] == EMPTY
    ensures !found ==> Passed(tab[..], d, hash(x) % tab.Length, k, x)
  {
    hide Slot;
    var hv := hash(x);
    var home := hv % tab.Length;
    p, k := home, 0;
    SlotHome(home, tab.Length);
    while tab[p] != EMPTY
      invariant k < tab.Length && p == Slot(home, k, tab.Length) && Passed(tab[..], d, home, k, x)
      decreases tab.Length - k
    {
      var j := tab[p];
      assert tab[..][p] == j;
      assert el[..|d|][j] == d[j];
      if h[j] == hv && el[j] == x {
        return true, p, k;
      }
      SlotNext(home, k, tab.Length);
      SearchEnds(tab[..], d, hash, dist, used, home, k + 1, x);
      k := k + 1;
      p := (p + 1) % tab.Length;
    }
    SearchMisses(tab[..], d, hash, dist, used, k, x);
    found := false;
  }

  lemma SlotHome(home: nat, m: nat)
    requires home < m
    ensures Slot(home, 0, m) == home
  {
  }

  lemma SlotNext(home: nat, t: nat, m: nat)
    requires home < m
    ensures Slot(home, t + 1, m) == (Slot(home, t, m) + 1) % m
  {
  }

  /** A power of two that leaves the table at least half empty. */
  method TableSize(n: nat) returns (tsz: nat)
    ensures tsz >= 2 * n + 2
  {
    tsz := 1;
    while tsz < 2 * n + 2
      invariant tsz > 0
      decreases 2 * n + 2 - tsz
    {
      tsz := tsz * 2;
    }
  }

  /** Takes a script in at the end of the distinct ones, unless it is among them. */
  method Offer(tab: array<int>, el: array<Script>, h: array<nat>, hash: Script -> Word64, w: nat, x: Script,
               ghost dist: seq<nat>, ghost used: set<nat>)
    returns (w': nat, ghost dist': seq<nat>, ghost used': set<nat>)
    requires w < el.Length && w < h.Length && w < tab.Length
    requires Holds(tab[..], el[..w], hash, dist, used) && forall j: nat :: j < w ==> h[j] == hash(el[j])
    modifies tab, el, h
    ensures w <= w' <= w + 1 && Holds(tab[..], el[..w'], hash, dist', used')
    ensures el[..w'] == if x in old(el[..w]) then old(el[..w]) else old(el[..w]) + [x]
    ensures forall j: nat :: w' <= j < el.Length ==> el[j] == old(el[j])
    ensures forall j: nat :: j < w' ==> h[j] == hash(el[j])
  {
    hide Holds, Slot, Passed, EMPTY;
    ghost var d := el[..w];
    assert forall j: nat :: j < w ==> d[j] == el[j];
    ghost var k: nat;
    var found, p;
    found, p, k := Search(tab, el, h, hash, x, d, dist, used);
    w', dist', used' := w, dist, used;
    if !found {
      Insert(tab[..], d, hash, dist, used, k, x);
      ghost var t := tab[..];
      tab[p] := w;
      el[w] := x;
      h[w] := hash(x);
      w', dist', used' := w + 1, dist + [k], used + {p};
      assert tab[..] == t[p := |d|];
      assert el[..w'] == d + [x];
    }
  }

  /** The first n scripts of el without repetitions, at its front, and their hashes at the front of h. */
  method Deduplicate(el: array<Script>, n: nat, hash: Script -> Word64, h: array<nat>) returns (w: nat)
    requires n <= el.Length && n <= h.Length
    modifies el, h
    ensures w <= n && el[..w] == Distinct(old(el[..n]))
    ensures forall j: nat :: j < w ==> h[j] == hash(el[j])
  {
    hide Holds, Distinct, EMPTY;
    ghost var s := el[..n];
    var tsz := TableSize(n);
    var tab := new int[tsz](_ => EMPTY);
    w := 0;
    ghost var dist: seq<nat>, used: set<nat> := [], {};
    EmptyTable(tab[..], hash);
    DistinctStep(s, 0);
    assert el[..0] == [];
    for i := 0 to n
      invariant w <= i && el[..w] == Distinct(s[..i]) && el[i..n] == s[i..]
      invariant forall j: nat :: j < w ==> h[j] == hash(el[j])
      invariant Holds(tab[..], el[..w], hash, dist, used)
    {
      ghost var rest := el[i..n];
      var x := el[i];
      assert x == s[i] by { assert rest[0] == s[i..][0]; }
      DistinctStep(s, i);
      w, dist, used := Offer(tab, el, h, hash, w, x, dist, used);
      forall j: nat | i < j < n ensures el[j] == rest[j - i] { }
      assert el[i + 1..n] == rest[1..];
    }
    assert s[..n] == s;
  }

  lemma EmptyTable(tab: seq<int>, hash: Script -> Word64)
    requires |tab| > 0 && forall p: nat :: p < |tab| ==> tab[p] == EMPTY
    ensures Holds(tab, [], hash, [], {})
  {
  }

  lemma DistinctStep(s: seq<Script>, i: nat)
    requires i <= |s|
    ensures i == 0 ==> Distinct(s[..i]) == []
    ensures i < |s| ==> Distinct(s[..i + 1]) == if s[i] in Distinct(s[..i]) then Distinct(s[..i]) else Distinct(s[..i]) + [s[i]]
  {
    if i < |s| { assert s[..i + 1][..i] == s[..i]; }
  }
}
