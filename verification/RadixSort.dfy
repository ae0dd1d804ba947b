/** The byte-wise radix sort: eight stable counting passes through a scratch array. */
module RadixSort {
  import opened Words

  /** The byte of x a pass looks at, when p is 256 to the power of the pass. */
  function Digit(x: nat, p: nat): (d: nat)
    requires p > 0
    ensures d < 256
  {
    x / p % 256
  }

  /** The elements whose digit is b, in order. */
  function Bucket(s: seq<nat>, p: nat, b: nat): (r: seq<nat>)
    requires p > 0
    ensures |r| <= |s|
  {
    if |s| == 0 then []
    else Bucket(s[..|s| - 1], p, b) + if Digit(s[|s| - 1], p) == b then [s[|s| - 1]] else []
  }

  /** The buckets below k, one after the other. */
  function Buckets(s: seq<nat>, p: nat, k: nat): seq<nat>
    requires p > 0
  {
    if k == 0 then [] else Buckets(s, p, k - 1) + Bucket(s, p, k - 1)
  }

  lemma {:induction false} BucketCounts(s: seq<nat>, p: nat, b: nat, x: nat)
    requires p > 0
    ensures multiset(Bucket(s, p, b))[x] == if Digit(x, p) == b then multiset(s)[x] else 0
  {
    if |s| > 0 {
      var t, y := s[..|s| - 1], s[|s| - 1];
      assert s == t + [y];
      BucketCounts(t, p, b, x);
    }
  }

  lemma {:induction false} BucketsCount(s: seq<nat>, p: nat, k: nat, x: nat)
    requires p > 0
    ensures multiset(Buckets(s, p, k))[x] == if Digit(x, p) < k then multiset(s)[x] else 0
  {
    hide Digit, Bucket;
    if k > 0 {
      BucketsCount(s, p, k - 1, x);
      BucketCounts(s, p, k - 1, x);
    }
  }

  /** A pass keeps the elements. */
  lemma BucketsPermute(s: seq<nat>, p: nat)
    requires p > 0
    ensures multiset(Buckets(s, p, 256)) == multiset(s)
    ensures |Buckets(s, p, 256)| == |s|
  {
    hide Buckets;
    forall x: nat ensures multiset(Buckets(s, p, 256))[x] == multiset(s)[x] { BucketsCount(s, p, 256, x); }
    assert multiset(Buckets(s, p, 256)) == multiset(s);
    assert |multiset(Buckets(s, p, 256))| == |multiset(s)|;
  }

  /** In order by the value below m. */
  ghost predicate SortedBelow(s: seq<nat>, m: nat)
    requires m > 0
  {
    forall i: nat, j: nat :: i < j < |s| ==> s[i] % m <= s[j] % m
  }

  lemma {:induction false} BucketMembers(s: seq<nat>, p: nat, b: nat)
    requires p > 0
    ensures forall x :: x in Bucket(s, p, b) ==> x in s && Digit(x, p) == b
  {
    if |s| > 0 { BucketMembers(s[..|s| - 1], p, b); }
  }

  lemma {:induction false} BucketSorted(s: seq<nat>, p: nat, b: nat, m: nat)
    requires p > 0 && m > 0 && SortedBelow(s, m)
    ensures SortedBelow(Bucket(s, p, b), m)
  {
    hide Digit;
    if |s| > 0 {
      var t, y := s[..|s| - 1], s[|s| - 1];
      BucketSorted(t, p, b, m);
      BucketMembers(t, p, b);
      var r := Bucket(t, p, b);
      forall i: nat | i < |r| ensures r[i] % m <= y % m {
        assert r[i] in t;
        var k: nat :| k < |t| && t[k] == r[i];
        assert s[k] % m <= s[|s| - 1] % m;
      }
    }
  }

  lemma DigitAndRest(x: nat, p: nat)
    requires p > 0
    ensures x % (256 * p) == x % p + p * Digit(x, p)
  {
    DivDiv(x, p, 256);
  }

  lemma DigitOrder(x: nat, y: nat, p: nat)
    requires p > 0
    requires Digit(x, p) < Digit(y, p) || (Digit(x, p) == Digit(y, p) && x % p <= y % p)
    ensures x % (256 * p) <= y % (256 * p)
  {
    hide Digit;
    DigitAndRest(x, p); DigitAndRest(y, p);
    if Digit(x, p) < Digit(y, p) { MulMono(p, Digit(x, p) + 1, Digit(y, p)); }
  }

  /** Stability: passes over the lower bytes are not undone. */
  lemma {:induction false} BucketsSorted(s: seq<nat>, p: nat, k: nat)
    requires p > 0 && SortedBelow(s, p) && k <= 256
    ensures SortedBelow(Buckets(s, p, k), 256 * p)
    ensures forall x :: x in Buckets(s, p, k) ==> Digit(x, p) < k
  {
    hide Digit, Bucket;
    if k > 0 {
      BucketsSorted(s, p, k - 1);
      BucketSorted(s, p, k - 1, p);
      BucketMembers(s, p, k - 1);
      var a, c := Buckets(s, p, k - 1), Bucket(s, p, k - 1);
      forall i: nat, j: nat | i < j < |a + c|
        ensures (a + c)[i] % (256 * p) <= (a + c)[j] % (256 * p)
      {
        if j >= |a| {
          assert (a + c)[j] in c;
          if i < |a| { assert (a + c)[i] in a; } else { assert (a + c)[i] in c; }
          DigitOrder((a + c)[i], (a + c)[j], p);
        }
      }
    }
  }

  lemma {:induction false} BucketPrefix(s: seq<nat>, p: nat, b: nat, i: nat)
    requires p > 0 && i <= |s|
    ensures |Bucket(s[..i], p, b)| <= |Bucket(s, p, b)|
    ensures i < |s| ==> Bucket(s[..i + 1], p, b) == Bucket(s[..i], p, b) + if Digit(s[i], p) == b then [s[i]] else []
    decreases |s| - i
  {
    hide Digit;
    if i < |s| {
      assert s[..i + 1][..i] == s[..i];
      BucketPrefix(s, p, b, i + 1);
    } else {
      assert s[..i] == s;
    }
  }

  lemma {:induction false} BucketsGrow(s: seq<nat>, p: nat, a: nat, b: nat)
    requires p > 0 && a <= b
    ensures |Buckets(s, p, a)| <= |Buckets(s, p, b)|
  {
    if a < b { BucketsGrow(s, p, a, b - 1); }
  }

  lemma {:induction false} FullBucket(s: seq<nat>, p: nat, b: nat)
    requires p > 0 && |Bucket(s, p, b)| == |s|
    ensures forall i: nat :: i < |s| ==> Digit(s[i], p) == b
  {
    hide Digit;
    if |s| > 0 { FullBucket(s[..|s| - 1], p, b); }
  }

  /** A pass with nothing but zeros to look at changes nothing. */
  lemma SkippedPass(s: seq<nat>, p: nat)
    requires p > 0 && SortedBelow(s, p) && |Bucket(s, p, 0)| == |s|
    ensures SortedBelow(s, 256 * p)
  {
    hide Digit, Bucket;
    FullBucket(s, p, 0);
    forall i: nat, j: nat | i < j < |s| ensures s[i] % (256 * p) <= s[j] % (256 * p) {
      DigitOrder(s[i], s[j], p);
    }
  }

  /** Where a bucket starts. */
  function Start(s: seq<nat>, p: nat, b: nat): nat
    requires p > 0
  {
    |Buckets(s, p, b)|
  }

  /** The elements of bucket b among the first i stand at the front of its place, up to c. */
  ghost predicate At(s: seq<nat>, p: nat, i: nat, c: nat, d: seq<nat>, b: nat)
    requires p > 0 && i <= |s|
  {
    var l := Start(s, p, b);
    c == l + |Bucket(s[..i], p, b)| && c <= Start(s, p, b + 1) <= |d| && d[l..c] == Bucket(s[..i], p, b)
  }

  ghost predicate Placed(s: seq<nat>, p: nat, i: nat, cnt: seq<nat>, d: seq<nat>)
    requires p > 0
  {
    i <= |s| == |d| && |cnt| == 256 && forall b: nat :: b < 256 ==> At(s, p, i, cnt[b], d, b)
  }

  lemma BucketRoom(s: seq<nat>, p: nat, i: nat, b: nat)
    requires p > 0 && i <= |s| && b < 256
    ensures Start(s, p, b) + |Bucket(s[..i], p, b)| <= Start(s, p, b + 1) <= |s|
  {
    hide Bucket;
    BucketPrefix(s, p, b, i);
    BucketsGrow(s, p, b + 1, 256);
    BucketsPermute(s, p);
  }

  lemma PlacedFirst(s: seq<nat>, p: nat, cnt: seq<nat>, d: seq<nat>)
    requires p > 0 && |s| == |d| && |cnt| == 256 && forall b: nat :: b < 256 ==> cnt[b] == Start(s, p, b)
    ensures Placed(s, p, 0, cnt, d)
  {
    hide Start, Digit;
    forall b: nat | b < 256 ensures At(s, p, 0, cnt[b], d, b) { BucketRoom(s, p, 0, b); }
  }

  /** An element put where its bucket's counter points, and the counter moved on. */
  lemma PlaceNext(s: seq<nat>, p: nat, i: nat, cnt: seq<nat>, d: seq<nat>)
    requires p > 0 && i < |s| && Placed(s, p, i, cnt, d)
    ensures var k := Digit(s[i], p);
      cnt[k] < |d| && Placed(s, p, i + 1, cnt[k := cnt[k] + 1], d[cnt[k] := s[i]])
  {
    hide Start, Bucket, Digit, At;
    var k := Digit(s[i], p);
    assert At(s, p, i, cnt[k], d, k);
    PlaceOwn(s, p, i, cnt[k], d);
    var cnt', d' := cnt[k := cnt[k] + 1], d[cnt[k] := s[i]];
    forall b: nat | b < 256 ensures At(s, p, i + 1, cnt'[b], d', b) {
      assert At(s, p, i, cnt[b], d, b);
      if b != k { PlaceOther(s, p, i, cnt[k], cnt[b], d, b); }
    }
  }

  lemma PlaceOwn(s: seq<nat>, p: nat, i: nat, c: nat, d: seq<nat>)
    requires p > 0 && i < |s| && At(s, p, i, c, d, Digit(s[i], p))
    ensures c < |d| && c < Start(s, p, Digit(s[i], p) + 1) && Start(s, p, Digit(s[i], p)) <= c
    ensures At(s, p, i + 1, c + 1, d[c := s[i]], Digit(s[i], p))
  {
    hide Start, Bucket, Digit;
    var k := Digit(s[i], p);
    BucketPrefix(s, p, k, i);
    BucketRoom(s, p, i + 1, k);
  }

  lemma PlaceOther(s: seq<nat>, p: nat, i: nat, at: nat, c: nat, d: seq<nat>, b: nat)
    requires p > 0 && i < |s| && b != Digit(s[i], p) && At(s, p, i, c, d, b)
    requires at < |d| && Start(s, p, Digit(s[i], p)) <= at < Start(s, p, Digit(s[i], p) + 1)
    ensures At(s, p, i + 1, c, d[at := s[i]], b)
  {
    hide Bucket, Digit, Buckets;
    var k := Digit(s[i], p);
    BucketPrefix(s, p, b, i);
    if b < k { BucketsGrow(s, p, b + 1, k); } else { BucketsGrow(s, p, k + 1, b); }
  }

  /** Placing every element lays the buckets out one after the other. */
  lemma {:induction false} AllPlaced(s: seq<nat>, p: nat, cnt: seq<nat>, d: seq<nat>, k: nat)
    requires p > 0 && Placed(s, p, |s|, cnt, d) && k <= 256
    ensures Start(s, p, k) <= |d| && d[..Start(s, p, k)] == Buckets(s, p, k)
  {
    hide Bucket, Digit;
    if k > 0 {
      AllPlaced(s, p, cnt, d, k - 1);
      assert s[..|s|] == s;
      assert At(s, p, |s|, cnt[k - 1], d, k - 1);
      var l, c := Start(s, p, k - 1), cnt[k - 1];
      assert d[..c] == d[..l] + d[l..c];
    }
  }

  /** How many of the first n elements fall into each bucket. */
  method Count(src: array<nat>, n: nat, p: nat) returns (cnt: array<nat>)
    requires p > 0 && n <= src.Length
    ensures fresh(cnt) && cnt.Length == 256 && forall b: nat :: b < 256 ==> cnt[b] == |Bucket(src[..n], p, b)|
  {
    hide Digit;
    cnt := new nat[256](_ => 0);
    for i := 0 to n
      invariant forall b: nat :: b < 256 ==> cnt[b] == |Bucket(src[..i], p, b)|
    {
      var k := Digit(src[i], p);
      assert src[..i + 1][..i] == src[..i];
      cnt[k] := cnt[k] + 1;
    }
  }

  lemma StartNext(s: seq<nat>, p: nat, b: nat)
    requires p > 0
    ensures Start(s, p, 0) == 0 && Start(s, p, b + 1) == Start(s, p, b) + |Bucket(s, p, b)|
  {
  }

  /** Counts turned into the places the buckets start at. */
  method Starts(cnt: array<nat>, ghost s: seq<nat>, p: nat)
    requires p > 0 && cnt.Length == 256 && forall b: nat :: b < 256 ==> cnt[b] == |Bucket(s, p, b)|
    modifies cnt
    ensures forall b: nat :: b < 256 ==> cnt[b] == Start(s, p, b)
  {
    hide Digit, Bucket, Start;
    StartNext(s, p, 0);
    var pos: nat := 0;
    for b := 0 to 256
      invariant pos == Start(s, p, b)
      invariant forall c: nat :: c < b ==> cnt[c] == Start(s, p, c)
      invariant forall c: nat :: b <= c < 256 ==> cnt[c] == |Bucket(s, p, c)|
    {
      StartNext(s, p, b);
      var c := cnt[b];
      cnt[b] := pos;
      pos := pos + c;
    }
  }

  /** One stable pass from src to dst; skipped when every element has a zero there. */
  method Pass(src: array<nat>, dst: array<nat>, n: nat, p: nat) returns (moved: bool)
    requires p > 0 && n <= src.Length && n <= dst.Length && src != dst
    modifies dst
    ensures moved ==> dst[..n] == Buckets(src[..n], p, 256)
    ensures !moved ==> |Bucket(src[..n], p, 0)| == n
    ensures dst[n..] == old(dst[n..])
  {
    hide Digit, Bucket, Buckets, Start, Placed;
    ghost var s := src[..n];
    var cnt := Count(src, n, p);
    if cnt[0] == n { return false; }
    Starts(cnt, s, p);
    PlacedFirst(s, p, cnt[..], dst[..n]);
    for i := 0 to n
      invariant src[..n] == s && dst[n..] == old(dst[n..]) && cnt.Length == 256 && Placed(s, p, i, cnt[..], dst[..n])
    {
      var k := Digit(src[i], p);
      assert src[i] == s[i];
      PlaceNext(s, p, i, cnt[..], dst[..n]);
      ghost var c, d := cnt[..], dst[..n];
      dst[cnt[k]] := src[i];
      cnt[k] := cnt[k] + 1;
      assert cnt[..] == c[k := c[k] + 1];
      assert dst[..n] == d[c[k] := s[i]];
    }
    AllPlaced(s, p, cnt[..], dst[..n], 256);
    StartEnd(s, p);
    return true;
  }

  lemma StartEnd(s: seq<nat>, p: nat)
    requires p > 0
    ensures Start(s, p, 256) == |s|
  {
    BucketsPermute(s, p);
  }

  ghost predicate Sorted(s: seq<nat>) {
    forall i: nat, j: nat :: i < j < |s| ==> s[i] <= s[j]
  }

  /** 256 to the power of the pass. */
  function PassPower(k: nat): (p: nat)
    ensures p > 0
  {
    if k == 0 then 1 else 256 * PassPower(k - 1)
  }

  lemma PassPowerLast()
    ensures PassPower(8) == W64
  {
    assert PassPower(4) == W32;
    assert PassPower(8) == W32 * PassPower(4);
  }

  /** What a pass leaves sorted, moved or skipped. */
  lemma PassSorts(s: seq<nat>, p: nat)
    requires p > 0 && SortedBelow(s, p)
    ensures SortedBelow(Buckets(s, p, 256), 256 * p) && multiset(Buckets(s, p, 256)) == multiset(s)
  {
    BucketsSorted(s, p, 256);
    BucketsPermute(s, p);
  }

  lemma SortedAtOnce(s: seq<nat>)
    ensures SortedBelow(s, 1)
  {
  }

  lemma SortedInFull(s: seq<nat>, t: seq<nat>)
    requires SortedBelow(s, W64) && multiset(s) == multiset(t) && forall i: nat :: i < |t| ==> t[i] < W64
    ensures Sorted(s)
  {
    forall i: nat | i < |s| ensures s[i] < W64 {
      assert s[i] in multiset(s);
      assert s[i] in multiset(t);
      assert s[i] in t;
    }
  }

  /** A pass, and which array then holds the elements. */
  method Round(src: array<nat>, dst: array<nat>, n: nat, p: nat) returns (moved: bool)
    requires p > 0 && n <= src.Length && n <= dst.Length && src != dst && SortedBelow(src[..n], p)
    modifies dst
    ensures var r := if moved then dst[..n] else src[..n]; SortedBelow(r, 256 * p) && multiset(r) == multiset(src[..n])
    ensures dst[n..] == old(dst[n..])
  {
    hide Digit, Bucket, Buckets, SortedBelow;
    PassSorts(src[..n], p);
    moved := Pass(src, dst, n, p);
    if !moved { SkippedPass(src[..n], p); }
  }

  method CopyBack(src: array<nat>, h: array<nat>, n: nat)
    requires h != src && n <= h.Length && n <= src.Length
    modifies h
    ensures h[..n] == src[..n] && h[n..] == old(h[n..])
  {
    for i := 0 to n
      invariant h[..i] == src[..i] && h[n..] == old(h[n..])
    {
      h[i] := src[i];
    }
  }

  /** The first n elements of h end up in order, and are the ones that were there. */
  method Sort(h: array<nat>, tmp: array<nat>, n: nat)
    requires h != tmp && n <= h.Length && n <= tmp.Length
    requires forall i: nat :: i < n ==> h[i] < W64
    modifies h, tmp
    ensures Sorted(h[..n]) && multiset(h[..n]) == multiset(old(h[..n])) && h[n..] == old(h[n..])
  {
    hide *;
    var src, dst := h, tmp;
    ghost var s := h[..n];
    SortedAtOnce(s);
    PassOne();
    var p: nat := 1;
    for k := 0 to 8
      invariant (src == h && dst == tmp) || (src == tmp && dst == h)
      invariant p == PassPower(k) && SortedBelow(src[..n], p) && multiset(src[..n]) == multiset(s)
      invariant h[n..] == old(h[n..])
    {
      var moved := Round(src, dst, n, p);
      if moved { src, dst := dst, src; }
      PassNext(k);
      p := 256 * p;
    }
    PassPowerLast();
    SortedInFull(src[..n], s);
    if src != h { CopyBack(src, h, n); }
  }

  lemma PassOne()
    ensures PassPower(0) == 1
  {
  }

  lemma PassNext(k: nat)
    ensures PassPower(k + 1) == 256 * PassPower(k)
  {
  }
}
