/** BIP 158 basic filters: the Golomb-coded set of a block's scripts. */
module BlockFilter {
  import opened Bytes
  import opened Words
  import opened Bits
  import opened BitWriter
  import opened RadixSort
  import opened ScriptTable

  const M: nat := 784931
  const REMAINDER: nat := 0x8_0000   // 2^19

  /** One difference: its quotient in unary, a zero, nineteen bits of remainder. */
  function Code(d: nat): seq<bit> {
    OneBits(d / REMAINDER) + [0] + BitsOf(d, 19)
  }

  /** The coded differences of a list, starting from prev. */
  function Encode(prev: nat, vs: seq<nat>): seq<bit>
    decreases |vs|
  {
    if |vs| == 0 then []
    else Code(if vs[0] >= prev then vs[0] - prev else 0) + Encode(vs[0], vs[1..])
  }

  function LeadingOnes(s: seq<bit>): (n: nat)
    ensures n <= |s|
  {
    if |s| == 0 || s[0] == 0 then 0 else 1 + LeadingOnes(s[1..])
  }

  /** Reads one difference off the front. */
  function DecodeOne(s: seq<bit>): Option<(nat, seq<bit>)> {
    var q := LeadingOnes(s);
    if |s| < q + 20 then None else Some((REMAINDER * q + Number(s[q + 1..q + 20]), s[q + 20..]))
  }

  /** Reads n values off the front, each a difference from the one before. */
  function Decode(s: seq<bit>, n: nat, prev: nat): Option<seq<nat>> {
    if n == 0 then Some([])
    else match DecodeOne(s)
      case None => None
      case Some((d, rest)) =>
        match Decode(rest, n - 1, prev + d)
        case None => None
        case Some(vs) => Some([prev + d] + vs)
  }

  lemma {:induction false} LeadingOnesOf(q: nat, rest: seq<bit>)
    ensures LeadingOnes(OneBits(q) + [0] + rest) == q
  {
    if q > 0 {
      LeadingOnesOf(q - 1, rest);
      assert (OneBits(q) + [0] + rest)[1..] == OneBits(q - 1) + [0] + rest;
    }
  }

  lemma Nineteen(d: nat)
    ensures Low(d, 19) == d % REMAINDER
  {
    hide Low, Pow2;
    Powers();
    HalfPower();
    ShrDiv(d, 19);
  }

  lemma HalfPower()
    ensures Pow2(20) == 2 * Pow2(19)
  {
  }

  /** A code bit by bit: as many ones as there are whole multiples of 2^19, a zero, and the rest in nineteen bits. */
  lemma CodeBits(d: nat)
    ensures var q, s := d / 524288, Code(d);
      && |s| == q + 20 && s[q] == 0 && (forall i: nat :: i < q ==> s[i] == 1) && Number(s[q + 1..]) == d % 524288
  {
    hide BitsOf, Number;
    NumberOfBits(d, 19);
    Nineteen(d);
    assert Code(d)[d / REMAINDER + 1..] == BitsOf(d, 19);
  }

  lemma DecodeCode(d: nat, rest: seq<bit>)
    ensures DecodeOne(Code(d) + rest) == Some((d, rest))
  {
    hide BitsOf, Number, LeadingOnes;
    var q := d / REMAINDER;
    var s := Code(d) + rest;
    assert s == OneBits(q) + [0] + (BitsOf(d, 19) + rest);
    LeadingOnesOf(q, BitsOf(d, 19) + rest);
    assert s[q + 1..q + 20] == BitsOf(d, 19) && s[q + 20..] == rest;
    NumberOfBits(d, 19);
    Nineteen(d);
  }

  /** In order, from prev on. */
  ghost predicate Rising(prev: nat, vs: seq<nat>)
    decreases |vs|
  {
    |vs| == 0 || (prev <= vs[0] && Rising(vs[0], vs[1..]))
  }

  lemma {:induction false} SortedRises(prev: nat, vs: seq<nat>)
    requires Sorted(vs) && (|vs| > 0 ==> prev <= vs[0])
    ensures Rising(prev, vs)
    decreases |vs|
  {
    if |vs| > 0 { SortedRises(vs[0], vs[1..]); }
  }

  /** Decoding reads back what was coded, whatever follows. */
  lemma {:induction false} DecodeEncode(prev: nat, vs: seq<nat>, rest: seq<bit>)
    requires Rising(prev, vs)
    ensures Decode(Encode(prev, vs) + rest, |vs|, prev) == Some(vs)
    decreases |vs|
  {
    hide Code, DecodeOne;
    if |vs| > 0 {
      var d, tail := vs[0] - prev, Encode(vs[0], vs[1..]) + rest;
      assert Encode(prev, vs) + rest == Code(d) + tail;
      DecodeCode(d, tail);
      DecodeEncode(vs[0], vs[1..], rest);
      assert [prev + d] + vs[1..] == vs;
    }
  }

  /** The length prefix. */
  function CompactSize(n: nat): seq<byte> {
    if n < 0xfd then [n] else if n <= 0xffff then [0xfd] + LittleEndian(n, 2) else [0xfe] + LittleEndian(n, 4)
  }

  function ReadCompactSize(s: seq<byte>): Option<(nat, seq<byte>)> {
    if |s| == 0 then None
    else if s[0] < 0xfd then Some((s[0], s[1..]))
    else if s[0] == 0xfd then if |s| < 3 then None else Some((FromLittleEndian(s[1..3]), s[3..]))
    else if s[0] == 0xfe then if |s| < 5 then None else Some((FromLittleEndian(s[1..5]), s[5..]))
    else if |s| < 9 then None else Some((FromLittleEndian(s[1..9]), s[9..]))
  }

  lemma CompactSizeRoundTrip(n: nat, rest: seq<byte>)
    requires n < W32
    ensures ReadCompactSize(CompactSize(n) + rest) == Some((n, rest))
    ensures |CompactSize(n)| == if n < 253 then 1 else if n < 65536 then 3 else 5
  {
    hide LittleEndian, FromLittleEndian, Pow256;
    var s := CompactSize(n) + rest;
    SmallPowers();
    if 0xfd <= n <= 0xffff {
      LittleEndianRoundTrip(n, 2);
      assert s[1..3] == LittleEndian(n, 2) && s[3..] == rest;
    } else if n > 0xffff {
      LittleEndianRoundTrip(n, 4);
      assert s[1..5] == LittleEndian(n, 4) && s[5..] == rest;
    } else {
      assert s[1..] == rest;
    }
  }

  lemma SmallPowers()
    ensures Pow256(2) == 0x1_0000 && Pow256(4) == W32
  {
  }

  /** The filter of a list of values. */
  function Serialize(vs: seq<nat>): seq<byte> {
    CompactSize(|vs|) + Pack(Encode(0, vs))
  }

  /** A decoder of filters. */
  function Parse(s: seq<byte>): Option<seq<nat>> {
    match ReadCompactSize(s)
    case None => None
    case Some((n, rest)) => Decode(Unpack(rest), n, 0)
  }

  /** A decoder reads a filter's values back. */
  lemma ParseSerialize(vs: seq<nat>)
    requires Sorted(vs) && |vs| < W32
    ensures Parse(Serialize(vs)) == Some(vs)
  {
    hide Pack, Unpack, Encode, Decode, CompactSize, ReadCompactSize;
    CompactSizeRoundTrip(|vs|, Pack(Encode(0, vs)));
    UnpackPack(Encode(0, vs));
    SortedRises(0, vs);
    DecodeEncode(0, vs, NoBits(8 * |Pack(Encode(0, vs))| - |Encode(0, vs)|));
  }

  /** A 64-bit hash mapped onto [0, nm) by the high half of a 128-bit product. */
  function MapTo(h: nat, nm: nat): nat {
    MulMono(h, 0, nm);
    h * nm / W64
  }

  lemma MapRange(h: nat, nm: nat)
    requires h < W64
    ensures 0 <= MapTo(h, nm) && (nm > 0 ==> MapTo(h, nm) < nm) && (nm == 0 ==> MapTo(h, nm) == 0)
  {
    MulMono(nm, h + 1, W64);
    if nm > 0 {
      var q := h * nm / W64;
      if q >= nm { MulMono(W64, nm, q); }
    }
  }

  /** Each script's value, for a set of n of them. */
  function Mapped(d: seq<Script>, hash: Script -> Word64, n: nat): (r: seq<nat>)
    ensures |r| == |d|
    ensures forall i: nat :: i < |d| ==> r[i] == MapTo(hash(d[i]), U64(n * M))
  {
    seq(|d|, i requires 0 <= i < |d| => MapTo(hash(d[i]), U64(n * M)))
  }

  /** The values of a list of scripts: one for each distinct script, in order of value. */
  ghost predicate ValuesOf(el: seq<Script>, hash: Script -> Word64, vs: seq<nat>) {
    Sorted(vs) && multiset(vs) == multiset(Mapped(Distinct(el), hash, |Distinct(el)|))
  }

  /** v is h scaled from [0, 2^64) down to [0, 784931 n), rounded down. */
  ghost predicate ScaledDown(h: nat, n: nat, v: nat) {
    v * 0x1_0000_0000_0000_0000 <= h * (n * 784931) < (v + 1) * 0x1_0000_0000_0000_0000
  }

  /** One value for each script: the values in order belong, one to one, to the different scripts of el. */
  ghost predicate OneEach(el: seq<Script>, hash: Script -> Word64, vs: seq<nat>) {
    exists order: seq<Script> :: OwnedBy(el, hash, vs, order)
  }

  ghost predicate OwnedBy(el: seq<Script>, hash: Script -> Word64, vs: seq<nat>, order: seq<Script>) {
    && NoRepeat(order) && (forall x :: x in order <==> x in el)
    && |order| == |vs| && forall i: nat :: i < |vs| ==> ScaledDown(hash(order[i]), |vs|, vs[i])
  }

  lemma MapScales(h: nat, n: nat)
    requires n * M < W64
    ensures ScaledDown(h, n, MapTo(h, U64(n * M)))
  {
  }

  /** A higher hash never has a lower value. */
  lemma MapMonotone(h: nat, h': nat, n: nat)
    requires h <= h'
    ensures MapTo(h, U64(n * M)) <= MapTo(h', U64(n * M))
  {
    var nm := U64(n * M);
    hide U64;
    MulMono(nm, h, h');
  }

  /** The scripts in the order of their values. */
  lemma {:induction false} Arrange(d: seq<Script>, hash: Script -> Word64, n: nat, vs: seq<nat>) returns (order: seq<Script>)
    requires multiset(vs) == multiset(Mapped(d, hash, n))
    ensures |order| == |vs| && multiset(order) == multiset(d)
    ensures forall i: nat :: i < |vs| ==> vs[i] == MapTo(hash(order[i]), U64(n * M))
    decreases |vs|
  {
    hide MapTo, Without, U64;
    SameLength(vs, Mapped(d, hash, n));
    if |vs| == 0 { return d; }
    var k := SameFirst(vs, Mapped(d, hash, n));
    SameWithout(vs, 0, Mapped(d, hash, n), k);
    MappedWithout(d, hash, n, k);
    var rest := Arrange(Without(d, k), hash, n, Without(vs, 0));
    WithoutOne(d, k);
    order := [d[k]] + rest;
    WithoutFirst(vs);
  }

  lemma WithoutFirst<T>(s: seq<T>)
    requires |s| > 0
    ensures s == [s[0]] + Without(s, 0)
  {
  }

  lemma OnceEach(s: seq<Script>, t: seq<Script>)
    requires NoRepeat(t) && multiset(s) == multiset(t)
    ensures NoRepeat(s) && forall x :: x in s <==> x in t
  {
    forall x ensures x in s <==> x in t {
      assert x in s <==> x in multiset(s);
      assert x in t <==> x in multiset(t);
    }
    forall i: nat, j: nat | i < j < |s| ensures s[i] != s[j] {
      NoRepeatCounts(t, s[j]);
      assert s == s[..j] + [s[j]] + s[j + 1..];
      assert s[..j][i] == s[i] && s[i] in s[..j];
    }
  }

  /** With N different scripts and 784931 N below 2^64, the values are the scripts' hashes scaled down, one for each. */
  lemma ValuesScale(el: seq<Script>, hash: Script -> Word64, vs: seq<nat>)
    requires ValuesOf(el, hash, vs) && |Distinct(el)| * 784931 < 0x1_0000_0000_0000_0000
    ensures OneEach(el, hash, vs) && |vs| == |Distinct(el)|
  {
    hide Distinct, Mapped, Sorted, MapTo, ScaledDown, U64, NoRepeat;
    var d := Distinct(el);
    var n := |d|;
    SameLength(vs, Mapped(d, hash, n));
    var order := Arrange(d, hash, n, vs);
    DistinctNoRepeat(el);
    OnceEach(order, d);
    forall i: nat | i < |vs| ensures ScaledDown(hash(order[i]), |vs|, vs[i]) {
      MapScales(hash(order[i]), n);
    }
    assert OwnedBy(el, hash, vs, order);
  }

  lemma {:induction false} NoRepeatCounts(s: seq<Script>, x: Script)
    requires NoRepeat(s)
    ensures multiset(s)[x] == if x in s then 1 else 0
  {
    if |s| > 0 {
      var t := s[..|s| - 1];
      assert s == t + [s[|s| - 1]];
      NoRepeatCounts(t, x);
    }
  }

  /** Lists with the same scripts have the same distinct ones, up to order. */
  lemma DistinctPermutes(a: seq<Script>, b: seq<Script>)
    requires forall x :: x in a <==> x in b
    ensures multiset(Distinct(a)) == multiset(Distinct(b)) && |Distinct(a)| == |Distinct(b)|
  {
    hide Distinct;
    DistinctNoRepeat(a); DistinctNoRepeat(b);
    forall x: Script ensures multiset(Distinct(a))[x] == multiset(Distinct(b))[x] {
      NoRepeatCounts(Distinct(a), x);
      NoRepeatCounts(Distinct(b), x);
    }
    assert multiset(Distinct(a)) == multiset(Distinct(b));
    assert |multiset(Distinct(a))| == |multiset(Distinct(b))|;
  }

  /** The list without its element k. */
  function Without<T>(b: seq<T>, k: nat): (r: seq<T>)
    requires k < |b|
    ensures |r| == |b| - 1
  {
    b[..k] + b[k + 1..]
  }

  lemma WithoutOne<T>(b: seq<T>, k: nat)
    requires k < |b|
    ensures multiset(b) == multiset(Without(b, k)) + multiset{b[k]}
  {
    assert b == b[..k] + [b[k]] + b[k + 1..];
  }

  /** Taking the same element out of two lists, or leaving it in, keeps them permutations of each other. */
  lemma SameWithout<T>(a: seq<T>, j: nat, b: seq<T>, k: nat)
    requires j < |a| && k < |b| && a[j] == b[k]
    ensures multiset(a) == multiset(b) <==> multiset(Without(a, j)) == multiset(Without(b, k))
  {
    hide Without;
    WithoutOne(a, j); WithoutOne(b, k);
    var A, B, x := multiset(Without(a, j)), multiset(Without(b, k)), multiset{a[j]};
    assert A == A + x - x && B == B + x - x;
  }

  lemma MappedWithout(b: seq<Script>, hash: Script -> Word64, n: nat, k: nat)
    requires k < |b|
    ensures Mapped(Without(b, k), hash, n) == Without(Mapped(b, hash, n), k)
  {
    hide MapTo, Mapped;
  }

  lemma SameFirst<T>(a: seq<T>, b: seq<T>) returns (k: nat)
    requires multiset(a) == multiset(b) && |a| > 0
    ensures k < |b| && b[k] == a[0]
  {
    assert a[0] in multiset(a);
    assert a[0] in multiset(b);
    k :| k < |b| && b[k] == a[0];
  }

  lemma SameLength<T>(a: seq<T>, b: seq<T>)
    requires multiset(a) == multiset(b)
    ensures |a| == |b|
  {
    assert |multiset(a)| == |multiset(b)|;
  }

  lemma {:induction false} MappedPermutes(a: seq<Script>, b: seq<Script>, hash: Script -> Word64, n: nat)
    requires multiset(a) == multiset(b)
    ensures multiset(Mapped(a, hash, n)) == multiset(Mapped(b, hash, n))
    decreases |a|
  {
    hide MapTo, Mapped, Without;
    SameLength(a, b);
    if |a| == 0 {
      assert Mapped(a, hash, n) == Mapped(b, hash, n);
    } else {
      var k := SameFirst(a, b);
      SameWithout(a, 0, b, k);
      MappedPermutes(Without(a, 0), Without(b, k), hash, n);
      MappedWithout(a, hash, n, 0); MappedWithout(b, hash, n, k);
      SameWithout(Mapped(a, hash, n), 0, Mapped(b, hash, n), k);
    }
  }

  lemma SortedWithoutFirst(a: seq<nat>)
    requires Sorted(a) && |a| > 0
    ensures Sorted(Without(a, 0)) && a == [a[0]] + Without(a, 0)
    ensures forall k: nat :: k < |a| ==> a[0] <= a[k]
  {
  }

  /** Two lists in order with the same elements are the same list. */
  lemma {:induction false} SortedUnique(a: seq<nat>, b: seq<nat>)
    requires Sorted(a) && Sorted(b) && multiset(a) == multiset(b)
    ensures a == b
    decreases |a|
  {
    hide Sorted, Without;
    SameLength(a, b);
    if |a| > 0 {
      SortedWithoutFirst(a); SortedWithoutFirst(b);
      var k := SameFirst(a, b);
      var j := SameFirst(b, a);
      SameWithout(a, 0, b, 0);
      SortedUnique(Without(a, 0), Without(b, 0));
    }
  }

  /** A filter's values depend on the set of scripts alone: neither order nor repetition matters. */
  lemma OnlyTheSetMatters(a: seq<Script>, b: seq<Script>, hash: Script -> Word64, vs: seq<nat>, ws: seq<nat>)
    requires forall x :: x in a <==> x in b
    requires ValuesOf(a, hash, vs) && ValuesOf(b, hash, ws)
    ensures vs == ws && |vs| == |Distinct(a)|
  {
    hide Distinct, Mapped, Sorted;
    DistinctPermutes(a, b);
    MappedPermutes(Distinct(a), Distinct(b), hash, |Distinct(a)|);
    SortedUnique(vs, ws);
    assert |multiset(vs)| == |multiset(Mapped(Distinct(a), hash, |Distinct(a)|))|;
  }

  /** One more value at the end of the list. */
  lemma {:induction false} EncodeNext(prev: nat, vs: seq<nat>, i: nat)
    requires i < |vs| && Sorted(vs) && prev <= vs[0]
    ensures Encode(prev, vs[..i + 1]) == Encode(prev, vs[..i]) + Code(vs[i] - if i == 0 then prev else vs[i - 1])
    decreases i
  {
    hide Code;
    if i == 0 {
      assert vs[..1][1..] == [] && Encode(vs[0], []) == [];
    } else {
      EncodeNext(vs[0], vs[1..], i - 1);
      assert vs[..i + 1][1..] == vs[1..][..i] && vs[..i][1..] == vs[1..][..i - 1];
    }
  }

  lemma RemainderBits(d: nat)
    ensures BitsOf(d % REMAINDER, 19) == BitsOf(d, 19) && BitsOf(0, 1) == [0]
  {
    hide Low, BitsOf;
    Nineteen(d); Nineteen(d % REMAINDER);
    BitsOfLow(d % REMAINDER, d, 19);
    ZeroBit();
  }

  lemma ZeroBit()
    ensures BitsOf(0, 1) == [0]
  {
    assert BitsOf(0, 0) == [];
  }

  /** The length prefix, written where there is room for it. */
  method WriteCompactSize(out: array<byte>, n: nat) returns (o: int)
    modifies out
    ensures o == if |CompactSize(n)| <= out.Length then |CompactSize(n)| else -1
    ensures o >= 0 ==> out[..o] == CompactSize(n)
  {
    hide LittleEndian;
    if n < 0xfd {
      if out.Length < 1 { return -1; }
      out[0] := n;
      return 1;
    }
    var size := if n <= 0xffff then 2 else 4;
    if 1 + size > out.Length { return -1; }
    out[0] := if n <= 0xffff then 0xfd else 0xfe;
    WriteLittleEndian(out, 1, n, size);
    assert out[..1 + size] == out[..1] + out[1..1 + size];
    o := 1 + size;
  }

  /** The little-endian bytes of v, from a place on. */
  method WriteLittleEndian(out: array<byte>, at: nat, v: nat, size: nat)
    requires at + size <= out.Length
    modifies out
    ensures out[..at] == old(out[..at]) && out[at..at + size] == LittleEndian(v, size)
  {
    hide LittleEndian;
    var rest := v;
    assert out[at..at] + LittleEndian(rest, size) == LittleEndian(v, size);
    for i := 0 to size
      invariant out[..at] == old(out[..at]) && out[at..at + i] + LittleEndian(rest, size - i) == LittleEndian(v, size)
    {
      LittleEndianFirst(rest, size - i);
      ghost var done := out[at..at + i];
      out[at + i] := rest % 256;
      rest := rest / 256;
      assert out[at..at + i + 1] == done + [out[at + i]];
    }
    LittleEndianNone(rest);
  }

  lemma LittleEndianFirst(v: nat, k: nat)
    ensures k > 0 ==> LittleEndian(v, k) == [v % 256] + LittleEndian(v / 256, k - 1)
  {
  }

  lemma LittleEndianNone(v: nat)
    ensures LittleEndian(v, 0) == []
  {
  }

  /** The coded differences of the values of h, appended to a writer. */
  method WriteValues(w: Writer, h: array<nat>, n: nat)
    requires w.Valid() && n <= h.Length && Sorted(h[..n]) && w.bits == []
    modifies w, w.out
    ensures w.Valid() && w.bits == Encode(0, h[..n]) && w.out[..w.base] == old(w.out[..w.base])
  {
    hide BitsOf, Sorted, Encode, Stored;
    ghost var vs := h[..n];
    EncodeNone();
    var prev: nat := 0;
    for i := 0 to n
      invariant w.Valid() && w.bits == Encode(0, vs[..i]) && w.out[..w.base] == old(w.out[..w.base])
      invariant h[..n] == vs && prev == if i == 0 then 0 else vs[i - 1]
    {
      assert h[i] == vs[i];
      SortedStep(vs, i);
      EncodeNext(0, vs, i);
      var d: nat := h[i] - prev;
      prev := h[i];
      RemainderBits(d);
      w.Ones(d / REMAINDER);
      w.Put(0, 1);
      w.Put(d % REMAINDER, 19);
    }
    assert vs[..n] == vs;
  }

  lemma EncodeNone()
    ensures Encode(0, []) == []
  {
  }

  lemma SortedStep(vs: seq<nat>, i: nat)
    requires Sorted(vs) && i < |vs|
    ensures i > 0 ==> vs[i - 1] <= vs[i]
  {
  }

  /** Hashes turned into values, in order. */
  method MapAndSort(h: array<nat>, tmp: array<nat>, n: nat, hash: Script -> Word64, ghost d: seq<Script>)
    requires h != tmp && n == |d| <= h.Length && n <= tmp.Length
    requires forall j: nat :: j < n ==> h[j] == hash(d[j])
    modifies h, tmp
    ensures Sorted(h[..n]) && multiset(h[..n]) == multiset(Mapped(d, hash, n))
  {
    hide MapTo, Mapped, Sorted, U64, W64;
    var nm := U64(n * M);
    for i := 0 to n
      invariant forall j: nat :: j < i ==> h[j] == MapTo(hash(d[j]), nm) && h[j] < W64
      invariant forall j: nat :: i <= j < n ==> h[j] == hash(d[j])
    {
      MapRange(h[i], nm);
      h[i] := MapTo(h[i], nm);
    }
    assert h[..n] == Mapped(d, hash, n);
    Sort(h, tmp, n);
  }

  /** The filter of the first n values of h: its bytes in out and their number, or minus one when they do not fit. */
  method WriteFilter(h: array<nat>, n: nat, out: array<byte>) returns (r: int)
    requires n <= h.Length && Sorted(h[..n])
    modifies out
    ensures r == if |Serialize(h[..n])| <= out.Length then |Serialize(h[..n])| else -1
    ensures r >= 0 ==> out[..r] == Serialize(h[..n])
  {
    hide Sorted, Encode, Pack, CompactSize, Stored;
    var o := WriteCompactSize(out, n);
    if o < 0 { return -1; }
    var w := new Writer(out, o);
    WriteValues(w, h, n);
    w.Finish();
    r := if w.overflow then -1 else o + (w.bitpos + 7) / 8;
    if !w.overflow {
      assert out[..r] == out[..o] + out[o..r];
    }
  }

  lemma ValuesMade(el: seq<Script>, hash: Script -> Word64, vs: seq<nat>)
    requires Sorted(vs) && multiset(vs) == multiset(Mapped(Distinct(el), hash, |Distinct(el)|))
    ensures ValuesOf(el, hash, vs) && |vs| == |Distinct(el)|
    ensures |vs| * 784931 < 0x1_0000_0000_0000_0000 ==> OneEach(el, hash, vs)
  {
    hide Sorted, Mapped, Distinct, OneEach;
    SameLength(vs, Mapped(Distinct(el), hash, |Distinct(el)|));
    if |vs| * 784931 < 0x1_0000_0000_0000_0000 { ValuesScale(el, hash, vs); }
  }

  /** The filter of the first n scripts of el: its bytes in out and their number, or minus one when they do not fit. */
  method Build(el: array<Script>, n: nat, hash: Script -> Word64, out: array<byte>) returns (r: int, ghost vs: seq<nat>)
    requires n <= el.Length
    modifies el, out
    ensures ValuesOf(old(el[..n]), hash, vs)
    ensures |vs| * 784931 < 0x1_0000_0000_0000_0000 ==> OneEach(old(el[..n]), hash, vs)
    ensures r == if |Serialize(vs)| <= out.Length then |Serialize(vs)| else -1
    ensures r >= 0 ==> out[..r] == Serialize(vs)
  {
    hide Sorted, Mapped, Distinct, OneEach, ValuesOf, Serialize, W64;
    ghost var scripts := el[..n];
    var h, tmp := new nat[n + 1], new nat[n + 1];
    var w := Deduplicate(el, n, hash, h);
    ghost var d := el[..w];
    assert forall j: nat :: j < w ==> d[j] == el[j];
    MapAndSort(h, tmp, w, hash, d);
    vs := h[..w];
    ValuesMade(scripts, hash, vs);
    r := WriteFilter(h, w, out);
  }
}
