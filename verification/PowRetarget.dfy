/** The difficulty retarget on a 40-byte big integer, multiplied and divided in place. */
module PowRetarget {
  import opened Bytes
  import opened Words
  import opened PowTargets

  function Times(a: nat, b: nat): nat {
    a * b
  }

  lemma {:induction false} LeftScale(t: nat, x: nat, i: nat)
    ensures t * LeftBytes(x, i) == LeftBytes(t * x, i)
  {
    if i > 0 {
      LeftScale(t, x, i - 1);
      var y := LeftBytes(x, i - 1);
      assert t * (256 * y) == 256 * (t * y);
    }
  }

  lemma {:induction false} LeftSum(x: nat, y: nat, i: nat)
    ensures LeftBytes(x + y, i) == LeftBytes(x, i) + LeftBytes(y, i)
  {
    if i > 0 { LeftSum(x, y, i - 1); }
  }

  lemma {:induction false} LeftCarry(x: nat, i: nat)
    ensures LeftBytes(256 * x, i) == LeftBytes(x, i + 1)
  {
    if i > 0 { LeftCarry(x, i - 1); }
  }

  /** One more byte at the high end. */
  lemma {:induction false} LittleEndianNext(s: seq<byte>, i: nat)
    requires i < |s|
    ensures FromLittleEndian(s[..i + 1]) == FromLittleEndian(s[..i]) + LeftBytes(s[i] as int, i)
  {
    if i == 0 {
      assert s[..1][1..] == [];
    } else {
      LittleEndianNext(s[1..], i - 1);
      assert s[..i + 1][1..] == s[1..][..i] && s[..i][1..] == s[1..][..i - 1];
    }
  }

  lemma Spread(t: nat, a: nat, b: nat)
    ensures t * (a + b) == t * a + t * b
  {
  }

  /** One step of the multiplication: a byte of the product out, the rest carried. */
  lemma MultiplyStep(t: nat, x: nat, carry: nat, i: nat, low: nat, was: nat)
    requires low + LeftBytes(carry, i) == Times(t, was)
    ensures var v := Times(x, t) + carry;
      low + LeftBytes(v % 256, i) + LeftBytes(v / 256, i + 1) == Times(t, was + LeftBytes(x, i))
  {
    hide LeftBytes;
    var v := Times(x, t) + carry;
    LeftCarry(v / 256, i);
    LeftSum(v % 256, 256 * (v / 256), i);
    LeftSum(x * t, carry, i);
    LeftScale(t, x, i);
    Spread(t, was, LeftBytes(x, i));
  }

  lemma CarryRange(x: nat, t: nat, carry: nat)
    requires x < 256 && carry <= t && 0 < t <= 4 * TIMESPAN
    ensures Times(x, t) + carry < W64 && (Times(x, t) + carry) / 256 <= t
  {
    assert x * t <= 255 * t;
  }

  /** Multiplication in place, when the product fits the bytes there are. */
  method Multiply(n: array<byte>, ts: nat)
    requires 0 < ts <= 4 * TIMESPAN && Times(ts, FromLittleEndian(n[..])) < LeftBytes(1, n.Length)
    modifies n
    ensures FromLittleEndian(n[..]) == Times(ts, old(FromLittleEndian(n[..])))
  {
    hide FromLittleEndian, LeftBytes, TIMESPAN, W64, Times;
    ghost var N := n[..];
    var carry: nat := 0;
    LeftZero(0);
    NoBytes();
    TimesZero(ts);
    assert n[..0] == [] && N[..0] == [];
    for i := 0 to n.Length
      invariant carry <= ts && n[i..] == N[i..]
      invariant FromLittleEndian(n[..i]) + LeftBytes(carry, i) == Times(ts, FromLittleEndian(N[..i]))
    {
      CarryRange(n[i] as int, ts, carry);
      var v := Times(n[i] as int, ts) + carry;
      assert n[i] == N[i];
      MultiplyStep(ts, N[i] as int, carry, i, FromLittleEndian(n[..i]), FromLittleEndian(N[..i]));
      LittleEndianNext(N, i);
      ghost var low := n[..i];
      n[i] := v % 256;
      carry := v / 256;
      assert n[..i] == low;
      LittleEndianNext(n[..], i);
      assert n[..][..i + 1] == n[..i + 1] && n[..][..i] == n[..i];
    }
    assert n[..n.Length] == n[..] && N[..n.Length] == N;
    if carry > 0 { LeftMonotone(1, carry, n.Length); }
    LeftZero(n.Length);
  }

  lemma TimesZero(t: nat)
    ensures Times(t, 0) == 0
  {
  }

  lemma NoBytes()
    ensures FromLittleEndian([]) == 0
  {
  }

  /** One step of long division. */
  lemma DivideStep(d: nat, q: nat, rem: nat, x: nat, v: nat)
    requires d > 0 && v == 256 * rem + x
    ensures x + 256 * (d * q + rem) == d * (v / d + 256 * q) + v % d
  {
    assert v == d * (v / d) + v % d;
    Regroup(d, 256, q); Regroup(256, d, q);
    Spread(d, v / d, 256 * q);
  }

  lemma QuotientByte(d: nat, rem: nat, x: nat)
    requires 0 < d <= TIMESPAN && rem < d && x < 256
    ensures 0 <= (256 * rem + x) / d < 256 && 0 <= (256 * rem + x) % d < d && 256 * rem + x < W64
  {
    var v := 256 * rem + x;
    assert v < 256 * d;
    DivUnique(v, d, v / d, v % d);
    if v / d >= 256 { MulMono(d, 256, v / d); }
  }

  /** Division by the timespan in place, from the top byte down. */
  method Divide(n: array<byte>)
    modifies n
    ensures FromLittleEndian(n[..]) == old(FromLittleEndian(n[..])) / TIMESPAN
  {
    hide FromLittleEndian, TIMESPAN, W64;
    PositiveSpan();
    ghost var N := n[..];
    var rem: nat := 0;
    var i := n.Length;
    NoBytes();
    assert n[i..] == [] && N[i..] == [];
    while i > 0
      invariant 0 <= i <= n.Length && rem < TIMESPAN && n[..i] == N[..i]
      invariant FromLittleEndian(N[i..]) == TIMESPAN * FromLittleEndian(n[i..]) + rem
    {
      i := i - 1;
      var v := rem * 256 + n[i] as int;
      QuotientByte(TIMESPAN, rem, n[i] as int);
      ghost var high := n[i + 1..];
      assert n[i] == N[i] by { assert n[..i + 1][i] == N[..i + 1][i]; }
      DivideStep(TIMESPAN, FromLittleEndian(high), rem, N[i] as int, v);
      n[i] := v / TIMESPAN;
      assert n[i + 1..] == high;
      LowFirst(N, i); LowFirst(n[..], i);
      assert n[..][i..] == n[i..] && n[..][i + 1..] == n[i + 1..];
      rem := v % TIMESPAN;
    }
    assert n[0..] == n[..] && N[0..] == N;
    DivUnique(FromLittleEndian(N), TIMESPAN, FromLittleEndian(n[..]), rem);
  }

  lemma PositiveSpan()
    ensures TIMESPAN > 0
  {
  }

  lemma LowFirst(s: seq<byte>, i: nat)
    requires i < |s|
    ensures FromLittleEndian(s[i..]) == s[i] as int + 256 * FromLittleEndian(s[i + 1..])
  {
    assert s[i..][1..] == s[i + 1..];
  }

  /** The first differing byte decides between two numbers. */
  lemma FirstDifference(a: seq<byte>, b: seq<byte>, i: nat)
    requires |a| == |b| && i < |a| && a[..i] == b[..i] && a[i] > b[i]
    ensures FromBigEndian(a) > FromBigEndian(b)
  {
    hide FromBigEndian, LeftBytes;
    var k := |a| - i - 1;
    assert a == a[..i + 1] + a[i + 1..] && b == b[..i + 1] + b[i + 1..];
    BigEndianJoin(a[..i + 1], a[i + 1..]);
    BigEndianJoin(b[..i + 1], b[i + 1..]);
    BigEndianBound(b[i + 1..]);
    HeadByte(a, i); HeadByte(b, i);
    var x, y := FromBigEndian(a[..i + 1]), FromBigEndian(b[..i + 1]);
    LeftNext(y, k);
    LeftMonotone(y + 1, x, k);
  }

  lemma HeadByte(s: seq<byte>, i: nat)
    requires i < |s|
    ensures FromBigEndian(s[..i + 1]) == 256 * FromBigEndian(s[..i]) + s[i] as int
  {
    assert s[..i + 1][..i] == s[..i];
  }

  /** Byte-wise comparison of two big-endian numbers of the same length. */
  method Exceeds(a: array<byte>, b: array<byte>) returns (r: bool)
    requires a.Length == b.Length
    ensures r <==> FromBigEndian(a[..]) > FromBigEndian(b[..])
  {
    hide FromBigEndian;
    for i := 0 to a.Length
      invariant a[..i] == b[..i]
    {
      if a[i] > b[i] {
        FirstDifference(a[..], b[..], i) by { assert a[..][..i] == a[..i] && b[..][..i] == b[..i]; }
        return true;
      }
      if a[i] < b[i] {
        FirstDifference(b[..], a[..], i) by { assert a[..][..i] == a[..i] && b[..][..i] == b[..i]; }
        return false;
      }
    }
    assert a[..] == b[..];
    return false;
  }

  /** The timespan held to a quarter and to four times the intended one. */
  function Clamp(ts: int): (r: nat)
    ensures TIMESPAN / 4 <= r <= 4 * TIMESPAN
  {
    if ts < TIMESPAN / 4 then TIMESPAN / 4 else if ts > TIMESPAN * 4 then TIMESPAN * 4 else ts
  }

  /** The new target before it is encoded: scaled, rounded down, held to the limit. */
  function NextTarget(base: nat, ts: int, limit: nat): nat {
    var q := Times(Clamp(ts), Target(base)) / TIMESPAN;
    if q > Target(limit) then Target(limit) else q
  }

  lemma TargetRange(bits: nat)
    ensures Target(bits) < LeftBytes(0x80_0000, 29)
  {
    var size, word := bits / 0x100_0000, bits % 0x80_0000;
    if size <= 3 {
      RightBelow(word, 3 - size);
      LeftGrows(0x80_0000, 29);
    } else if size <= 32 {
      LeftStrict(word, 0x80_0000, size - 3);
      LeftLeft(0x80_0000, size - 3, 32 - size);
      LeftGrows(LeftBytes(0x80_0000, size - 3), 32 - size);
    } else {
      LeftGrows(0x80_0000, 29);
    }
  }

  lemma {:induction false} LeftGrows(v: nat, k: nat)
    ensures v <= LeftBytes(v, k)
  {
    if k > 0 { LeftGrows(v, k - 1); }
  }

  lemma {:induction false} LeftStrict(v: nat, w: nat, k: nat)
    requires v < w
    ensures LeftBytes(v, k) < LeftBytes(w, k)
  {
    if k > 0 { LeftStrict(v, w, k - 1); }
  }

  /** The product with any clamped timespan fits forty bytes. */
  lemma ProductFits(bits: nat, ts: int)
    ensures Times(Clamp(ts), Target(bits)) < LeftBytes(1, 40)
  {
    hide LeftBytes, Target, Clamp;
    TargetRange(bits);
    var t, v := Clamp(ts), Target(bits);
    LeftMonotone(0x80_0000, 0x100_0000, 29);
    SpanFits(t);
    MulMono(t, v, LeftBytes(0x100_0000, 29));
    LeftScale(t, 0x100_0000, 29);
    LeftStrict(t * 0x100_0000, 0x100_0000 * 0x100_0000, 29);
    PowersOfBytes();
    LeftLeft(1, 6, 29);
    LeftMonotone(1, 0x1_0000_0000_00, 35);
    LeftLeft(1, 5, 35);
  }

  lemma SpanFits(t: nat)
    requires t <= 4 * TIMESPAN
    ensures t < 0x100_0000
  {
  }

  lemma PowersOfBytes()
    ensures LeftBytes(1, 6) == 0x100_0000 * 0x100_0000 && LeftBytes(1, 5) == 0x1_0000_0000_00
  {
    assert LeftBytes(1, 3) == 0x100_0000;
  }

  lemma {:induction false} NonZeroBytes(s: seq<byte>)
    ensures FromLittleEndian(s) == 0 <==> forall i: nat :: i < |s| ==> s[i] == 0
  {
    if |s| > 0 {
      NonZeroBytes(s[1..]);
      assert forall i: nat :: i < |s| - 1 ==> s[1..][i] == s[i + 1];
    }
  }

  lemma {:induction false} LittleEndianCut(s: seq<byte>, i: nat)
    requires i <= |s|
    ensures FromLittleEndian(s) == FromLittleEndian(s[..i]) + LeftBytes(FromLittleEndian(s[i..]), i)
  {
    if i == 0 {
      assert s[0..] == s;
    } else {
      LittleEndianCut(s[1..], i - 1);
      assert s[..i][1..] == s[1..][..i - 1] && s[1..][i - 1..] == s[i..];
    }
  }

  /** The big-endian bytes turned around, with eight zero bytes of room on top. */
  method Widen(be: array<byte>) returns (n: array<byte>)
    requires be.Length == 32
    ensures fresh(n) && n.Length == 40 && FromLittleEndian(n[..]) == FromBigEndian(be[..])
  {
    hide FromLittleEndian, FromBigEndian, LeftBytes;
    n := new byte[40](_ => 0);
    for i := 0 to 32
      invariant forall j: nat :: j < i ==> n[j] == be[31 - j]
      invariant forall j: nat :: 32 <= j < 40 ==> n[j] == 0
    {
      n[i] := be[31 - i];
    }
    LittleEndianCut(n[..], 32);
    assert n[..][..32] == Reversed(be[..]);
    ReversedValue(be[..]);
    NonZeroBytes(n[..][32..]);
    LeftZero(32);
  }

  /** Back to thirty-two big-endian bytes, and whether anything stood above them. */
  method Narrow(n: array<byte>) returns (be: array<byte>, over: bool)
    requires n.Length == 40
    ensures fresh(be) && be.Length == 32
    ensures over <==> FromLittleEndian(n[..]) >= LeftBytes(1, 32)
    ensures !over ==> FromBigEndian(be[..]) == FromLittleEndian(n[..])
  {
    hide FromLittleEndian, FromBigEndian, LeftBytes;
    over := false;
    for i := 32 to 40
      invariant over <==> exists j: nat :: 32 <= j < i && n[j] != 0
    {
      if n[i] != 0 { over := true; }
    }
    be := new byte[32](_ => 0);
    for i := 0 to 32
      invariant forall j: nat :: j < i ==> be[j] == n[31 - j]
    {
      be[i] := n[31 - i];
    }
    assert be[..] == Reversed(n[..][..32]);
    assert n[..][..32] == Reversed(be[..]);
    ReversedValue(be[..]);
    BigEndianBound(be[..]);
    LittleEndianCut(n[..], 32);
    ghost var high := n[..][32..];
    NonZeroBytes(high);
    assert forall j: nat :: j < 8 ==> high[j] == n[32 + j];
    assert over <==> FromLittleEndian(high) != 0 by {
      if over {
        var j: nat :| 32 <= j < 40 && n[j] != 0;
        assert high[j - 32] != 0;
      }
    }
    LeftZero(32);
    if over { LeftMonotone(1, FromLittleEndian(high), 32); }
  }

  /** The compact number after a period: the encoded new target, whatever the inputs. */
  method RetargetBits(base: nat, ts: int, limit: nat) returns (bits: nat)
    requires base < W32 && limit < W32
    ensures bits == Compact(NextTarget(base, ts, limit))
  {
    hide FromLittleEndian, FromBigEndian, LeftBytes, Target, Clamp, Times, Compact, TIMESPAN;
    var span := ts;
    ClampIs(ts);
    if span < TIMESPAN / 4 { span := TIMESPAN / 4; }
    if span > TIMESPAN * 4 { span := TIMESPAN * 4; }
    var be := TargetBytes(base);
    var n := Widen(be);
    ProductFits(base, ts);
    Multiply(n, span);
    Divide(n);
    var out, over := Narrow(n);
    var lim := TargetBytes(limit);
    TargetRange(limit);
    LimitFits();
    if !over { over := Exceeds(out, lim); }
    if over { out := lim; }
    bits := CompactBytes(out);
  }

  /** What a retarget asks for decodes to the new target with its low bytes cleared: it never needs a thirty-third byte. */
  lemma RetargetDecodes(base: nat, ts: int, limit: nat)
    ensures var v := NextTarget(base, ts, limit); Target(Compact(v)) == Cleared(v, Dropped(Compact(v)))
  {
    hide LeftBytes, Target, Compact, Cleared, Clamp, Times;
    var v := NextTarget(base, ts, limit);
    TargetRange(limit);
    LimitFits();
    CompactOverflow(v);
    CompactDecodes(v);
  }

  lemma ClampIs(ts: int)
    ensures 0 < Clamp(ts) && 0 < TIMESPAN / 4 < TIMESPAN * 4
    ensures Clamp(ts) == if ts < TIMESPAN / 4 then TIMESPAN / 4 else if ts > TIMESPAN * 4 then TIMESPAN * 4 else ts
  {
  }

  lemma LimitFits()
    ensures LeftBytes(0x80_0000, 29) <= LeftBytes(1, 32)
  {
    LeftLeft(1, 3, 29);
    assert LeftBytes(1, 3) == 0x100_0000;
    LeftMonotone(0x80_0000, 0x100_0000, 29);
  }
}
