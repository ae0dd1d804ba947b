/** The arithmetic of Poly1305: numbers up to 2^130 - 5 in five 26-bit limbs. */
module Poly1305Limbs {
  import opened Bytes
  import opened Words

  const P: nat := 0x3_ffff_ffff_ffff_ffff_ffff_ffff_ffff_fffb   // 2^130 - 5
  const TOP: nat := 0x1_0000_0000_0000_0000_0000_0000_0000_0000   // 2^128

  /** Five limbs of 26 bits, least significant first; a limb may run over its 26 bits. */
  datatype Limbs = Limbs(l0: nat, l1: nat, l2: nat, l3: nat, l4: nat)

  function Value(h: Limbs): nat {
    h.l0 + 0x400_0000 * h.l1 + 0x10_0000_0000_0000 * h.l2 + 0x4000_0000_0000_0000_0000 * h.l3
    + 0x100_0000_0000_0000_0000_0000_0000 * h.l4
  }

  /** A multiplier whose limbs are in the ranges the clamp leaves. */
  ghost predicate Clamped(r: Limbs) {
    r.l0 <= 0x3ff_ffff && r.l1 <= 0x3ff_ff03 && r.l2 <= 0x3ff_c0ff && r.l3 <= 0x3f0_3fff && r.l4 <= 0xf_ffff
  }

  /** The accumulator between blocks: reduced limbs, but for a small carry in the second. */
  ghost predicate Resting(h: Limbs) {
    h.l0 < 0x400_0000 && h.l1 < 0x400_0040 && h.l2 < 0x400_0000 && h.l3 < 0x400_0000 && h.l4 < 0x400_0000
  }

  /** The accumulator with a block added. */
  ghost predicate Loaded(h: Limbs) {
    h.l0 < 0x800_0000 && h.l1 < 0x800_0040 && h.l2 < 0x800_0000 && h.l3 < 0x800_0000 && h.l4 < 0x600_0000
  }

  lemma MulBound(a: nat, b: nat, A: nat, B: nat)
    requires a <= A && b <= B
    ensures 0 <= a * b <= A * B
  {
    assert a * b <= A * b && A * b <= A * B;
  }

  function Mul(a: nat, b: nat): nat {
    a * b
  }

  lemma MulFive(a: nat, b: nat)
    ensures Mul(a, 5 * b) == 5 * Mul(a, b)
  {
  }

  /** The five product sums, with the limbs past 2^130 folded back five-fold. */
  function Products(h: Limbs, r: Limbs): Limbs {
    var s1, s2, s3, s4 := 5 * r.l1, 5 * r.l2, 5 * r.l3, 5 * r.l4;
    Limbs(
      Mul(h.l0, r.l0) + Mul(h.l1, s4) + Mul(h.l2, s3) + Mul(h.l3, s2) + Mul(h.l4, s1),
      Mul(h.l0, r.l1) + Mul(h.l1, r.l0) + Mul(h.l2, s4) + Mul(h.l3, s3) + Mul(h.l4, s2),
      Mul(h.l0, r.l2) + Mul(h.l1, r.l1) + Mul(h.l2, r.l0) + Mul(h.l3, s4) + Mul(h.l4, s3),
      Mul(h.l0, r.l3) + Mul(h.l1, r.l2) + Mul(h.l2, r.l1) + Mul(h.l3, r.l0) + Mul(h.l4, s4),
      Mul(h.l0, r.l4) + Mul(h.l1, r.l3) + Mul(h.l2, r.l2) + Mul(h.l3, r.l1) + Mul(h.l4, r.l0))
  }

  function Row(h: Limbs, x: nat): Limbs {
    Limbs(Mul(h.l0, x), Mul(h.l1, x), Mul(h.l2, x), Mul(h.l3, x), Mul(h.l4, x))
  }

  function Plus(a: Limbs, b: Limbs): Limbs {
    Limbs(a.l0 + b.l0, a.l1 + b.l1, a.l2 + b.l2, a.l3 + b.l3, a.l4 + b.l4)
  }

  /** Every limb one place up, the top one folded back five-fold. */
  function Turned(a: Limbs): Limbs {
    Limbs(5 * a.l4, a.l0, a.l1, a.l2, a.l3)
  }

  lemma TurnedValue(a: Limbs)
    ensures 0x400_0000 * Value(a) == Value(Turned(a)) + P * a.l4
  {
  }

  lemma PlusValue(a: Limbs, b: Limbs)
    ensures Value(Plus(a, b)) == Value(a) + Value(b)
  {
  }

  lemma Spread(a: nat, b: nat, x: nat)
    ensures (a + b) * x == a * x + b * x
  {
  }

  lemma RowValue(h: Limbs, x: nat)
    ensures Value(Row(h, x)) == Value(h) * x
  {
    var B1, B2, B3, B4 := 0x400_0000, 0x10_0000_0000_0000, 0x4000_0000_0000_0000_0000, 0x100_0000_0000_0000_0000_0000_0000;
    var a, b, c, d, e := h.l0, B1 * h.l1, B2 * h.l2, B3 * h.l3, B4 * h.l4;
    Spread(a, b, x); Spread(a + b, c, x); Spread(a + b + c, d, x); Spread(a + b + c + d, e, x);
    Regroup(B1, h.l1, x); Regroup(B2, h.l2, x); Regroup(B3, h.l3, x); Regroup(B4, h.l4, x);
  }

  /** One step of the multiplication, from the multiplier's top limb down. */
  lemma RowStep(h: Limbs, x: nat, a: Limbs, acc: nat, k: nat) returns (n: nat)
    requires acc == Value(a) + P * k
    ensures Value(h) * x + 0x400_0000 * acc == Value(Plus(Row(h, x), Turned(a))) + P * n
  {
    hide Row, Plus, Turned, Value, P;
    n := a.l4 + 0x400_0000 * k;
    TurnedValue(a);
    PlusValue(Row(h, x), Turned(a));
    RowValue(h, x);
    Regroup(0x400_0000, P, k);
    assert P * n == P * a.l4 + 0x400_0000 * (P * k);
  }

  lemma FromTop(H: nat, r: Limbs)
    ensures H * Value(r)
      == H * r.l0 + 0x400_0000 * (H * r.l1 + 0x400_0000 * (H * r.l2 + 0x400_0000 * (H * r.l3 + 0x400_0000 * (H * r.l4))))
  {
  }

  /** What the folding leaves out is a multiple of the prime. */
  lemma ProductsValue(h: Limbs, r: Limbs) returns (k: nat)
    ensures Value(h) * Value(r) == Value(Products(h, r)) + P * k
  {
    hide Value, Products, Row, Plus, Turned, P;
    var H := Value(h);
    RowValue(h, r.l4);
    var a3 := Plus(Row(h, r.l3), Turned(Row(h, r.l4)));
    k := RowStep(h, r.l3, Row(h, r.l4), H * r.l4, 0);
    var a2 := Plus(Row(h, r.l2), Turned(a3));
    k := RowStep(h, r.l2, a3, H * r.l3 + 0x400_0000 * (H * r.l4), k);
    var a1 := Plus(Row(h, r.l1), Turned(a2));
    k := RowStep(h, r.l1, a2, H * r.l2 + 0x400_0000 * (H * r.l3 + 0x400_0000 * (H * r.l4)), k);
    k := RowStep(h, r.l0, a1,
                 H * r.l1 + 0x400_0000 * (H * r.l2 + 0x400_0000 * (H * r.l3 + 0x400_0000 * (H * r.l4))), k);
    FromTop(H, r);
    ProductsAreRows(h, r);
  }

  lemma ProductsAreRows(h: Limbs, r: Limbs)
    ensures Products(h, r) == Plus(Row(h, r.l0), Turned(Plus(Row(h, r.l1), Turned(Plus(Row(h, r.l2),
      Turned(Plus(Row(h, r.l3), Turned(Row(h, r.l4)))))))))
  {
    hide Mul;
    MulFive(h.l1, r.l4); MulFive(h.l2, r.l4); MulFive(h.l3, r.l4); MulFive(h.l4, r.l4); MulFive(h.l2, r.l3);
    MulFive(h.l3, r.l3); MulFive(h.l4, r.l3); MulFive(h.l3, r.l2); MulFive(h.l4, r.l2); MulFive(h.l4, r.l1);
  }

  /** The products fit a 64-bit word with room for the carries. */
  lemma ProductsRange(h: Limbs, r: Limbs)
    requires Loaded(h) && Clamped(r)
    ensures var d := Products(h, r);
      && d.l0 < 0x300_0000_0000_0000 && d.l1 < 0x300_0000_0000_0000 && d.l2 < 0x300_0000_0000_0000
      && d.l3 < 0x300_0000_0000_0000 && d.l4 < 0x90_0000_0000_0000
  {
    RowRange(h, r.l0, 5 * r.l4, 5 * r.l3, 5 * r.l2, 5 * r.l1);
    RowRange(h, r.l1, r.l0, 5 * r.l4, 5 * r.l3, 5 * r.l2);
    RowRange(h, r.l2, r.l1, r.l0, 5 * r.l4, 5 * r.l3);
    RowRange(h, r.l3, r.l2, r.l1, r.l0, 5 * r.l4);
    RowRange(h, r.l4, r.l3, r.l2, r.l1, r.l0);
  }

  lemma RowRange(h: Limbs, a: nat, b: nat, c: nat, d: nat, e: nat)
    requires Loaded(h)
    ensures 0 <= h.l0 * a + h.l1 * b + h.l2 * c + h.l3 * d + h.l4 * e <= 0x800_0040 * (a + b + c + d + e)
  {
    var top := 0x800_0040;
    MulBound(h.l0, a, top, a); MulBound(h.l1, b, top, b); MulBound(h.l2, c, top, c);
    MulBound(h.l3, d, top, d); MulBound(h.l4, e, top, e);
  }

  /** Masking with 26 set bits is the remainder by 2^26. */
  lemma Mask26(x: nat)
    ensures And(x, 0x3ff_ffff) == x % 0x400_0000
  {
    hide AndBits, Shr, Low;
    Powers();
    ShrDiv(0x3ff_ffff, 26);
    KeepLow(x, 0x3ff_ffff, 26, 6);
    ShrDiv(x, 26);
    MaskNone(Shr(x, 26), 6);
    ShlValue(0, 26);
  }

  lemma Shift26(x: nat)
    ensures Shr(x, 26) == x / 0x400_0000
  {
    Powers();
    ShrDiv(x, 26);
  }

  lemma Fits(x: nat)
    ensures x < W32 ==> U32(x) == x
    ensures x < W64 ==> U64(x) == x
  {
  }

  lemma LowOfLow(d: nat)
    ensures U32(d) % 0x400_0000 == d % 0x400_0000
  {
    DivUnique(d, 0x400_0000, 64 * (d / W32) + d % W32 / 0x400_0000, d % W32 % 0x400_0000);
  }

  /** One carry: the low 26 bits stay, the rest moves up a limb. */
  method Split(d: nat) returns (c: nat, l: nat)
    requires d < 0x400_0000_0000_0000
    ensures l < 0x400_0000 && d == l + 0x400_0000 * c && c < W32
  {
    hide Shr, And, U32;
    Shift26(d);
    Fits(Shr(d, 26));
    c := U32(Shr(d, 26));
    Mask26(U32(d));
    LowOfLow(d);
    l := And(U32(d), 0x3ff_ffff);
  }

  /** The ranges of the limbs along the carry chain, and what the chain adds up to. */
  lemma CarryChain(d: Limbs, c0: nat, c1: nat, c2: nat, c3: nat, c4: nat, c5: nat, h0: nat, n: Limbs)
    requires d.l0 == h0 + 0x400_0000 * c0
    requires d.l1 + c0 == n.l1 - c5 + 0x400_0000 * c1
    requires d.l2 + c1 == n.l2 + 0x400_0000 * c2
    requires d.l3 + c2 == n.l3 + 0x400_0000 * c3
    requires d.l4 + c3 == n.l4 + 0x400_0000 * c4
    requires h0 + 5 * c4 == n.l0 + 0x400_0000 * c5
    ensures Value(d) == Value(n) + P * c4
  {
  }

  /** Carrying keeps the value but for a multiple of the prime, and every word in range. */
  method Carry(d: Limbs) returns (n: Limbs, ghost k: nat)
    requires d.l0 < 0x300_0000_0000_0000 && d.l1 < 0x300_0000_0000_0000 && d.l2 < 0x300_0000_0000_0000
    requires d.l3 < 0x300_0000_0000_0000 && d.l4 < 0x90_0000_0000_0000
    ensures Resting(n)
    ensures Value(d) == Value(n) + P * k
  {
    hide Shr, And, Value, U32, U64, P;
    var c0, h0 := Split(d.l0);
    Fits(d.l1 + c0);
    var c1, h1 := Split(U64(d.l1 + c0));
    Fits(d.l2 + c1);
    var c2, h2 := Split(U64(d.l2 + c1));
    Fits(d.l3 + c2);
    var c3, h3 := Split(U64(d.l3 + c2));
    Fits(d.l4 + c3);
    var c4, h4 := Split(U64(d.l4 + c3));
    Fits(c4 * 5); Fits(h0 + c4 * 5);
    var f0 := U32(h0 + U32(c4 * 5));
    Shift26(f0); Mask26(f0);
    var c5 := Shr(f0, 26);
    Fits(h1 + c5);
    n, k := Limbs(And(f0, 0x3ff_ffff), U32(h1 + c5), h2, h3, h4), c4;
    CarryChain(d, c0, c1, c2, c3, c4, c5, h0, n);
  }

  /** Four bytes read as a little-endian word. */
  function Word(m: seq<byte>, i: nat): nat
    requires i + 4 <= |m|
  {
    FromLittleEndian(m[i..i + 4])
  }

  lemma WordBytes(m: seq<byte>, i: nat)
    requires i + 4 <= |m|
    ensures Word(m, i) == m[i] as int + 0x100 * m[i + 1] as int + 0x1_0000 * m[i + 2] as int + 0x100_0000 * m[i + 3] as int
  {
    var w := m[i..i + 4];
    assert FromLittleEndian(w[1..]) == w[1] + 256 * FromLittleEndian(w[2..]) by { assert w[1..][1..] == w[2..]; }
    assert FromLittleEndian(w[2..]) == w[2] + 256 * FromLittleEndian(w[3..]) by { assert w[2..][1..] == w[3..]; }
    assert FromLittleEndian(w[3..]) == w[3] by { assert w[3..][1..] == []; }
  }

  lemma Powers256()
    ensures Pow256(4) == W32 && Pow256(8) == W64 && Pow256(16) == W64 * W64
  {
    assert Pow256(8) == W32 * Pow256(4);
    assert Pow256(16) == W32 * Pow256(12) && Pow256(12) == W32 * Pow256(8);
  }

  /** Sixteen bytes as four words. */
  lemma FourWords(m: seq<byte>)
    requires |m| == 16
    ensures FromLittleEndian(m)
      == Word(m, 0) + W32 * Word(m, 4) + W64 * Word(m, 8) + 0x1_0000_0000_0000_0000_0000_0000 * Word(m, 12)
  {
    hide FromLittleEndian, Pow256;
    Powers256();
    assert m == m[0..4] + m[4..] && m[4..] == m[4..8] + m[8..] && m[8..] == m[8..12] + m[12..16];
    FromLittleEndianJoin(m[0..4], m[4..]);
    FromLittleEndianJoin(m[4..8], m[8..]);
    FromLittleEndianJoin(m[8..12], m[12..16]);
  }

  /** The 26 bits each shift leaves of a word. */
  lemma Window0(m: seq<byte>, i: nat)
    requires i + 4 <= |m|
    ensures var a, b, c, d := m[i] as int, m[i + 1] as int, m[i + 2] as int, m[i + 3] as int;
      Word(m, i) % 0x400_0000 == a + 256 * b + 65536 * c + 16777216 * (d % 4)
  {
    hide Word;
    WordBytes(m, i);
    var a, b, c, d := m[i] as int, m[i + 1] as int, m[i + 2] as int, m[i + 3] as int;
    DivUnique(a + 256 * b + 65536 * c + 16777216 * d, 0x400_0000, d / 4, a + 256 * b + 65536 * c + 16777216 * (d % 4));
  }

  lemma Window2(m: seq<byte>, i: nat)
    requires i + 4 <= |m|
    ensures var a, b, c, d := m[i] as int, m[i + 1] as int, m[i + 2] as int, m[i + 3] as int;
      Word(m, i) / 4 % 0x400_0000 == a / 4 + 64 * b + 16384 * c + 4194304 * (d % 16)
  {
    hide Word;
    WordBytes(m, i);
    var a, b, c, d := m[i] as int, m[i + 1] as int, m[i + 2] as int, m[i + 3] as int;
    DivUnique(Word(m, i), 4, a / 4 + 64 * b + 16384 * c + 4194304 * d, a % 4);
    DivUnique(a / 4 + 64 * b + 16384 * c + 4194304 * d, 0x400_0000, d / 16, a / 4 + 64 * b + 16384 * c + 4194304 * (d % 16));
  }

  lemma Window4(m: seq<byte>, i: nat)
    requires i + 4 <= |m|
    ensures var a, b, c, d := m[i] as int, m[i + 1] as int, m[i + 2] as int, m[i + 3] as int;
      Word(m, i) / 16 % 0x400_0000 == a / 16 + 16 * b + 4096 * c + 1048576 * (d % 64)
  {
    hide Word;
    WordBytes(m, i);
    var a, b, c, d := m[i] as int, m[i + 1] as int, m[i + 2] as int, m[i + 3] as int;
    DivUnique(Word(m, i), 16, a / 16 + 16 * b + 4096 * c + 1048576 * d, a % 16);
    DivUnique(a / 16 + 16 * b + 4096 * c + 1048576 * d, 0x400_0000, d / 64, a / 16 + 16 * b + 4096 * c + 1048576 * (d % 64));
  }

  lemma Window6(m: seq<byte>, i: nat)
    requires i + 4 <= |m|
    ensures var a, b, c, d := m[i] as int, m[i + 1] as int, m[i + 2] as int, m[i + 3] as int;
      Word(m, i) / 64 % 0x400_0000 == a / 64 + 4 * b + 1024 * c + 262144 * d
  {
    hide Word;
    WordBytes(m, i);
    var a, b, c, d := m[i] as int, m[i + 1] as int, m[i + 2] as int, m[i + 3] as int;
    DivUnique(Word(m, i), 64, a / 64 + 4 * b + 1024 * c + 262144 * d, a % 64);
  }

  /** The five overlapping words of a block, shifted and masked, are the limbs of its number. */
  lemma BlockLimbs(m: seq<byte>)
    requires |m| == 16
    ensures FromLittleEndian(m) == Value(Limbs(Word(m, 0) % 0x400_0000, Word(m, 3) / 4 % 0x400_0000,
      Word(m, 6) / 16 % 0x400_0000, Word(m, 9) / 64 % 0x400_0000, Word(m, 12) / 256))
    ensures Word(m, 12) / 256 < 0x100_0000
  {
    hide Word, FromLittleEndian, Value;
    FourWords(m);
    Window0(m, 0); Window2(m, 3); Window4(m, 6); Window6(m, 9);
    WordBytes(m, 12);
    assert Word(m, 12) / 256 == m[13] as int + 0x100 * m[14] as int + 0x1_0000 * m[15] as int;
    LimbSum(Word(m, 0) % 0x400_0000, Word(m, 3) / 4 % 0x400_0000, Word(m, 6) / 16 % 0x400_0000,
            Word(m, 9) / 64 % 0x400_0000, Word(m, 12) / 256, m);
  }

  lemma LimbSum(l0: nat, l1: nat, l2: nat, l3: nat, l4: nat, m: seq<byte>)
    requires |m| == 16
    requires l0 == m[0] as int + 0x100 * m[1] as int + 0x1_0000 * m[2] as int + 0x100_0000 * (m[3] as int % 4)
    requires l1 == m[3] as int / 4 + 0x40 * m[4] as int + 0x4000 * m[5] as int + 0x40_0000 * (m[6] as int % 16)
    requires l2 == m[6] as int / 16 + 0x10 * m[7] as int + 0x1000 * m[8] as int + 0x10_0000 * (m[9] as int % 64)
    requires l3 == m[9] as int / 64 + 4 * m[10] as int + 0x400 * m[11] as int + 0x4_0000 * m[12] as int
    requires l4 == m[13] as int + 0x100 * m[14] as int + 0x1_0000 * m[15] as int
    ensures Value(Limbs(l0, l1, l2, l3, l4))
      == Word(m, 0) + W32 * Word(m, 4) + W64 * Word(m, 8) + 0x1_0000_0000_0000_0000_0000_0000 * Word(m, 12)
  {
    hide Word;
    WordBytes(m, 0); WordBytes(m, 4); WordBytes(m, 8); WordBytes(m, 12);
  }

  lemma OrTop(x: nat, top: bool)
    requires x < 0x100_0000
    ensures Or(x, if top then 0x100_0000 else 0) == x + if top then 0x100_0000 else 0
  {
    hide OrBits, Shl, Shr, Low, Pow2;
    HighBit();
    if top { OrShifted(x, 1, 24, 8); } else { OrLow(x); }
  }

  lemma HighBit()
    ensures Pow2(24) == 0x100_0000 && Shl(1, 24) == 0x100_0000 && Low(1, 8) == 1
  {
    hide Shl, Low, Pow2;
    Powers();
    ShlValue(1, 24);
    ShrDiv(1, 8);
  }

  lemma OrLow(x: nat)
    requires x < 0x100_0000
    ensures OrBits(x, 0, 32) == x
  {
    hide OrBits, Low, Pow2, Shr;
    Powers();
    OrNothing(x, 32);
    ShrDiv(x, 32);
  }

  lemma Shifts(x: nat)
    ensures Shr(x, 2) == x / 4 && Shr(x, 4) == x / 16 && Shr(x, 6) == x / 64 && Shr(x, 8) == x / 256
  {
    Powers();
    ShrDiv(x, 2); ShrDiv(x, 4); ShrDiv(x, 6); ShrDiv(x, 8);
  }

  /** Adding a block, with or without the 2^128 bit, neither wraps a limb nor loses a bit. */
  method Load(h: Limbs, m: seq<byte>, final: bool) returns (n: Limbs)
    requires |m| == 16 && Resting(h)
    ensures Loaded(n)
    ensures Value(n) == Value(h) + FromLittleEndian(m) + if final then 0 else TOP
  {
    hide And, Or, Shr, U32, U64, Word, FromLittleEndian;
    var hibit := if final then 0 else 0x100_0000;
    var w0, w3, w6, w9, w12 := Word(m, 0), Word(m, 3), Word(m, 6), Word(m, 9), Word(m, 12);
    BlockLimbs(m);
    Shifts(w3); Shifts(w6); Shifts(w9); Shifts(w12);
    Mask26(w0); Mask26(Shr(w3, 2)); Mask26(Shr(w6, 4)); Mask26(Shr(w9, 6)); OrTop(Shr(w12, 8), !final);
    Fits(h.l0 + w0 % 0x400_0000); Fits(h.l1 + w3 / 4 % 0x400_0000); Fits(h.l2 + w6 / 16 % 0x400_0000);
    Fits(h.l3 + w9 / 64 % 0x400_0000); Fits(h.l4 + w12 / 256 + hibit);
    n := Limbs(U32(h.l0 + And(w0, 0x3ff_ffff)), U32(h.l1 + And(Shr(w3, 2), 0x3ff_ffff)),
      U32(h.l2 + And(Shr(w6, 4), 0x3ff_ffff)), U32(h.l3 + And(Shr(w9, 6), 0x3ff_ffff)), U32(h.l4 + Or(Shr(w12, 8), hibit)));
  }

  /** The residue by the prime. */
  function ModP(x: nat): (r: nat)
    ensures r < P
  {
    x % P
  }

  /** One step of the polynomial: add a number, multiply, reduce. */
  function Step(x: nat, n: nat, r: nat): nat {
    ModP((x + n) * r)
  }

  lemma SameResidue(a: nat, b: nat, k: int)
    requires a == b + P * k
    ensures ModP(a) == ModP(b)
  {
  }

  /** One block: the accumulator plus the block, times the multiplier, up to the prime. */
  method Block(h: Limbs, r: Limbs, m: seq<byte>, final: bool) returns (n: Limbs)
    requires |m| == 16 && Resting(h) && Clamped(r)
    ensures Resting(n)
    ensures ModP(Value(n)) == Step(Value(h), FromLittleEndian(m) + if final then 0 else TOP, Value(r))
  {
    hide Value, Products, U64, P, FromLittleEndian, ModP;
    var l := Load(h, m, final);
    ProductsRange(l, r);
    var d := Products(l, r);
    Fits(d.l0); Fits(d.l1); Fits(d.l2); Fits(d.l3); Fits(d.l4);
    ghost var k, j: nat;
    n, k := Carry(Limbs(U64(d.l0), U64(d.l1), U64(d.l2), U64(d.l3), U64(d.l4)));
    j := ProductsValue(l, r);
    assert P * (k + j) == P * k + P * j;
    SameResidue(Value(l) * Value(r), Value(n), k + j);
  }

  /** The clamp of section 2.5 of RFC 8439, over all 128 bits. */
  const CLAMP: nat := 0xfff_fffc_0fff_fffc_0fff_fffc_0fff_ffff

  /** The clamp word by word. */
  lemma ClampWords(v: nat, t0: nat, t1: nat, t2: nat, t3: nat)
    requires t0 < W32 && t1 < W32 && t2 < W32 && t3 < W32
    requires v == t0 + W32 * t1 + W64 * t2 + 0x1_0000_0000_0000_0000_0000_0000 * t3
    ensures AndBits(v, CLAMP, 128) == t0 % 0x1000_0000 + W32 * (t1 / 4 % 0x400_0000 * 4)
      + W64 * (t2 / 4 % 0x400_0000 * 4) + 0x1_0000_0000_0000_0000_0000_0000 * (t3 / 4 % 0x400_0000 * 4)
  {
    hide AndBits, Shr, Low, Shl;
    Powers();
    var v1, v2, m1, m2, m3 := t1 + W32 * t2 + W64 * t3, t2 + W32 * t3, 0xfff_fffc_0fff_fffc_0fff_fffc, 0xfff_fffc_0fff_fffc, 0xfff_fffc;
    WordSplit(v, CLAMP, t0, v1, 0xfff_ffff, m1, 96);
    WordSplit(v1, m1, t1, v2, 0xfff_fffc, m2, 64);
    WordSplit(v2, m2, t2, t3, 0xfff_fffc, m3, 32);
    ClampLow(t0); ClampHigh(t1); ClampHigh(t2); ClampHigh(t3);
  }

  lemma WordSplit(v: nat, m: nat, t: nat, v': nat, n: nat, m': nat, k: nat)
    requires v == t + W32 * v' && t < W32 && m == n + W32 * m' && n < W32
    ensures AndBits(v, m, 32 + k) == And(t, n) + W32 * AndBits(v', m', k)
  {
    hide AndBits, Shr, Low, Shl;
    Powers();
    ShrDiv(v, 32); ShrDiv(m, 32);
    AndSplit(v, m, 32, k);
    ShrDiv(t, 32); ShrDiv(n, 32);
    AndLow(v, t, m, n, 32);
    ShlValue(AndBits(v', m', k), 32);
  }

  lemma Parity(x: nat, y: nat, x': nat, y': nat)
    requires x < 2 && x' < 2 && x + 2 * y == x' + 2 * y'
    ensures x == x' && y == y'
  {
  }

  /** The low bits of an and depend on nothing above them. */
  lemma {:induction false} AndLow(a: nat, a': nat, b: nat, b': nat, k: nat)
    requires Low(a, k) == Low(a', k) && Low(b, k) == Low(b', k)
    ensures AndBits(a, b, k) == AndBits(a', b', k)
  {
    if k > 0 {
      Parity(a % 2, Low(a / 2, k - 1), a' % 2, Low(a' / 2, k - 1));
      Parity(b % 2, Low(b / 2, k - 1), b' % 2, Low(b' / 2, k - 1));
      AndLow(a / 2, a' / 2, b / 2, b' / 2, k - 1);
    }
  }

  lemma ClampLow(t: nat)
    ensures And(t, 0xfff_ffff) == t % 0x1000_0000
  {
    hide AndBits, Shr, Low, Shl;
    Powers();
    ShrDiv(0xfff_ffff, 28); ShrDiv(t, 28);
    KeepLow(t, 0xfff_ffff, 28, 4);
    MaskNone(Shr(t, 28), 4);
    ShlValue(0, 28);
  }

  lemma ClampHigh(t: nat)
    ensures And(t, 0xfff_fffc) == t / 4 % 0x400_0000 * 4
  {
    hide AndBits, Shr, Low, Shl, Pow2;
    Powers();
    Windows(t, 0xfff_fffc, 0, 2, 26, 1, 4, 0x400_0000);
  }

  /** Two windows of a word, as arithmetic. */
  lemma Windows(x: nat, m: nat, i: nat, j: nat, k: nat, p: nat, q: nat, s: nat)
    requires i + j + k <= 32 && p == Pow2(i) && q == Pow2(j) && s == Pow2(k)
    requires m % p == p - 1 && m / p % q == 0 && m / p / q == s - 1
    ensures And(x, m) == x % p + p * (q * (x / p / q % s))
  {
    hide AndBits, Shr, Low, Shl, Pow2;
    ShrDiv(m, i); ShrDiv(Shr(m, i), j); ShrDiv(Shr(Shr(m, i), j), k);
    DivUnique(s - 1, s, 0, s - 1);
    TwoWindows(x, m, i, j, k);
    ShrDiv(x, i); ShrDiv(Shr(x, i), j); ShrDiv(Shr(Shr(x, i), j), k);
    var z := Low(Shr(Shr(x, i), j), k);
    ShlValue(z, j); ShlValue(Shl(z, j), i);
  }

  /** The middle limbs: a window of one key word under a window of the next. */
  lemma ClampLimb1(t0: nat, t1: nat)
    requires t0 < W32 && t1 < W32
    ensures And(Or(Shr(t0, 26), U32(Shl(t1, 6))), 0x3ff_ff03) == t0 / 0x4000000 % 0x4 + 0x100 * (t1 / 4 % 0x40000)
  {
    hide AndBits, OrBits, Shr, Low, Shl, Pow2, And, Or, U32;
    Powers();
    ShrDiv(t0, 26);
    var a, b := t0 / 0x4000000, t1 % 0x4000000;
    OrWord(a, t1, 6);
    var x := a + 0x40 * b;
    Windows(x, 0x3ff_ff03, 2, 6, 18, 0x4, 64, 0x40000);
    DivUnique(x, 0x4, a / 0x4 + 16 * b, a % 0x4);
    DivUnique(a / 0x4 + 16 * b, 64, b / 4, a / 0x4 + 16 * (b % 4));
    DivUnique(t1 / 4, 0x40000, b / 4 / 0x40000 + 64 * (t1 / 0x4000000), b / 4 % 0x40000);
  }

  lemma ClampLimb2(t1: nat, t2: nat)
    requires t1 < W32 && t2 < W32
    ensures And(Or(Shr(t1, 20), U32(Shl(t2, 12))), 0x3ff_c0ff) == t1 / 0x100000 % 0x100 + 0x4000 * (t2 / 4 % 0x1000)
  {
    hide AndBits, OrBits, Shr, Low, Shl, Pow2, And, Or, U32;
    Powers();
    ShrDiv(t1, 20);
    var a, b := t1 / 0x100000, t2 % 0x100000;
    OrWord(a, t2, 12);
    var x := a + 0x1000 * b;
    Windows(x, 0x3ff_c0ff, 8, 6, 12, 0x100, 64, 0x1000);
    DivUnique(x, 0x100, a / 0x100 + 16 * b, a % 0x100);
    DivUnique(a / 0x100 + 16 * b, 64, b / 4, a / 0x100 + 16 * (b % 4));
    DivUnique(t2 / 4, 0x1000, b / 4 / 0x1000 + 64 * (t2 / 0x100000), b / 4 % 0x1000);
  }

  lemma ClampLimb3(t2: nat, t3: nat)
    requires t2 < W32 && t3 < W32
    ensures And(Or(Shr(t2, 14), U32(Shl(t3, 18))), 0x3f0_3fff) == t2 / 0x4000 % 0x4000 + 0x100000 * (t3 / 4 % 0x40)
  {
    hide AndBits, OrBits, Shr, Low, Shl, Pow2, And, Or, U32;
    Powers();
    ShrDiv(t2, 14);
    var a, b := t2 / 0x4000, t3 % 0x4000;
    OrWord(a, t3, 18);
    var x := a + 0x40000 * b;
    Windows(x, 0x3f0_3fff, 14, 6, 6, 0x4000, 64, 0x40);
    DivUnique(x, 0x4000, a / 0x4000 + 16 * b, a % 0x4000);
    DivUnique(a / 0x4000 + 16 * b, 64, b / 4, a / 0x4000 + 16 * (b % 4));
    DivUnique(t3 / 4, 0x40, b / 4 / 0x40 + 64 * (t3 / 0x4000), b / 4 % 0x40);
  }

  /** The five limbs are the clamped number. */
  lemma ClampSum(t0: nat, t1: nat, t2: nat, t3: nat, r: Limbs)
    requires t0 < W32 && t1 < W32 && t2 < W32 && t3 < W32
    requires r == Limbs(t0 % 0x400_0000, t0 / 0x400_0000 % 4 + 0x100 * (t1 / 4 % 0x4_0000),
      t1 / 0x10_0000 % 0x100 + 0x4000 * (t2 / 4 % 0x1000), t2 / 0x4000 % 0x4000 + 0x10_0000 * (t3 / 4 % 0x40),
      t3 / 0x100 % 0x10_0000)
    ensures Clamped(r)
    ensures Value(r) == t0 % 0x1000_0000 + W32 * (t1 / 4 % 0x400_0000 * 4)
      + W64 * (t2 / 4 % 0x400_0000 * 4) + 0x1_0000_0000_0000_0000_0000_0000 * (t3 / 4 % 0x400_0000 * 4)
  {
    DivUnique(t0, 0x1000_0000, t0 / 0x1000_0000, t0 % 0x400_0000 + 0x400_0000 * (t0 / 0x400_0000 % 4));
    ClampParts(t1, 0x4_0000, 0x100); ClampParts(t2, 0x1000, 0x4000); ClampParts(t3, 0x40, 0x10_0000);
  }

  lemma ClampParts(t: nat, p: nat, q: nat)
    requires p > 0 && q > 0 && p * q == 0x400_0000
    ensures t / 4 % 0x400_0000 == t / 4 % p + p * (t / (4 * p) % q)
  {
    DivDiv(t, 4, p);
    DivDiv(t / 4, p, q);
  }

  /** The multiplier read off the key: its limbs are in the clamp's ranges and make up the clamped number. */
  method ReadMultiplier(key: seq<byte>) returns (r: Limbs)
    requires |key| == 32
    ensures Clamped(r)
    ensures Value(r) == AndBits(FromLittleEndian(key[..16]), CLAMP, 128)
  {
    hide AndBits, OrBits, Shr, Low, Shl, Pow2, And, Or, U32, Value, CLAMP, FromLittleEndian, Word;
    var half := key[..16];
    var t0, t1, t2, t3 := Word(half, 0), Word(half, 4), Word(half, 8), Word(half, 12);
    FourWords(half);
    WordBytes(half, 0); WordBytes(half, 4); WordBytes(half, 8); WordBytes(half, 12);
    ClampWords(FromLittleEndian(half), t0, t1, t2, t3);
    Mask26(t0); ClampLimb1(t0, t1); ClampLimb2(t1, t2); ClampLimb3(t2, t3); TopLimb(t3);
    r := Limbs(And(t0, 0x3ff_ffff), And(Or(Shr(t0, 26), U32(Shl(t1, 6))), 0x3ff_ff03),
      And(Or(Shr(t1, 20), U32(Shl(t2, 12))), 0x3ff_c0ff), And(Or(Shr(t2, 14), U32(Shl(t3, 18))), 0x3f0_3fff),
      And(Shr(t3, 8), 0xf_ffff));
    ClampSum(t0, t1, t2, t3, r);
  }

  lemma TopLimb(t: nat)
    ensures And(Shr(t, 8), 0xf_ffff) == t / 0x100 % 0x10_0000
  {
    hide AndBits, Shr, Low, Shl, Pow2, And;
    Powers();
    ShrDiv(t, 8);
    Windows(Shr(t, 8), 0xf_ffff, 20, 0, 0, 0x10_0000, 1, 1);
  }

  /** Every limb within its 26 bits. */
  ghost predicate Reduced(h: Limbs) {
    h.l0 < 0x400_0000 && h.l1 < 0x400_0000 && h.l2 < 0x400_0000 && h.l3 < 0x400_0000 && h.l4 < 0x400_0000
  }

  /** The second carry leaves every limb within its bits: the fold back cannot overflow again. */
  method Settle(h: Limbs) returns (n: Limbs, ghost k: nat)
    requires Resting(h)
    ensures Reduced(n)
    ensures Value(h) == Value(n) + P * k
  {
    hide Shr, And, Value, U32, U64, P;
    var c1, h1 := Split(h.l1);
    Fits(h.l2 + c1);
    var c2, h2 := Split(U32(h.l2 + c1));
    Fits(h.l3 + c2);
    var c3, h3 := Split(U32(h.l3 + c2));
    Fits(h.l4 + c3);
    var c4, h4 := Split(U32(h.l4 + c3));
    Fits(c4 * 5); Fits(h.l0 + c4 * 5);
    var c5, h0 := Split(U32(h.l0 + U32(c4 * 5)));
    Fits(h1 + c5);
    n, k := Limbs(h0, U32(h1 + c5), h2, h3, h4), c4;
    CarryChain(h, 0, c1, c2, c3, c4, c5, h.l0, n);
  }

  /** A word under a mask of all ones or all zeros, or'd with one under the other mask. */
  lemma Select(x: nat, g: nat, keep: bool)
    requires x < W32 && g < W32
    ensures Or(And(x, if keep then 0xffff_ffff else 0), And(g, if keep then 0 else 0xffff_ffff)) == if keep then x else g
  {
    hide AndBits, OrBits, Shr, Low, Shl, Pow2;
    AllOnes(x); AllOnes(g);
    MaskNone(x, 32); MaskNone(g, 32);
    OrNothing(x, 32); OrNothing(g, 32);
    Powers();
    ShrDiv(x, 32); ShrDiv(g, 32);
  }

  lemma AllOnes(x: nat)
    requires x < W32
    ensures And(x, 0xffff_ffff) == x
  {
    hide AndBits, Shr, Low, Shl, Pow2;
    Powers();
    ShrDiv(0xffff_ffff, 32); ShrDiv(x, 32);
    KeepLow(x, 0xffff_ffff, 32, 0);
    MaskNone(Shr(x, 32), 0);
    ShlValue(0, 32);
    assert AndBits(Shr(x, 32), Shr(0xffff_ffff, 32), 0) == 0;
  }

  /** The branchless comparison with the prime, and the canonical residue it selects. */
  method Canonical(h: Limbs) returns (n: Limbs)
    requires Reduced(h)
    ensures Reduced(n) && Value(n) == ModP(Value(h))
  {
    hide Shr, And, Or, Value, U32, U64, P, ModP;
    Fits(h.l0 + 5); Shift26(h.l0 + 5); Mask26(h.l0 + 5);
    var c, g0 := Shr(U32(h.l0 + 5), 26), And(U32(h.l0 + 5), 0x3ff_ffff);
    ghost var c0 := c;
    Fits(h.l1 + c); Shift26(h.l1 + c); Mask26(h.l1 + c);
    var g1 := And(U32(h.l1 + c), 0x3ff_ffff);
    c := Shr(U32(h.l1 + c), 26);
    ghost var c1 := c;
    Fits(h.l2 + c); Shift26(h.l2 + c); Mask26(h.l2 + c);
    var g2 := And(U32(h.l2 + c), 0x3ff_ffff);
    c := Shr(U32(h.l2 + c), 26);
    ghost var c2 := c;
    Fits(h.l3 + c); Shift26(h.l3 + c); Mask26(h.l3 + c);
    var g3 := And(U32(h.l3 + c), 0x3ff_ffff);
    c := Shr(U32(h.l3 + c), 26);
    var g4 := U32(h.l4 + c - 0x400_0000);
    Borrow(h.l4 + c);
    ghost var over := h.l4 + c >= 0x400_0000;
    var mask := U32(Shr(g4, 31) - 1);
    var rest := 0xffff_ffff - mask;
    Select(h.l0, g0, !over); Select(h.l1, g1, !over); Select(h.l2, g2, !over); Select(h.l3, g3, !over); Select(h.l4, g4, !over);
    n := Limbs(Or(And(h.l0, rest), And(g0, mask)), Or(And(h.l1, rest), And(g1, mask)), Or(And(h.l2, rest), And(g2, mask)),
      Or(And(h.l3, rest), And(g3, mask)), Or(And(h.l4, rest), And(g4, mask)));
    MinusPrime(h, c0, c1, c2, c, g0, g1, g2, g3, n);
  }

  /** The sign bit of the top limb says whether the subtraction borrowed. */
  lemma Borrow(x: nat)
    requires x <= 0x400_0000
    ensures U32(x - 0x400_0000) == if x >= 0x400_0000 then x - 0x400_0000 else W32 + x - 0x400_0000
    ensures U32(Shr(U32(x - 0x400_0000), 31) - 1) == if x >= 0x400_0000 then 0xffff_ffff else 0
  {
    hide Shr;
    TopBit(U32(x - 0x400_0000));
  }

  lemma TopBit(x: nat)
    requires x < W32
    ensures Shr(x, 31) == if x < 0x8000_0000 then 0 else 1
  {
    hide Shr, Pow2;
    Powers();
    ShrDiv(x, 31);
  }

  lemma MinusPrime(h: Limbs, c0: nat, c1: nat, c2: nat, c3: nat, g0: nat, g1: nat, g2: nat, g3: nat, n: Limbs)
    requires Reduced(h) && g0 < 0x400_0000 && g1 < 0x400_0000 && g2 < 0x400_0000 && g3 < 0x400_0000
    requires h.l0 + 5 == g0 + 0x400_0000 * c0 && h.l1 + c0 == g1 + 0x400_0000 * c1
    requires h.l2 + c1 == g2 + 0x400_0000 * c2 && h.l3 + c2 == g3 + 0x400_0000 * c3
    requires n == if h.l4 + c3 >= 0x400_0000 then Limbs(g0, g1, g2, g3, h.l4 + c3 - 0x400_0000) else h
    ensures Value(n) == ModP(Value(h))
  {
    hide P;
    PrimeIs();
    if h.l4 + c3 >= 0x400_0000 {
      assert Value(h) == Value(n) + P;
      DivUnique(Value(h), P, 1, Value(n));
    } else {
      DivUnique(Value(h), P, 0, Value(n));
    }
  }

  lemma PrimeIs()
    ensures P == 0x4_0000_0000_0000_0000_0000_0000_0000_0000 - 5
  {
  }

  /** Four 32-bit words, least significant first. */
  datatype Quad = Quad(w0: nat, w1: nat, w2: nat, w3: nat)

  function QuadValue(q: Quad): nat {
    q.w0 + W32 * q.w1 + W64 * q.w2 + 0x1_0000_0000_0000_0000_0000_0000 * q.w3
  }

  ghost predicate InWords(q: Quad) {
    q.w0 < W32 && q.w1 < W32 && q.w2 < W32 && q.w3 < W32
  }

  /** Back from limbs to words: the number, less its bits from 2^128 up. */
  method Pack(h: Limbs) returns (f: Quad)
    requires Reduced(h)
    ensures InWords(f) && QuadValue(f) == Value(h) % TOP
  {
    hide Shr, Shl, Or, U32, Pow2, Value, QuadValue;
    Powers();
    OrWord(h.l0, h.l1, 26);
    ShrDiv(h.l1, 6); OrWord(h.l1 / 0x40, h.l2, 20);
    ShrDiv(h.l2, 12); OrWord(h.l2 / 0x1000, h.l3, 14);
    ShrDiv(h.l3, 18); OrWord(h.l3 / 0x4_0000, h.l4, 8);
    f := Quad(Or(h.l0, U32(Shl(h.l1, 26))), Or(Shr(h.l1, 6), U32(Shl(h.l2, 20))),
      Or(Shr(h.l2, 12), U32(Shl(h.l3, 14))), Or(Shr(h.l3, 18), U32(Shl(h.l4, 8))));
    PackSum(h, f);
  }

  lemma PackSum(h: Limbs, f: Quad)
    requires Reduced(h)
    requires f == Quad(h.l0 + 0x400_0000 * (h.l1 % 0x40), h.l1 / 0x40 + 0x10_0000 * (h.l2 % 0x1000),
      h.l2 / 0x1000 + 0x4000 * (h.l3 % 0x4_0000), h.l3 / 0x4_0000 + 0x100 * (h.l4 % 0x100_0000))
    ensures InWords(f) && QuadValue(f) == Value(h) % TOP
  {
    DivUnique(Value(h), TOP, h.l4 / 0x100_0000, QuadValue(f));
  }

  /** Adding the second half of the key, modulo 2^128. */
  method AddPad(f: Quad, pad: Quad) returns (n: Quad)
    requires InWords(f) && InWords(pad)
    ensures InWords(n)
    ensures QuadValue(n) == (QuadValue(f) + QuadValue(pad)) % TOP
  {
    hide Shr, QuadValue, Pow2;
    Powers();
    var t := f.w0 + pad.w0;
    var n0 := U32(t);
    ShrDiv(t, 32);
    ghost var c0 := t / W32;
    t := f.w1 + pad.w1 + Shr(t, 32);
    var n1 := U32(t);
    ShrDiv(t, 32);
    ghost var c1 := t / W32;
    t := f.w2 + pad.w2 + Shr(t, 32);
    var n2 := U32(t);
    ShrDiv(t, 32);
    ghost var c2 := t / W32;
    t := f.w3 + pad.w3 + Shr(t, 32);
    assert t < W64;
    n := Quad(n0, n1, n2, U32(t));
    PadSum(f, pad, n, c0, c1, c2, t / W32);
  }

  lemma PadSum(f: Quad, pad: Quad, n: Quad, c0: nat, c1: nat, c2: nat, c3: nat)
    requires InWords(n)
    requires f.w0 + pad.w0 == n.w0 + W32 * c0 && f.w1 + pad.w1 + c0 == n.w1 + W32 * c1
    requires f.w2 + pad.w2 + c1 == n.w2 + W32 * c2 && f.w3 + pad.w3 + c2 == n.w3 + W32 * c3
    ensures QuadValue(n) == (QuadValue(f) + QuadValue(pad)) % TOP
  {
    DivUnique(QuadValue(f) + QuadValue(pad), TOP, c3, QuadValue(n));
  }
}
