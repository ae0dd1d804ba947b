/** Bitwise operators on machine words, and what masks and shifts come to as arithmetic. */
module Words {
  import opened Bytes

  const W32: nat := 0x1_0000_0000
  const W64: nat := 0x1_0000_0000_0000_0000

  type Word64 = x: int | 0 <= x < W64

  /** Truncation to a 32-bit and to a 64-bit word. */
  function U32(x: int): (r: nat)
    ensures r < W32
  {
    x % W32
  }

  function U64(x: int): (r: nat)
    ensures r < W64
  {
    x % W64
  }

  /** The low k bits of the bitwise and. */
  function AndBits(a: nat, b: nat, k: nat): nat {
    if k == 0 then 0 else (a % 2) * (b % 2) + 2 * AndBits(a / 2, b / 2, k - 1)
  }

  /** The low k bits of the bitwise or. */
  function OrBits(a: nat, b: nat, k: nat): nat {
    if k == 0 then 0 else (a % 2 + b % 2 + 1) / 2 + 2 * OrBits(a / 2, b / 2, k - 1)
  }

  function And(a: nat, b: nat): nat {
    AndBits(a, b, 32)
  }

  function Or(a: nat, b: nat): nat {
    OrBits(a, b, 32)
  }

  /** Shifts by j bits, one bit at a time, and the j bits a right shift drops. */
  function Shr(a: nat, j: nat): nat {
    if j == 0 then a else Shr(a / 2, j - 1)
  }

  function Low(a: nat, j: nat): nat {
    if j == 0 then 0 else a % 2 + 2 * Low(a / 2, j - 1)
  }

  function Shl(b: nat, j: nat): nat {
    if j == 0 then b else 2 * Shl(b, j - 1)
  }

  lemma {:induction false} Pow2Sum(j: nat, k: nat)
    ensures Pow2(j + k) == Pow2(j) * Pow2(k)
  {
    if j > 0 { Pow2Sum(j - 1, k); }
  }

  lemma {:induction false} ShlValue(b: nat, j: nat)
    ensures Shl(b, j) == Pow2(j) * b
  {
    if j > 0 { ShlValue(b, j - 1); }
  }

  /** A shift right and the bits it drops make up the number. */
  lemma {:induction false} ShrLow(a: nat, j: nat)
    ensures a == Low(a, j) + Shl(Shr(a, j), j)
    ensures Low(a, j) < Pow2(j)
  {
    if j > 0 { ShrLow(a / 2, j - 1); }
  }

  /** A mask whose low j bits are all set keeps the low j bits. */
  lemma {:induction false} KeepLow(a: nat, m: nat, j: nat, k: nat)
    requires Low(m, j) == Pow2(j) - 1
    ensures AndBits(a, m, j + k) == Low(a, j) + Shl(AndBits(Shr(a, j), Shr(m, j), k), j)
  {
    if j > 0 {
      ShrLow(m / 2, j - 1);
      KeepLow(a / 2, m / 2, j - 1, k);
    }
  }

  /** A mask whose low j bits are all clear drops them. */
  lemma {:induction false} DropLow(a: nat, m: nat, j: nat, k: nat)
    requires Low(m, j) == 0
    ensures AndBits(a, m, j + k) == Shl(AndBits(Shr(a, j), Shr(m, j), k), j)
  {
    if j > 0 { DropLow(a / 2, m / 2, j - 1, k); }
  }

  lemma {:induction false} OrNothing(b: nat, k: nat)
    ensures OrBits(0, b, k) == OrBits(b, 0, k) == Low(b, k)
  {
    if k > 0 { OrNothing(b / 2, k - 1); }
  }

  lemma OrEven(a: nat, q: nat, k: nat)
    requires k > 0
    ensures OrBits(a, 2 * q, k) == a % 2 + 2 * OrBits(a / 2, q, k - 1)
  {
    assert (2 * q) % 2 == 0 && (2 * q) / 2 == q && (a % 2 + 1) / 2 == a % 2;
  }

  /** The or of a number below 2^j and one shifted up by j is their sum. */
  lemma {:induction false} OrShifted(a: nat, b: nat, j: nat, k: nat)
    requires a < Pow2(j)
    ensures OrBits(a, Shl(b, j), j + k) == a + Shl(Low(b, k), j)
  {
    if j == 0 {
      OrNothing(b, k);
    } else {
      var q := Shl(b, j - 1);
      OrShifted(a / 2, b, j - 1, k);
      OrEven(a, q, j + k);
    }
  }

  lemma MulMono(p: nat, x: int, y: int)
    requires x <= y
    ensures p * x <= p * y
  {
  }

  /** Quotient and remainder are the only ones of their kind. */
  lemma DivUnique(a: int, p: nat, q: int, s: int)
    requires p > 0 && a == p * q + s && 0 <= s < p
    ensures a / p == q && a % p == s
  {
    var q', s' := a / p, a % p;
    assert a == p * q' + s' && 0 <= s' < p;
    if q < q' { MulMono(p, q + 1, q'); }
    if q' < q { MulMono(p, q' + 1, q); }
  }

  /** Dividing twice leaves one remainder by the product. */
  lemma TwoLevels(a: int, p: nat, q: nat, v: int, s: int, w: int, t: int)
    requires 0 <= s < p && 0 <= t < q && a == p * v + s && v == q * w + t
    ensures a == (p * q) * w + (p * t + s) && 0 <= p * t + s < p * q
  {
    Regroup(p, q, w);
    assert p * (q * w + t) == p * (q * w) + p * t;
    MulMono(p, t + 1, q); MulMono(p, 0, t);
    assert p * (t + 1) == p * t + p;
  }

  lemma DivDiv(a: nat, p: nat, q: nat)
    requires p > 0 && q > 0
    ensures p * q > 0 && a / p / q == a / (p * q)
    ensures a % (p * q) == a % p + p * (a / p % q)
  {
    var v := a / p;
    TwoLevels(a, p, q, v, a % p, v / q, v % q);
    DivUnique(a, p * q, v / q, p * (v % q) + a % p);
  }

  lemma ScaledMod(p: nat, q: nat, b: nat)
    requires p > 0 && q > 0
    ensures p * q > 0 && (p * b) % (p * q) == p * (b % q)
  {
    TwoLevels(p * b, p, q, b, 0, b / q, b % q);
    DivUnique(p * b, p * q, b / q, p * (b % q));
  }

  /** Shifting right by j is division by 2^j, and the dropped bits are the remainder. */
  lemma ShrDiv(a: nat, j: nat)
    ensures Shr(a, j) == a / Pow2(j) && Low(a, j) == a % Pow2(j)
  {
    ShrLow(a, j);
    ShlValue(Shr(a, j), j);
    DivUnique(a, Pow2(j), Shr(a, j), Low(a, j));
  }

  /** The mask with no bit set. */
  lemma MaskNone(x: nat, k: nat)
    ensures AndBits(x, 0, k) == 0
  {
  }

  /** The and of two numbers is the and of their low parts and of their high parts. */
  lemma {:induction false} AndSplit(a: nat, m: nat, j: nat, k: nat)
    ensures AndBits(a, m, j + k) == AndBits(a, m, j) + Shl(AndBits(Shr(a, j), Shr(m, j), k), j)
  {
    if j > 0 { AndSplit(a / 2, m / 2, j - 1, k); }
  }

  /** A mask of i set bits, j clear ones and k set ones keeps two windows of a word. */
  lemma TwoWindows(x: nat, m: nat, i: nat, j: nat, k: nat)
    requires i + j + k <= 32
    requires Low(m, i) == Pow2(i) - 1 && Low(Shr(m, i), j) == 0
    requires Low(Shr(Shr(m, i), j), k) == Pow2(k) - 1 && Shr(Shr(Shr(m, i), j), k) == 0
    ensures And(x, m) == Low(x, i) + Shl(Shl(Low(Shr(Shr(x, i), j), k), j), i)
  {
    hide AndBits, Low, Shr, Shl, Pow2;
    var y, n := Shr(x, i), Shr(m, i);
    KeepLow(x, m, i, 32 - i);
    DropLow(y, n, j, 32 - i - j);
    KeepLow(Shr(y, j), Shr(n, j), k, 32 - i - j - k);
    MaskNone(Shr(Shr(y, j), k), 32 - i - j - k);
    ShlValue(0, k);
  }

  /** A word made of j low bits and another word shifted up by j, what runs over dropped. */
  lemma OrWord(a: nat, b: nat, j: nat)
    requires j <= 32 && a < Pow2(j)
    ensures Or(a, U32(Shl(b, j))) == a + Pow2(j) * (b % Pow2(32 - j))
  {
    hide OrBits, Shl, Pow2, Low;
    var p, q := Pow2(j), Pow2(32 - j);
    var s := b % q;
    Powers();
    Pow2Sum(j, 32 - j);
    ShlValue(b, j);
    ScaledMod(p, q, b);
    ShlValue(s, j);
    OrShifted(a, s, j, 32 - j);
    ShrDiv(s, 32 - j);
    DivUnique(s, q, 0, s);
  }

  /** The powers of two the code shifts by. */
  lemma Powers()
    ensures Pow2(0) == 1 && Pow2(2) == 4 && Pow2(4) == 0x10 && Pow2(6) == 0x40 && Pow2(8) == 0x100 && Pow2(12) == 0x1000 && Pow2(14) == 0x4000
    ensures Pow2(16) == 0x1_0000 && Pow2(18) == 0x4_0000 && Pow2(20) == 0x10_0000 && Pow2(24) == 0x100_0000
    ensures Pow2(26) == 0x400_0000 && Pow2(28) == 0x1000_0000 && Pow2(31) == 0x8000_0000 && Pow2(32) == W32
  {
    assert Pow2(2) == 4;
    Pow2Sum(2, 2); Pow2Sum(4, 2); Pow2Sum(4, 4); Pow2Sum(8, 4); Pow2Sum(8, 6); Pow2Sum(8, 8); Pow2Sum(16, 2);
    Pow2Sum(16, 4); Pow2Sum(16, 8); Pow2Sum(20, 6); Pow2Sum(20, 8); Pow2Sum(16, 16);
    assert Pow2(32) == 2 * Pow2(31);
  }
}
