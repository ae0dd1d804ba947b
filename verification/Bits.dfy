/** Bit strings, most significant bit first, and the bytes they fill. */
module Bits {
  import opened Bytes
  import opened Words

  type bit = b: int | 0 <= b < 2

  /** The low n bits of a number. */
  function BitsOf(v: nat, n: nat): (r: seq<bit>)
    ensures |r| == n
  {
    if n == 0 then [] else BitsOf(v / 2, n - 1) + [v % 2]
  }

  function Number(s: seq<bit>): nat {
    if |s| == 0 then 0 else 2 * Number(s[..|s| - 1]) + s[|s| - 1] as int
  }

  lemma {:induction false} NumberOfBits(v: nat, n: nat)
    ensures Number(BitsOf(v, n)) == Low(v, n)
  {
    if n > 0 {
      NumberOfBits(v / 2, n - 1);
      assert BitsOf(v, n)[..n - 1] == BitsOf(v / 2, n - 1);
    }
  }

  lemma {:induction false} BitsOfNumber(s: seq<bit>)
    ensures BitsOf(Number(s), |s|) == s
    ensures Number(s) < Pow2(|s|)
  {
    if |s| > 0 {
      var t := s[..|s| - 1];
      BitsOfNumber(t);
      assert Number(s) / 2 == Number(t) && Number(s) % 2 == s[|s| - 1] as int;
      assert s == t + [s[|s| - 1]];
    }
  }

  /** The low bits do not see what is above them. */
  lemma {:induction false} BitsOfLow(v: nat, w: nat, n: nat)
    requires Low(v, n) == Low(w, n)
    ensures BitsOf(v, n) == BitsOf(w, n)
  {
    if n > 0 {
      HalfLow(v, w, n);
      BitsOfLow(v / 2, w / 2, n - 1);
    }
  }

  lemma HalfLow(v: nat, w: nat, n: nat)
    requires n > 0 && Low(v, n) == Low(w, n)
    ensures v % 2 == w % 2 && Low(v / 2, n - 1) == Low(w / 2, n - 1)
  {
  }

  /** A number's bits are its high part's and its low part's. */
  lemma {:induction false} BitsSplit(v: nat, j: nat, k: nat)
    ensures BitsOf(v, j + k) == BitsOf(Shr(v, k), j) + BitsOf(v, k)
  {
    if k > 0 {
      BitsSplit(v / 2, j, k - 1);
    }
  }

  /** Shifting bits in at the low end appends them. */
  lemma BitsAppend(a: nat, v: nat, k: nat, n: nat)
    ensures BitsOf(Shl(a, n) + Low(v, n), k + n) == BitsOf(a, k) + BitsOf(v, n)
  {
    hide BitsOf, Shl, Shr, Low;
    var x := Shl(a, n) + Low(v, n);
    BitsSplit(x, k, n);
    ShiftedIn(a, v, n);
    BitsOfLow(x, v, n);
  }

  lemma {:induction false} ShiftedIn(a: nat, v: nat, n: nat)
    ensures var x := Shl(a, n) + Low(v, n); Shr(x, n) == a && Low(x, n) == Low(v, n)
  {
    if n > 0 { ShiftedIn(a, v / 2, n - 1); }
  }

  /** Zeros shifted in at the low end. */
  lemma {:induction false} BitsOfShl(a: nat, k: nat, n: nat)
    ensures BitsOf(Shl(a, n), k + n) == BitsOf(a, k) + NoBits(n)
  {
    if n > 0 {
      BitsOfShl(a, k, n - 1);
      assert NoBits(n) == NoBits(n - 1) + [0];
    }
  }

  function NoBits(n: nat): (r: seq<bit>)
    ensures |r| == n && forall i: nat :: i < n ==> r[i] == 0
  {
    seq(n, _ => 0)
  }

  /** The bits of a string of bytes. */
  function Unpack(s: seq<byte>): (r: seq<bit>)
    ensures |r| == 8 * |s|
  {
    if |s| == 0 then [] else Unpack(s[..|s| - 1]) + BitsOf(s[|s| - 1], 8)
  }

  lemma {:induction false} UnpackJoin(s: seq<byte>, t: seq<byte>)
    ensures Unpack(s + t) == Unpack(s) + Unpack(t)
  {
    if |t| == 0 {
      assert s + t == s;
    } else {
      assert (s + t)[..|s + t| - 1] == s + t[..|t| - 1];
      UnpackJoin(s, t[..|t| - 1]);
    }
  }

  lemma UnpackOne(b: byte)
    ensures Unpack([b]) == BitsOf(b, 8)
  {
    assert [b][..0] == [];
  }

  /** The bytes that hold a bit string, the last padded with zeros. */
  function Pack(s: seq<bit>): (r: seq<byte>)
    ensures |r| == (|s| + 7) / 8
  {
    if |s| == 0 then []
    else if |s| < 8 then [ByteOf(s + NoBits(8 - |s|))]
    else [ByteOf(s[..8])] + Pack(s[8..])
  }

  function ByteOf(s: seq<bit>): byte
    requires |s| == 8
  {
    BitsOfNumber(s);
    EightBits();
    Number(s)
  }

  lemma EightBits()
    ensures Pow2(8) == 256
  {
    Powers();
  }

  lemma UnpackByte(s: seq<bit>)
    requires |s| == 8
    ensures Unpack([ByteOf(s)]) == s
  {
    hide BitsOf, Unpack, Number;
    UnpackOne(ByteOf(s));
    BitsOfNumber(s);
  }

  lemma PackStep(s: seq<bit>)
    ensures |s| == 0 ==> Pack(s) == [] == Unpack([])
    ensures 0 < |s| < 8 ==> Pack(s) == [ByteOf(s + NoBits(8 - |s|))]
    ensures |s| >= 8 ==> Pack(s) == [ByteOf(s[..8])] + Pack(s[8..])
  {
    hide ByteOf;
  }

  /** Unpacking gives the bits back, and fewer than eight zeros. */
  lemma {:induction false} UnpackPack(s: seq<bit>)
    ensures |s| <= 8 * |Pack(s)| < |s| + 8
    ensures Unpack(Pack(s)) == s + NoBits(8 * |Pack(s)| - |s|)
  {
    hide Unpack, Pack, ByteOf;
    PackStep(s);
    if 0 < |s| < 8 {
      UnpackByte(s + NoBits(8 - |s|));
    } else if |s| >= 8 {
      UnpackPack(s[8..]);
      UnpackByte(s[..8]);
      UnpackJoin([ByteOf(s[..8])], Pack(s[8..]));
      assert s == s[..8] + s[8..];
    }
  }

  lemma {:induction false} UnpackInjective(s: seq<byte>, t: seq<byte>)
    requires Unpack(s) == Unpack(t)
    ensures s == t
  {
    if |s| > 0 {
      var n := |s| - 1;
      assert Unpack(s)[..8 * n] == Unpack(s[..n]) && Unpack(t)[..8 * n] == Unpack(t[..n]);
      assert Unpack(s)[8 * n..] == BitsOf(s[n], 8) && Unpack(t)[8 * n..] == BitsOf(t[n], 8);
      UnpackInjective(s[..n], t[..n]);
      ByteBits(s[n], t[n]);
      assert s == s[..n] + [s[n]] && t == t[..n] + [t[n]];
    }
  }

  lemma ByteBits(a: byte, b: byte)
    requires BitsOf(a, 8) == BitsOf(b, 8)
    ensures a == b
  {
    hide BitsOf;
    NumberOfBits(a, 8); NumberOfBits(b, 8);
    EightBits();
    ShrDiv(a, 8); ShrDiv(b, 8);
  }

  /** The only bytes that unpack to the bits and a short padding are the packed ones. */
  lemma PackUnique(s: seq<bit>, r: seq<byte>)
    requires |s| <= 8 * |r| < |s| + 8 && Unpack(r) == s + NoBits(8 * |r| - |s|)
    ensures r == Pack(s)
  {
    hide Unpack, Pack;
    UnpackPack(s);
    UnpackInjective(r, Pack(s));
  }
}
