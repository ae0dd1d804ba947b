/** Bytes, little-endian numbers and the exclusive or of byte strings. */
module Bytes {
  type byte = b: int | 0 <= b < 256

  datatype Option<+T> = None | Some(value: T)

  /** The exclusive or of the low k bits of a and b. */
  function XorBits(a: nat, b: nat, k: nat): (r: nat)
    ensures r < Pow2(k)
  {
    if k == 0 then 0 else (a + b) % 2 + 2 * XorBits(a / 2, b / 2, k - 1)
  }

  function Pow2(k: nat): (r: nat)
    ensures r > 0
  {
    if k == 0 then 1 else 2 * Pow2(k - 1)
  }

  function Xor(a: byte, b: byte): byte {
    assert Pow2(8) == 256 by { assert Pow2(4) == 16; }
    XorBits(a, b, 8)
  }

  /** Exclusive or with the same bits twice gives the number back. */
  lemma {:induction false} XorBitsTwice(a: nat, b: nat, k: nat)
    requires a < Pow2(k)
    ensures XorBits(XorBits(a, b, k), b, k) == a
  {
    if k > 0 {
      var x, y := (a + b) % 2, XorBits(a / 2, b / 2, k - 1);
      assert (x + 2 * y) / 2 == y && (x + 2 * y + b) % 2 == a % 2;
      XorBitsTwice(a / 2, b / 2, k - 1);
    }
  }

  lemma XorTwice(a: byte, b: byte)
    ensures Xor(Xor(a, b), b) == a
  {
    assert Pow2(8) == 256 by { assert Pow2(4) == 16; }
    XorBitsTwice(a, b, 8);
  }

  /** s with the pad's leading bytes folded in. */
  function XorSeq(s: seq<byte>, pad: seq<byte>): (r: seq<byte>)
    requires |s| <= |pad|
    ensures |r| == |s|
    ensures forall i: nat :: i < |s| ==> r[i] == Xor(s[i], pad[i])
  {
    seq(|s|, i requires 0 <= i < |s| => Xor(s[i], pad[i]))
  }

  lemma XorSeqTwice(s: seq<byte>, pad: seq<byte>)
    requires |s| <= |pad|
    ensures XorSeq(XorSeq(s, pad), pad) == s
  {
    forall i: nat | i < |s|
      ensures XorSeq(XorSeq(s, pad), pad)[i] == s[i]
    {
      XorTwice(s[i], pad[i]);
    }
  }

  lemma XorJoin(a: seq<byte>, p: seq<byte>, b: seq<byte>, q: seq<byte>)
    requires |a| == |p| && |b| <= |q|
    ensures XorSeq(a + b, p + q) == XorSeq(a, p) + XorSeq(b, q)
  {
  }

  /** The little-endian bytes of v, n of them. */
  function LittleEndian(v: nat, n: nat): (r: seq<byte>)
    ensures |r| == n
  {
    if n == 0 then [] else [v % 256] + LittleEndian(v / 256, n - 1)
  }

  function FromLittleEndian(s: seq<byte>): nat {
    if |s| == 0 then 0 else s[0] + 256 * FromLittleEndian(s[1..])
  }

  function Pow256(n: nat): (r: nat)
    ensures r > 0
  {
    if n == 0 then 1 else 256 * Pow256(n - 1)
  }

  /** A number that fits reads back from its little-endian bytes. */
  lemma {:induction false} LittleEndianRoundTrip(v: nat, n: nat)
    requires v < Pow256(n)
    ensures FromLittleEndian(LittleEndian(v, n)) == v
  {
    if n > 0 {
      LittleEndianRoundTrip(v / 256, n - 1);
      assert LittleEndian(v, n)[1..] == LittleEndian(v / 256, n - 1);
    }
  }

  lemma LowByte(b: byte, v: nat)
    ensures (b as int + 256 * v) % 256 == b as int && (b as int + 256 * v) / 256 == v
  {
  }

  /** Little-endian bytes are the bytes of the number they read as. */
  lemma {:induction false} FromLittleEndianRoundTrip(s: seq<byte>)
    ensures FromLittleEndian(s) < Pow256(|s|)
    ensures LittleEndian(FromLittleEndian(s), |s|) == s
  {
    if |s| > 0 {
      FromLittleEndianRoundTrip(s[1..]);
      LowByte(s[0], FromLittleEndian(s[1..]));
      assert s == [s[0]] + s[1..];
    }
  }

  lemma Regroup(a: int, b: int, c: int)
    ensures a * (b * c) == (a * b) * c
  {
  }

  /** The number of a string is its head's plus its tail's shifted past the head. */
  lemma {:induction false} FromLittleEndianJoin(s: seq<byte>, t: seq<byte>)
    ensures FromLittleEndian(s + t) == FromLittleEndian(s) + Pow256(|s|) * FromLittleEndian(t)
  {
    if |s| == 0 {
      assert s + t == t;
    } else {
      JoinStep(s, t);
      FromLittleEndianJoin(s[1..], t);
      Regroup(256, Pow256(|s| - 1), FromLittleEndian(t));
    }
  }

  lemma JoinStep(s: seq<byte>, t: seq<byte>)
    requires |s| > 0
    ensures FromLittleEndian(s + t) == s[0] as int + 256 * FromLittleEndian(s[1..] + t)
  {
    assert (s + t)[1..] == s[1..] + t;
  }

  function Zeros(n: nat): (r: seq<byte>)
    ensures |r| == n && forall i: nat :: i < n ==> r[i] == 0
  {
    seq(n, _ => 0)
  }

  /** A string with zeros up to the next sixteen-byte boundary. */
  function Padded(x: seq<byte>): seq<byte> {
    x + Zeros((16 - |x| % 16) % 16)
  }

  /** What section 2.8 of RFC 8439 authenticates: both strings padded, then both lengths. */
  function AeadInput(aad: seq<byte>, c: seq<byte>): seq<byte> {
    Padded(aad) + Padded(c) + LittleEndian(|aad|, 8) + LittleEndian(|c|, 8)
  }

  /** Two different pairs of strings are never authenticated as the same bytes. */
  lemma AeadInputInjective(aad: seq<byte>, c: seq<byte>, aad': seq<byte>, c': seq<byte>)
    requires |aad| < Pow256(8) && |c| < Pow256(8) && |aad'| < Pow256(8) && |c'| < Pow256(8)
    requires AeadInput(aad, c) == AeadInput(aad', c')
    ensures aad == aad' && c == c'
  {
    hide LittleEndian, FromLittleEndian, Pow256;
    var x, y := AeadInput(aad, c), AeadInput(aad', c');
    var n := |x|;
    assert x[n - 16..n - 8] == LittleEndian(|aad|, 8) && x[n - 8..] == LittleEndian(|c|, 8);
    assert y[n - 16..n - 8] == LittleEndian(|aad'|, 8) && y[n - 8..] == LittleEndian(|c'|, 8);
    LittleEndianRoundTrip(|aad|, 8); LittleEndianRoundTrip(|aad'|, 8); LittleEndianRoundTrip(|c|, 8); LittleEndianRoundTrip(|c'|, 8);
    var p := |Padded(aad)|;
    assert aad == x[..|aad|] && aad' == y[..|aad|];
    assert c == x[p..p + |c|] && c' == y[p..p + |c|];
  }
}
