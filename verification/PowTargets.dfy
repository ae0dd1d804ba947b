/** Proof-of-work targets: the compact encoding and the retarget arithmetic on big integers held as bytes. */
module PowTargets {
  import opened Bytes
  import opened Words

  const TIMESPAN: nat := 1209600

  /** A number shifted up or down by whole bytes. */
  function LeftBytes(v: nat, k: nat): nat {
    if k == 0 then v else 256 * LeftBytes(v, k - 1)
  }

  function RightBytes(v: nat, k: nat): nat {
    if k == 0 then v else RightBytes(v / 256, k - 1)
  }

  /** The bytes a number takes. */
  function ByteSize(v: nat): nat {
    if v == 0 then 0 else 1 + ByteSize(v / 256)
  }

  /** The number with its k lowest bytes cleared. */
  function Cleared(v: nat, k: nat): nat {
    LeftBytes(RightBytes(v, k), k)
  }

  lemma {:induction false} LeftRight(v: nat, k: nat)
    ensures RightBytes(LeftBytes(v, k), k) == v
  {
    if k > 0 { LeftRight(v, k - 1); }
  }

  lemma {:induction false} RightNext(v: nat, k: nat)
    ensures RightBytes(v, k) / 256 == RightBytes(v, k + 1)
  {
    if k > 0 { RightNext(v / 256, k - 1); }
  }

  /** Clearing bytes takes away less than the lowest byte kept is worth. */
  lemma {:induction false} ClearedBelow(v: nat, k: nat)
    ensures Cleared(v, k) <= v < Cleared(v, k) + LeftBytes(1, k)
  {
    if k > 0 { ClearedBelow(v / 256, k - 1); }
  }

  lemma {:induction false} LeftMonotone(v: nat, w: nat, k: nat)
    requires v <= w
    ensures LeftBytes(v, k) <= LeftBytes(w, k)
  {
    if k > 0 { LeftMonotone(v, w, k - 1); }
  }

  lemma {:induction false} LeftLeft(v: nat, j: nat, k: nat)
    ensures LeftBytes(LeftBytes(v, j), k) == LeftBytes(v, j + k)
  {
    if k > 0 { LeftLeft(v, j, k - 1); }
  }

  /** A number of so many bytes fits them and no fewer. */
  lemma {:induction false} ByteSizeFits(v: nat)
    ensures v < LeftBytes(1, ByteSize(v))
    ensures v > 0 ==> ByteSize(v) > 0 && LeftBytes(1, ByteSize(v) - 1) <= v
  {
    if v > 0 {
      ByteSizeFits(v / 256);
    }
  }

  lemma {:induction false} ByteSizeUnique(v: nat, n: nat)
    requires v < LeftBytes(1, n) && (n > 0 ==> LeftBytes(1, n - 1) <= v)
    ensures ByteSize(v) == n
  {
    if n > 0 {
      LeftMonotone(1, 1, n - 1);
      LeftPositive(n - 1);
      if n > 1 { assert LeftBytes(1, n - 1) == 256 * LeftBytes(1, n - 2); }
      ByteSizeUnique(v / 256, n - 1);
    }
  }

  lemma {:induction false} LeftPositive(k: nat)
    ensures LeftBytes(1, k) > 0
  {
    if k > 0 { LeftPositive(k - 1); }
  }

  /** The number of a big-endian string. */
  function FromBigEndian(s: seq<byte>): nat {
    if |s| == 0 then 0 else 256 * FromBigEndian(s[..|s| - 1]) + s[|s| - 1] as int
  }

  lemma {:induction false} BigEndianJoin(s: seq<byte>, t: seq<byte>)
    ensures FromBigEndian(s + t) == LeftBytes(FromBigEndian(s), |t|) + FromBigEndian(t)
  {
    if |t| == 0 {
      assert s + t == s;
    } else {
      assert (s + t)[..|s + t| - 1] == s + t[..|t| - 1];
      BigEndianJoin(s, t[..|t| - 1]);
    }
  }

  lemma {:induction false} BigEndianBound(s: seq<byte>)
    ensures FromBigEndian(s) < LeftBytes(1, |s|)
  {
    if |s| > 0 { BigEndianBound(s[..|s| - 1]); }
  }

  lemma {:induction false} BigEndianZeros(n: nat)
    ensures FromBigEndian(Zeros(n)) == 0
  {
    if n > 0 {
      assert Zeros(n)[..n - 1] == Zeros(n - 1);
      BigEndianZeros(n - 1);
    }
  }

  lemma {:induction false} LeftZero(k: nat)
    ensures LeftBytes(0, k) == 0
  {
    if k > 0 { LeftZero(k - 1); }
  }

  function Reversed(s: seq<byte>): (r: seq<byte>)
    ensures |r| == |s| && forall i: nat :: i < |s| ==> r[i] == s[|s| - 1 - i]
  {
    seq(|s|, i requires 0 <= i < |s| => s[|s| - 1 - i])
  }

  /** Little-endian is big-endian read backwards. */
  lemma {:induction false} ReversedValue(s: seq<byte>)
    ensures FromLittleEndian(Reversed(s)) == FromBigEndian(s)
  {
    if |s| > 0 {
      ReversedValue(s[..|s| - 1]);
      assert Reversed(s)[1..] == Reversed(s[..|s| - 1]);
    }
  }

  /** The target a compact number stands for; one too large for 256 bits stands for none. */
  function Target(bits: nat): nat {
    var size, word := bits / 0x100_0000, bits % 0x80_0000;
    if size <= 3 then RightBytes(word, 3 - size)
    else if size > 32 then 0
    else LeftBytes(word, size - 3)
  }

  /** A compact number is a size in bytes and 23 bits of mantissa, shifted by the size less three whole bytes. */
  lemma TargetIs(bits: nat)
    ensures var size, word := bits / 0x100_0000, bits % 0x80_0000;
      && (size <= 3 ==> Target(bits) == word / Pow256(3 - size))
      && (3 < size <= 32 ==> Target(bits) == word * Pow256(size - 3))
      && (size > 32 ==> Target(bits) == 0)
  {
    hide LeftBytes, RightBytes, Pow256;
    var size, word := bits / 0x100_0000, bits % 0x80_0000;
    if size <= 3 { RightIs(word, 3 - size); } else if size <= 32 { LeftIs(word, size - 3); }
  }

  lemma {:induction false} LeftIs(v: nat, k: nat)
    ensures LeftBytes(v, k) == v * Pow256(k)
  {
    if k > 0 {
      LeftIs(v, k - 1);
      assert 256 * (v * Pow256(k - 1)) == v * (256 * Pow256(k - 1));
    }
  }

  lemma RightIs(v: nat, k: nat)
    requires k <= 3
    ensures RightBytes(v, k) == v / Pow256(k)
  {
    assert Pow256(0) == 1 && Pow256(1) == 0x100 && Pow256(2) == 0x1_0000 && Pow256(3) == 0x100_0000;
    assert RightBytes(v, 0) == v && RightBytes(v, 1) == v / 256;
    assert RightBytes(v, 2) == v / 256 / 256;
    if k == 3 { assert RightBytes(v, 3) == RightBytes(v / 256, 2) == v / 256 / 256 / 256; }
  }

  lemma PaddedValue(a: nat, m: seq<byte>, b: nat)
    ensures FromBigEndian(Zeros(a) + m + Zeros(b)) == LeftBytes(FromBigEndian(m), b)
  {
    hide FromBigEndian, LeftBytes, Zeros;
    BigEndianJoin(Zeros(a) + m, Zeros(b));
    BigEndianJoin(Zeros(a), m);
    BigEndianZeros(a); BigEndianZeros(b);
    LeftZero(|m|);
  }

  /** Three bytes, most significant first. */
  function Three(w: nat): (r: seq<byte>)
    ensures |r| == 3
  {
    [w / 0x1_0000 % 0x100, w / 0x100 % 0x100, w % 0x100]
  }

  lemma ThreeValue(w: nat)
    requires w < 0x100_0000
    ensures FromBigEndian(Three(w)) == w
  {
    var s := Three(w);
    assert s[..2][..1] == s[..1] && s[..1][..0] == [];
    assert FromBigEndian(s[..1]) == s[0] as int;
    assert FromBigEndian(s[..2]) == 256 * s[0] as int + s[1] as int;
  }

  lemma {:induction false} RightBelow(v: nat, k: nat)
    ensures RightBytes(v, k) <= v
  {
    if k > 0 { RightBelow(v / 256, k - 1); }
  }

  /** The target's thirty-two bytes, most significant first. */
  method TargetBytes(bits: nat) returns (t: array<byte>)
    requires bits < W32
    ensures t.Length == 32 && fresh(t) && FromBigEndian(t[..]) == Target(bits)
  {
    hide FromBigEndian, LeftBytes, RightBytes;
    t := new byte[32](_ => 0);
    var size, word := bits / 0x100_0000, bits % 0x80_0000;
    if size <= 3 {
      RightBelow(word, 3 - size);
      word := RightBytes(word, 3 - size);
      t[31] := word % 0x100;
      t[30] := word / 0x100 % 0x100;
      t[29] := word / 0x1_0000 % 0x100;
      assert t[..] == Zeros(29) + Three(word) + Zeros(0);
      PaddedValue(29, Three(word), 0);
      ThreeValue(word);
      LeftNone(word);
    } else {
      var pos := 32 - 3 - (size - 3);
      if pos < 0 {
        assert t[..] == Zeros(32);
        BigEndianZeros(32);
        return;
      }
      t[pos] := word / 0x1_0000 % 0x100;
      if pos + 1 < 32 { t[pos + 1] := word / 0x100 % 0x100; }
      if pos + 2 < 32 { t[pos + 2] := word % 0x100; }
      assert t[..] == Zeros(pos) + Three(word) + Zeros(29 - pos);
      PaddedValue(pos, Three(word), 29 - pos);
      ThreeValue(word);
    }
  }

  lemma LeftNone(v: nat)
    ensures LeftBytes(v, 0) == v
  {
  }

  /** The three highest bytes of a number, as if it had at least three. */
  function Top(v: nat): nat {
    if ByteSize(v) >= 3 then RightBytes(v, ByteSize(v) - 3) else LeftBytes(v, 3 - ByteSize(v))
  }

  /** The compact number of a target: its size in bytes and its top bits, clear of the sign bit. */
  function Compact(v: nat): nat {
    if Top(v) >= 0x80_0000 then 0x100_0000 * (ByteSize(v) + 1) + Top(v) / 256
    else 0x100_0000 * ByteSize(v) + Top(v)
  }

  lemma {:induction false} RightSize(v: nat, k: nat)
    requires k <= ByteSize(v)
    ensures ByteSize(RightBytes(v, k)) == ByteSize(v) - k
  {
    if k > 0 { RightSize(v / 256, k - 1); }
  }

  lemma {:induction false} LeftSize(v: nat, k: nat)
    requires v > 0
    ensures LeftBytes(v, k) > 0 && ByteSize(LeftBytes(v, k)) == ByteSize(v) + k
  {
    if k > 0 { LeftSize(v, k - 1); }
  }

  lemma TopRange(v: nat)
    ensures Top(v) < 0x100_0000
    ensures if v == 0 then Top(v) == 0 else 0x1_0000 <= Top(v)
  {
    if v == 0 {
      LeftZero(3);
    } else {
      if ByteSize(v) >= 3 { RightSize(v, ByteSize(v) - 3); } else { LeftSize(v, 3 - ByteSize(v)); }
      ByteSizeFits(Top(v));
      assert LeftBytes(1, 3) == 0x100_0000 && LeftBytes(1, 2) == 0x1_0000;
    }
  }

  /** The bytes below the three an encoding keeps. */
  function Dropped(c: nat): nat {
    if c / 0x100_0000 > 3 then c / 0x100_0000 - 3 else 0
  }

  lemma Fields(size: nat, word: nat)
    requires word < 0x80_0000
    ensures (0x100_0000 * size + word) / 0x100_0000 == size && (0x100_0000 * size + word) % 0x80_0000 == word
  {
    DivUnique(0x100_0000 * size + word, 0x100_0000, size, word);
    DivUnique(0x100_0000 * size + word, 0x80_0000, 2 * size, word);
  }

  /** Decoding an encoded target clears low bytes and nothing else, unless it needs a thirty-third byte. */
  lemma CompactDecodes(v: nat)
    ensures var c := Compact(v); Target(c) == if c / 0x100_0000 <= 32 then Cleared(v, Dropped(c)) else 0
  {
    hide LeftBytes, RightBytes, ByteSize, Top;
    TopRange(v);
    var size, top := ByteSize(v), Top(v);
    if top >= 0x80_0000 {
      Fields(size + 1, top / 256);
      TopHigh(v);
    } else {
      Fields(size, top);
      TopLow(v);
    }
  }

  /** An encoding wastes no bits: its mantissa fills at least the upper two of its three bytes, and never the sign bit. */
  lemma CompactNormal(v: nat)
    ensures if v == 0 then Compact(v) == 0 else 0x8000 <= Compact(v) % 0x100_0000 < 0x80_0000
  {
    hide LeftBytes, RightBytes, Top;
    TopRange(v);
    var size, top := ByteSize(v), Top(v);
    if top >= 0x80_0000 {
      DivUnique(Compact(v), 0x100_0000, size + 1, top / 256);
    } else {
      DivUnique(Compact(v), 0x100_0000, size, top);
    }
  }

  lemma TopLow(v: nat)
    ensures ByteSize(v) <= 3 ==> RightBytes(Top(v), 3 - ByteSize(v)) == v == Cleared(v, 0)
    ensures ByteSize(v) > 3 ==> LeftBytes(Top(v), ByteSize(v) - 3) == Cleared(v, ByteSize(v) - 3)
  {
    if ByteSize(v) < 3 { LeftRight(v, 3 - ByteSize(v)); }
  }

  lemma TopHigh(v: nat)
    requires Top(v) >= 0x80_0000
    ensures ByteSize(v) <= 2 ==> RightBytes(Top(v) / 256, 2 - ByteSize(v)) == v == Cleared(v, 0)
    ensures ByteSize(v) > 2 ==> LeftBytes(Top(v) / 256, ByteSize(v) - 2) == Cleared(v, ByteSize(v) - 2)
  {
    if ByteSize(v) <= 2 {
      LeftRight(v, 3 - ByteSize(v));
    } else {
      RightNext(v, ByteSize(v) - 3);
    }
  }

  /** An encoded target never decodes to more than it was. */
  lemma CompactNeverRaises(v: nat)
    ensures Target(Compact(v)) <= v
  {
    hide Compact, Target, Cleared;
    CompactDecodes(v);
    ClearedBelow(v, Dropped(Compact(v)));
  }

  /** A 256-bit target needs the thirty-third byte exactly from 2^255 on. */
  lemma CompactOverflow(v: nat)
    requires v < LeftBytes(1, 32)
    ensures Compact(v) < 0x2200_0000
    ensures Compact(v) / 0x100_0000 > 32 <==> v >= LeftBytes(0x80_0000, 29)
  {
    hide LeftBytes, RightBytes, ByteSize, Top;
    TopRange(v);
    var size, top := ByteSize(v), Top(v);
    SizeAtMost(v, 32);
    if top >= 0x80_0000 { Fields(size + 1, top / 256); } else { Fields(size, top); }
    TopAtLimit(v);
  }

  lemma {:induction false} SizeAtMost(v: nat, n: nat)
    requires v < LeftBytes(1, n)
    ensures ByteSize(v) <= n
  {
    if n > 0 { SizeAtMost(v / 256, n - 1); }
  }

  lemma TopAtLimit(v: nat)
    requires v < LeftBytes(1, 32)
    ensures ByteSize(v) == 32 && Top(v) >= 0x80_0000 <==> v >= LeftBytes(0x80_0000, 29)
  {
    hide LeftBytes, RightBytes, ByteSize;
    var top := RightBytes(v, 29);
    ClearedBelow(v, 29);
    if v >= LeftBytes(0x80_0000, 29) {
      SizeAtMost(v, 32);
      BigSize(v);
    }
    if top >= 0x80_0000 { LeftMonotone(0x80_0000, top, 29); }
    if top < 0x80_0000 {
      LeftMonotone(top + 1, 0x80_0000, 29);
      LeftNext(top, 29);
    }
  }

  lemma {:induction false} LeftNext(v: nat, k: nat)
    ensures LeftBytes(v + 1, k) == LeftBytes(v, k) + LeftBytes(1, k)
  {
    if k > 0 { LeftNext(v, k - 1); }
  }

  lemma BigSize(v: nat)
    requires LeftBytes(0x80_0000, 29) <= v < LeftBytes(1, 32)
    ensures ByteSize(v) == 32
  {
    hide LeftBytes, ByteSize;
    LeftLeft(1, 2, 29);
    Two();
    LeftMonotone(0x1_0000, 0x80_0000, 29);
    ByteSizeUnique(v, 32);
  }

  lemma Two()
    ensures LeftBytes(1, 2) == 0x1_0000
  {
  }

  /** Strips leading zero bytes: the string's length without them is the number's size. */
  lemma SizeOfString(s: seq<byte>)
    requires |s| == 0 || s[0] != 0
    ensures ByteSize(FromBigEndian(s)) == |s|
  {
    BigEndianBound(s);
    if |s| > 0 {
      assert s == s[..1] + s[1..];
      BigEndianJoin(s[..1], s[1..]);
      assert s[..1][..0] == [];
      assert FromBigEndian(s[..1]) == s[0] as int;
      LeftMonotone(1, s[0] as int, |s| - 1);
    }
    ByteSizeUnique(FromBigEndian(s), |s|);
  }

  lemma {:induction false} RightOfSum(a: nat, b: nat, k: nat)
    requires b < LeftBytes(1, k)
    ensures RightBytes(LeftBytes(a, k) + b, k) == a
  {
    if k > 0 { RightOfSum(a, b / 256, k - 1); }
  }

  /** The first three bytes of a stripped string, padded with zeros, are the number's top. */
  lemma TopOfString(s: seq<byte>)
    requires |s| == 0 || s[0] != 0
    ensures Top(FromBigEndian(s)) == if |s| >= 3 then FromBigEndian(s[..3]) else LeftBytes(FromBigEndian(s), 3 - |s|)
  {
    hide FromBigEndian, LeftBytes, RightBytes, ByteSize;
    SizeOfString(s);
    if |s| >= 3 {
      assert s == s[..3] + s[3..];
      BigEndianJoin(s[..3], s[3..]);
      BigEndianBound(s[3..]);
      RightOfSum(FromBigEndian(s[..3]), FromBigEndian(s[3..]), |s| - 3);
    }
  }

  /** What the byte loop has read after i bytes. */
  ghost function Read(s: seq<byte>, i: nat): nat {
    if i <= |s| then FromBigEndian(s[..i]) else LeftBytes(FromBigEndian(s), i - |s|)
  }

  lemma ReadNext(s: seq<byte>, i: nat)
    ensures Read(s, 0) == 0
    ensures Read(s, i + 1) == 256 * Read(s, i) + if i < |s| then s[i] as int else 0
  {
    if i < |s| { assert s[..i + 1][..i] == s[..i]; }
    assert s[..|s|] == s;
  }

  /** The compact number of thirty-two big-endian bytes. */
  method CompactBytes(t: array<byte>) returns (bits: nat)
    requires t.Length == 32
    ensures bits == Compact(FromBigEndian(t[..]))
  {
    hide FromBigEndian, LeftBytes, RightBytes, ByteSize, Top, Read;
    var size := 32;
    assert t[..] == t[32 - size..];
    while size > 0 && t[32 - size] == 0
      invariant 0 <= size <= 32 && FromBigEndian(t[..]) == FromBigEndian(t[32 - size..])
    {
      assert t[32 - size..] == Zeros(1) + t[33 - size..] + Zeros(0);
      PaddedValue(1, t[33 - size..], 0);
      LeftNone(FromBigEndian(t[33 - size..]));
      size := size - 1;
    }
    ghost var s := t[32 - size..];
    SizeOfString(s);
    TopOfString(s);
    ReadNext(s, 0);
    var word := 0;
    for i := 0 to 3
      invariant word == Read(s, i)
    {
      var pos := 32 - size + i;
      ReadNext(s, i);
      word := word * 256 + if pos < 32 && i < size then t[pos] as int else 0;
    }
    ReadThree(s);
    TopRange(FromBigEndian(s));
    if word / 0x80_0000 % 2 == 1 {
      word, size := word / 256, size + 1;
    }
    bits := 0x100_0000 * size + word % 0x80_0000;
  }

  lemma ReadThree(s: seq<byte>)
    ensures Read(s, 3) == if |s| >= 3 then FromBigEndian(s[..3]) else LeftBytes(FromBigEndian(s), 3 - |s|)
  {
  }
}
