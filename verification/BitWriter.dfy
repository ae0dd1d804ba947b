/** The word-wise bit writer: it stores exactly the bits put into it, or says that they do not fit. */
module BitWriter {
  import opened Bytes
  import opened Words
  import opened Bits

  function OneBits(n: nat): (r: seq<bit>)
    ensures |r| == n && forall i: nat :: i < n ==> r[i] == 1
  {
    seq(n, _ => 1)
  }

  lemma {:induction false} BitsOfOnes(n: nat)
    ensures BitsOf(Pow2(n) - 1, n) == OneBits(n)
  {
    if n > 0 {
      var p := Pow2(n - 1);
      assert (2 * p - 1) / 2 == p - 1 && (2 * p - 1) % 2 == 1;
      BitsOfOnes(n - 1);
    }
  }

  lemma {:induction false} LowLow(v: nat, m: nat, k: nat)
    requires k <= m
    ensures Low(Low(v, m), k) == Low(v, k)
  {
    if k > 0 { LowLow(v / 2, m - 1, k - 1); }
  }

  /** What shifting n bits of v into a 64-bit word makes of the word. */
  function ShiftIn(acc: nat, v: nat, n: nat): nat {
    OrBits(AndBits(v, Pow2(n) - 1, 64), Shl(acc, n), 64)
  }

  lemma {:induction false} LowOnes(n: nat)
    ensures Low(Pow2(n) - 1, n) == Pow2(n) - 1 && Shr(Pow2(n) - 1, n) == 0
  {
    if n > 0 {
      var p := Pow2(n - 1);
      assert (2 * p - 1) / 2 == p - 1 && (2 * p - 1) % 2 == 1;
      LowOnes(n - 1);
    }
  }

  lemma MaskLow(v: nat, n: nat)
    requires n <= 64
    ensures AndBits(v, Pow2(n) - 1, 64) == Low(v, n)
  {
    hide AndBits, Low, Shr, Shl, Pow2;
    LowOnes(n);
    KeepLow(v, Pow2(n) - 1, n, 64 - n);
    MaskNone(Shr(v, n), 64 - n);
    ShlValue(0, n);
  }

  /** Bits pushed out at the top are not among the pending ones. */
  lemma ShiftInBits(acc: nat, v: nat, k: nat, n: nat)
    requires k + n <= 64
    ensures BitsOf(ShiftIn(acc, v, n), k + n) == BitsOf(acc, k) + BitsOf(v, n)
  {
    hide AndBits, OrBits, Low, Shr, Shl, Pow2, BitsOf;
    MaskLow(v, n);
    ShrLow(v, n);
    OrShifted(Low(v, n), acc, n, 64 - n);
    BitsAppend(Low(acc, 64 - n), v, k, n);
    LowLow(acc, 64 - n, k);
    BitsOfLow(Low(acc, 64 - n), acc, k);
  }

  lemma LowByteBits(x: nat)
    ensures BitsOf(x % 256, 8) == BitsOf(x, 8)
  {
    hide BitsOf;
    EightBits();
    ShrDiv(x, 8); ShrDiv(x % 256, 8);
    BitsOfLow(x % 256, x, 8);
  }

  lemma UnpackNext(s: seq<byte>, b: byte)
    ensures Unpack(s + [b]) == Unpack(s) + BitsOf(b, 8)
  {
    assert (s + [b])[..|s|] == s;
  }

  /** The bits stored in whole bytes and the pending ones. */
  ghost predicate Stored(done: seq<byte>, acc: nat, nacc: nat, bits: seq<bit>) {
    bits == Unpack(done) + BitsOf(acc, nacc)
  }

  lemma StoreByte(done: seq<byte>, acc: nat, nacc: nat, bits: seq<bit>)
    requires nacc >= 8 && Stored(done, acc, nacc, bits)
    ensures Stored(done + [Shr(acc, nacc - 8) % 256], acc, nacc - 8, bits)
  {
    hide Unpack, BitsOf, Shr;
    BitsSplit(acc, 8, nacc - 8);
    LowByteBits(Shr(acc, nacc - 8));
    UnpackNext(done, Shr(acc, nacc - 8) % 256);
  }

  lemma StoreLast(done: seq<byte>, acc: nat, nacc: nat, bits: seq<bit>)
    requires 0 < nacc < 8 && Stored(done, acc, nacc, bits)
    ensures done + [Shl(acc, 8 - nacc) % 256] == Pack(bits)
  {
    hide Unpack, BitsOf, Shl, Pack;
    var b: byte := Shl(acc, 8 - nacc) % 256;
    UnpackNext(done, b);
    LowByteBits(Shl(acc, 8 - nacc));
    BitsOfShl(acc, nacc, 8 - nacc);
    PackUnique(bits, done + [b]);
  }

  lemma StoreNone(done: seq<byte>, acc: nat, bits: seq<bit>)
    requires Stored(done, acc, 0, bits)
    ensures done == Pack(bits)
  {
    hide Unpack, Pack;
    PackUnique(bits, done);
  }

  class Writer {
    const out: array<byte>
    const base: nat
    const cap: nat
    var bitpos: nat
    var overflow: bool
    var acc: nat
    var nacc: nat
    ghost var bits: seq<bit>

    /** Everything put so far, short of what the capacity holds, is in the bytes and the accumulator. */
    ghost predicate Pending(room: nat)
      reads this, out
    {
      && base + cap <= out.Length && acc < W64 && nacc < room && bitpos % 8 == 0 && bitpos <= 8 * cap
      && if overflow then |bits| > 8 * cap && bitpos == 8 * cap
         else Stored(out[base..base + bitpos / 8], acc, nacc, bits)
    }

    ghost predicate Valid()
      reads this, out
    {
      Pending(8)
    }

    constructor (o: array<byte>, b: nat)
      requires b <= o.Length
      ensures Valid() && out == o && base == b && cap == o.Length - b && bits == []
    {
      out, base, cap := o, b, o.Length - b;
      bitpos, overflow, acc, nacc := 0, false, 0, 0;
      bits := [];
    }

    /** Whole bytes leave the accumulator. */
    method Emit()
      requires Pending(40)
      modifies this, out
      ensures Valid() && bits == old(bits) && out[..base] == old(out[..base])
    {
      hide Unpack, BitsOf, Shr, Stored;
      while nacc >= 8
        invariant Pending(40) && bits == old(bits) && out[..base] == old(out[..base])
      {
        var at := bitpos / 8;
        if at >= cap {
          if !overflow { StoredLength(out[base..base + bitpos / 8], acc, nacc, bits); }
          overflow, nacc := true, 0;
          return;
        }
        ghost var done := out[base..base + at];
        StoreByte(done, acc, nacc, bits);
        out[base + at] := Shr(acc, nacc - 8) % 256;
        nacc, bitpos := nacc - 8, bitpos + 8;
        assert out[base..base + at + 1] == done + [Shr(acc, nacc) % 256];
      }
    }

    /** The low n bits of v. */
    method Put(v: nat, n: nat)
      requires Valid() && 1 <= n <= 32
      modifies this, out
      ensures Valid() && bits == old(bits) + BitsOf(v, n) && out[..base] == old(out[..base])
    {
      hide Unpack, BitsOf, ShiftIn, Pow2;
      ShiftInRange(acc, v, n);
      ShiftInBits(acc, v, nacc, n);
      bits := bits + BitsOf(v, n);
      acc := ShiftIn(acc, v, n);
      nacc := nacc + n;
      Emit();
    }

    /** A run of ones, at most thirty-two at a time. */
    method Ones(q: nat)
      requires Valid()
      modifies this, out
      ensures Valid() && bits == old(bits) + OneBits(q) && out[..base] == old(out[..base])
    {
      hide Unpack, BitsOf, Stored, Pow2;
      var left: nat := q;
      while left >= 32
        invariant Valid() && left <= q && bits == old(bits) + OneBits(q - left) && out[..base] == old(out[..base])
      {
        BitsOfOnes(32);
        Powers();
        Put(0xffff_ffff, 32);
        left := left - 32;
        assert OneBits(q - left) == OneBits(q - left - 32) + OneBits(32);
      }
      assert OneBits(q) == OneBits(q - left) + OneBits(left);
      if left > 0 {
        BitsOfOnes(left);
        Put(Pow2(left) - 1, left);
      }
    }

    /** The last byte, padded with zeros: the bytes are the packed bits unless there is no room for them. */
    method Finish()
      requires Valid()
      modifies this, out
      ensures bits == old(bits) && out[..base] == old(out[..base])
      ensures overflow <==> |bits| > 8 * cap
      ensures !overflow ==> (bitpos + 7) / 8 <= cap && out[base..base + (bitpos + 7) / 8] == Pack(bits)
    {
      hide Unpack, BitsOf, Stored, Shl, Pack;
      ghost var done := if overflow then [] else out[base..base + bitpos / 8];
      if !overflow { StoredLength(done, acc, nacc, bits); }
      if nacc != 0 {
        var at := bitpos / 8;
        if at >= cap {
          overflow := true;
          return;
        }
        StoreLast(done, acc, nacc, bits);
        out[base + at] := Shl(acc, 8 - nacc) % 256;
        bitpos, nacc := bitpos + nacc, 0;
        assert out[base..base + at + 1] == done + [out[base + at]];
      } else if !overflow {
        StoreNone(done, acc, bits);
      }
    }
  }

  lemma StoredLength(done: seq<byte>, acc: nat, nacc: nat, bits: seq<bit>)
    requires Stored(done, acc, nacc, bits)
    ensures |bits| == 8 * |done| + nacc
  {
  }

  lemma {:induction false} OrBelow(a: nat, b: nat, k: nat)
    ensures OrBits(a, b, k) < Pow2(k)
  {
    if k > 0 { OrBelow(a / 2, b / 2, k - 1); }
  }

  lemma ShiftInRange(acc: nat, v: nat, n: nat)
    ensures ShiftIn(acc, v, n) < W64
  {
    hide AndBits, OrBits, Shl, Pow2;
    OrBelow(AndBits(v, Pow2(n) - 1, 64), Shl(acc, n), 64);
    Powers();
    Pow2Sum(32, 32);
  }
}
