/** The Poly1305 authenticator as an object fed in pieces, against section 2.5 of RFC 8439. */
module Poly1305 {
  import opened Bytes
  import opened Words
  import opened Poly1305Limbs

  /** The accumulator of section 2.5: block by block, each block closed by a byte of one. */
  function Accumulate(r: nat, msg: seq<byte>): nat {
    if |msg| == 0 then 0
    else
      var k := (|msg| - 1) / 16 * 16;
      Step(Accumulate(r, msg[..k]), FromLittleEndian(msg[k..] + [1]), r)
  }

  function Multiplier(key: seq<byte>): nat
    requires |key| == 32
  {
    AndBits(FromLittleEndian(key[..16]), CLAMP, 128)
  }

  /** The tag of section 2.5. */
  function Mac(key: seq<byte>, msg: seq<byte>): (tag: seq<byte>)
    requires |key| == 32
    ensures |tag| == 16
  {
    LittleEndian((Accumulate(Multiplier(key), msg) + FromLittleEndian(key[16..])) % TOP, 16)
  }

  lemma ClosedBlock(b: seq<byte>)
    ensures FromLittleEndian(b + [1]) == FromLittleEndian(b) + Pow256(|b|)
  {
    hide FromLittleEndian, Pow256;
    FromLittleEndianJoin(b, [1]);
    LoneOne();
  }

  lemma LoneOne()
    ensures FromLittleEndian([1]) == 1
  {
    assert [1 as byte][1..] == [];
  }

  lemma Differ(x: nat, y: nat) returns (d: int)
    requires ModP(x) == ModP(y)
    ensures x == y + P * d
  {
    d := x / P - y / P;
  }

  lemma Spread(p: int, y: int, d: int, r: int)
    ensures (y + p * d) * r == y * r + p * (d * r)
  {
    Regroup(p, d, r);
  }

  /** Numbers with the same residue stay so after the same block. */
  lemma SameStep(x: nat, y: nat, n: nat, r: nat)
    requires ModP(x) == ModP(y)
    ensures Step(x, n, r) == Step(y, n, r)
  {
    hide P, ModP;
    var d := Differ(x, y);
    Spread(P, y + n, d, r);
    SameResidue((x + n) * r, (y + n) * r, d * r);
  }

  /** The last block, whole or not, on top of whole blocks. */
  lemma LastBlock(r: nat, done: seq<byte>, b: seq<byte>)
    requires |done| % 16 == 0 && 0 < |b| <= 16
    ensures Accumulate(r, done + b) == Step(Accumulate(r, done), FromLittleEndian(b) + Pow256(|b|), r)
  {
    hide Step, FromLittleEndian, Pow256;
    var m := done + b;
    assert (|m| - 1) / 16 * 16 == |done|;
    assert m[..|done|] == done && m[|done|..] == b;
    ClosedBlock(b);
  }

  lemma AccumulateReduced(r: nat, m: seq<byte>)
    ensures ModP(Accumulate(r, m)) == Accumulate(r, m)
  {
    hide FromLittleEndian;
  }

  lemma BlockTop()
    ensures Pow256(16) == TOP
  {
    Powers256();
  }

  /** A whole block on top of whole blocks, by any number of the same residue. */
  lemma OneBlock(r: nat, done: seq<byte>, b: seq<byte>, x: nat)
    requires |done| % 16 == 0 && |b| == 16 && ModP(x) == Accumulate(r, done)
    ensures Accumulate(r, done + b) == Step(x, FromLittleEndian(b) + TOP, r)
  {
    hide Step, ModP, FromLittleEndian, TOP, Accumulate, Pow256;
    LastBlock(r, done, b);
    BlockTop();
    AccumulateReduced(r, done);
    SameStep(x, Accumulate(r, done), FromLittleEndian(b) + TOP, r);
  }

  /** What an authenticator holds after the bytes of msg under a key. */
  ghost predicate Holds(key: seq<byte>, msg: seq<byte>, r: Limbs, h: Limbs, pad: Quad, tail: seq<byte>) {
    && |key| == 32 && Clamped(r) && Resting(h) && InWords(pad)
    && Value(r) == Multiplier(key) && QuadValue(pad) == FromLittleEndian(key[16..])
    && |tail| < 16 && |tail| <= |msg| && (|msg| - |tail|) % 16 == 0
    && tail == msg[|msg| - |tail|..]
    && ModP(Value(h)) == Accumulate(Value(r), msg[..|msg| - |tail|])
  }

  lemma MultiplierIs(key: seq<byte>)
    requires |key| == 32
    ensures Multiplier(key) == AndBits(FromLittleEndian(key[..16]), CLAMP, 128)
  {
  }

  lemma ReadPad(s: seq<byte>)
    requires |s| == 16
    ensures var q := Quad(Word(s, 0), Word(s, 4), Word(s, 8), Word(s, 12)); InWords(q) && QuadValue(q) == FromLittleEndian(s)
  {
    hide FromLittleEndian, Word;
    FourWords(s);
    WordBytes(s, 0); WordBytes(s, 4); WordBytes(s, 8); WordBytes(s, 12);
  }

  lemma Nothing(r: nat)
    ensures Accumulate(r, []) == 0 == ModP(Value(Limbs(0, 0, 0, 0, 0)))
  {
    hide Step, FromLittleEndian, ModP;
    Zero();
  }

  lemma Zero()
    ensures ModP(Value(Limbs(0, 0, 0, 0, 0))) == 0
  {
    hide P;
    PrimeIs();
    DivUnique(0, P, 0, 0);
  }

  /** A fresh authenticator holds the empty message. */
  lemma HoldsNothing(key: seq<byte>, r: Limbs)
    requires |key| == 32 && Clamped(r) && Value(r) == Multiplier(key)
    ensures Holds(key, [], r, Limbs(0, 0, 0, 0, 0),
      Quad(Word(key[16..], 0), Word(key[16..], 4), Word(key[16..], 8), Word(key[16..], 12)), [])
  {
    hide Multiplier, FromLittleEndian, Word, ModP, Value, QuadValue;
    ReadPad(key[16..]);
    Nothing(Value(r));
  }

  lemma HoldsParts(key: seq<byte>, msg: seq<byte>, r: Limbs, h: Limbs, pad: Quad, tail: seq<byte>)
    requires Holds(key, msg, r, h, pad, tail)
    ensures Clamped(r) && Resting(h) && |tail| <= |msg| && (|msg| - |tail|) % 16 == 0
    ensures ModP(Value(h)) == Accumulate(Value(r), msg[..|msg| - |tail|])
  {
    hide Accumulate, Value, QuadValue, Multiplier, FromLittleEndian, ModP;
  }

  /** The tail grown short of a block. */
  lemma HoldsMore(key: seq<byte>, msg: seq<byte>, r: Limbs, h: Limbs, pad: Quad, tail: seq<byte>, m: seq<byte>)
    requires Holds(key, msg, r, h, pad, tail) && |tail + m| < 16
    ensures Holds(key, msg + m, r, h, pad, tail + m)
  {
    hide Accumulate, Value, QuadValue, Multiplier, FromLittleEndian, ModP;
    assert (msg + m)[..|msg| - |tail|] == msg[..|msg| - |tail|];
    assert (msg + m)[|msg| - |tail|..] == tail + m;
  }

  /** Blocks taken off the tail and what follows it. */
  lemma HoldsBlocks(key: seq<byte>, msg: seq<byte>, r: Limbs, h: Limbs, pad: Quad, tail: seq<byte>, m: seq<byte>, h': Limbs)
    requires Holds(key, msg, r, h, pad, tail) && |tail + m| % 16 == 0 && Resting(h')
    requires ModP(Value(h')) == Accumulate(Value(r), msg[..|msg| - |tail|] + (tail + m))
    ensures Holds(key, msg + m, r, h', pad, [])
  {
    hide Accumulate, Value, QuadValue, Multiplier, FromLittleEndian, ModP;
    assert msg[..|msg| - |tail|] + (tail + m) == msg + m;
    assert (msg + m)[..|msg + m|] == msg + m && (msg + m)[|msg + m|..] == [];
  }

  /** The whole blocks of a string. */
  function Whole(m: seq<byte>): (w: seq<byte>)
    ensures w <= m && |w| % 16 == 0 && |m| - |w| < 16
  {
    m[..|m| / 16 * 16]
  }

  class Authenticator {
    var r: Limbs
    var h: Limbs
    var pad: Quad
    const buffer: array<byte>
    var leftover: nat
    var final: bool
    ghost const key: seq<byte>
    ghost var msg: seq<byte>

    /** Ready for more: msg has been taken in, the part short of a block still in the buffer. */
    ghost predicate Valid()
      reads this, buffer
    {
      buffer.Length == 16 && leftover < 16 && !final && Holds(key, msg, r, h, pad, buffer[..leftover])
    }

    constructor (k: seq<byte>)
      requires |k| == 32
      ensures Valid() && fresh(buffer) && key == k && msg == []
    {
      hide Accumulate, Value, QuadValue, Multiplier, FromLittleEndian, Word, Holds;
      MultiplierIs(k);
      var clamped := ReadMultiplier(k);
      r := clamped;
      h := Limbs(0, 0, 0, 0, 0);
      pad := Quad(Word(k[16..], 0), Word(k[16..], 4), Word(k[16..], 8), Word(k[16..], 12));
      buffer := new byte[16];
      leftover := 0;
      final := false;
      key := k;
      msg := [];
      HoldsNothing(k, clamped);
      new;
      assert buffer[..0] == [];
    }

    /** Whole blocks of m, each carrying the 2^128 bit unless this is the final one. */
    method Blocks(m: seq<byte>, ghost done: seq<byte>)
      requires Clamped(r) && Resting(h) && |done| % 16 == 0 && ModP(Value(h)) == Accumulate(Value(r), done)
      modifies this`h
      ensures Resting(h)
      ensures !final ==> ModP(Value(h)) == Accumulate(Value(r), done + Whole(m))
      ensures final && |m| == 16 ==> ModP(Value(h)) == Step(old(Value(h)), FromLittleEndian(m), Value(r))
    {
      hide Accumulate, Value, ModP, Step, FromLittleEndian, TOP;
      var a, i := h, 0;
      assert done + m[..0] == done;
      while |m| - i >= 16
        invariant i % 16 == 0 && i <= |m| && Resting(a) && h == old(h)
        invariant !final ==> ModP(Value(a)) == Accumulate(Value(r), done + m[..i])
        invariant i == 0 ==> a == h
        invariant final && i == 16 ==> ModP(Value(a)) == Step(Value(h), FromLittleEndian(m[..16]), Value(r))
      {
        ghost var was := a;
        a := Block(a, r, m[i..i + 16], final);
        if !final {
          OneBlock(Value(r), done + m[..i], m[i..i + 16], Value(was));
          assert done + m[..i] + m[i..i + 16] == done + m[..i + 16];
        }
        i := i + 16;
      }
      h := a;
      assert m[..i] == Whole(m);
      assert |m| == 16 ==> m[..16] == m;
    }

    /** Bytes put into the buffer from a place on. */
    method Copy(at: nat, m: seq<byte>)
      requires buffer.Length == 16 && at + |m| <= 16
      modifies buffer
      ensures buffer[..at + |m|] == old(buffer[..at]) + m
    {
      for i := 0 to |m|
        invariant buffer[..at + i] == old(buffer[..at]) + m[..i]
      {
        buffer[at + i] := m[i];
      }
    }

    /** Taking in more bytes, however many, extends the message by exactly those. */
    method Update(m: seq<byte>)
      requires Valid()
      modifies this, buffer
      ensures Valid() && msg == old(msg) + m
    {
      hide Accumulate, Value, QuadValue, Multiplier, FromLittleEndian, ModP, Step, Holds, TOP, Clamped, Resting;
      var rest := m;
      if leftover != 0 {
        ghost var was, tail := h, buffer[..leftover];
        HoldsParts(key, msg, r, h, pad, tail);
        var want := if 16 - leftover > |m| then |m| else 16 - leftover;
        Copy(leftover, m[..want]);
        rest := m[want..];
        leftover := leftover + want;
        if leftover < 16 {
          HoldsMore(key, msg, r, h, pad, tail, m[..want]);
          msg := msg + m[..want];
          assert m[..want] == m;
          return;
        }
        assert buffer[..] == tail + m[..want];
        Blocks(buffer[..], msg[..|msg| - |tail|]);
        HoldsBlocks(key, msg, r, was, pad, tail, m[..want], h);
        msg := msg + m[..want];
        leftover := 0;
      }
      BulkUpdate(rest);
      assert m == m[..|m| - |rest|] + rest;
    }

    /** The rest of an update, on an empty buffer: whole blocks straight in, what is left into the buffer. */
    method BulkUpdate(m: seq<byte>)
      requires Valid() && leftover == 0
      modifies this, buffer
      ensures Valid() && msg == old(msg) + m
    {
      hide Accumulate, Value, QuadValue, Multiplier, FromLittleEndian, ModP, Step, Holds, TOP, Clamped, Resting;
      assert buffer[..0] == [];
      var rest := m;
      if |m| >= 16 {
        var want := |m| - |m| % 16;
        ghost var was := h;
        HoldsParts(key, msg, r, h, pad, []);
        assert msg[..|msg|] == msg && Whole(m[..want]) == m[..want] && [] + m[..want] == m[..want];
        Blocks(m[..want], msg);
        HoldsBlocks(key, msg, r, was, pad, [], m[..want], h);
        msg := msg + m[..want];
        rest := m[want..];
      }
      if |rest| > 0 {
        Copy(leftover, rest);
        HoldsMore(key, msg, r, h, pad, [], rest);
        leftover := leftover + |rest|;
        msg := msg + rest;
      }
      assert m == m[..|m| - |rest|] + rest;
    }

    /** Pads out a started block with a byte of one and zeros, and takes it in as the final one. */
    method Close()
      requires Valid()
      modifies this, buffer
      ensures Resting(h) && ModP(Value(h)) == Accumulate(Value(r), msg)
      ensures r == old(r) && pad == old(pad) && msg == old(msg)
    {
      hide Accumulate, Value, QuadValue, Multiplier, FromLittleEndian, ModP, Step, Holds, TOP, Clamped, Resting, Pow256;
      ghost var was, tail := h, buffer[..leftover];
      HoldsParts(key, msg, r, h, pad, tail);
      HoldsTail(key, msg, r, h, pad, tail);
      if leftover != 0 {
        ghost var n := leftover;
        buffer[leftover] := 1;
        leftover := leftover + 1;
        assert buffer[..leftover] == tail + [1] + Zeros(0);
        while leftover < 16
          invariant n < leftover <= 16 && buffer[..leftover] == tail + [1] + Zeros(leftover - n - 1)
          invariant h == was && r == old(r) && pad == old(pad) && msg == old(msg)
        {
          buffer[leftover] := 0;
          leftover := leftover + 1;
          assert buffer[..leftover] == tail + [1] + Zeros(leftover - n - 1);
        }
        final := true;
        assert buffer[..] == tail + [1] + Zeros(15 - n);
        Blocks(buffer[..], msg[..|msg| - |tail|]);
        FinalBlock(Value(r), msg[..|msg| - |tail|], tail, Value(was));
      } else {
        assert msg[..|msg| - |tail|] == msg;
      }
    }

    /** The tag of everything taken in. The object is spent. */
    method Finish() returns (mac: seq<byte>)
      requires Valid()
      modifies this, buffer
      ensures mac == Mac(key, old(msg))
    {
      hide Accumulate, Value, QuadValue, Multiplier, FromLittleEndian, ModP, Step, Holds, TOP, Clamped, Resting, Pow256, LittleEndian, Mac;
      HoldsKey(key, msg, r, h, pad, buffer[..leftover]);
      Close();
      ghost var acc := Accumulate(Value(r), msg);
      var n, k := Settle(h);
      SameResidue(Value(h), Value(n), k);
      n := Canonical(n);
      var f := Pack(n);
      f := AddPad(f, pad);
      mac := LittleEndian(f.w0, 4) + LittleEndian(f.w1, 4) + LittleEndian(f.w2, 4) + LittleEndian(f.w3, 4);
      WrittenOut(f);
      MacOf(key, msg, acc, QuadValue(f), QuadValue(pad));
    }
  }

  lemma HoldsTail(key: seq<byte>, msg: seq<byte>, r: Limbs, h: Limbs, pad: Quad, tail: seq<byte>)
    requires Holds(key, msg, r, h, pad, tail)
    ensures |tail| <= |msg| && msg == msg[..|msg| - |tail|] + tail
  {
    hide Accumulate, Value, QuadValue, Multiplier, FromLittleEndian, ModP;
  }

  lemma HoldsKey(key: seq<byte>, msg: seq<byte>, r: Limbs, h: Limbs, pad: Quad, tail: seq<byte>)
    requires Holds(key, msg, r, h, pad, tail)
    ensures |key| == 32 && Value(r) == Multiplier(key) && QuadValue(pad) == FromLittleEndian(key[16..]) && InWords(pad)
  {
    hide Accumulate, Value, QuadValue, Multiplier, FromLittleEndian, ModP;
  }

  lemma {:induction false} FromZeros(n: nat)
    ensures FromLittleEndian(Zeros(n)) == 0
  {
    if n > 0 {
      assert Zeros(n)[1..] == Zeros(n - 1);
      FromZeros(n - 1);
    }
  }

  /** The explicit pad byte stands for the bit the final block does not carry. */
  lemma FinalBlock(r: nat, done: seq<byte>, tail: seq<byte>, x: nat)
    requires |done| % 16 == 0 && 0 < |tail| < 16 && ModP(x) == Accumulate(r, done)
    ensures Accumulate(r, done + tail) == Step(x, FromLittleEndian(tail + [1] + Zeros(15 - |tail|)), r)
  {
    hide Step, ModP, FromLittleEndian, Accumulate, Pow256, Zeros;
    LastBlock(r, done, tail);
    AccumulateReduced(r, done);
    ClosedBlock(tail);
    FromLittleEndianJoin(tail + [1], Zeros(15 - |tail|));
    FromZeros(15 - |tail|);
    SameStep(x, Accumulate(r, done), FromLittleEndian(tail) + Pow256(|tail|), r);
  }

  /** Four words written out little end first are the sixteen bytes of their number. */
  lemma WrittenOut(f: Quad)
    requires InWords(f)
    ensures LittleEndian(f.w0, 4) + LittleEndian(f.w1, 4) + LittleEndian(f.w2, 4) + LittleEndian(f.w3, 4)
      == LittleEndian(QuadValue(f), 16)
  {
    hide LittleEndian, FromLittleEndian, Pow256;
    var s := LittleEndian(f.w0, 4) + LittleEndian(f.w1, 4) + LittleEndian(f.w2, 4) + LittleEndian(f.w3, 4);
    assert s[0..4] == LittleEndian(f.w0, 4) && s[4..8] == LittleEndian(f.w1, 4);
    assert s[8..12] == LittleEndian(f.w2, 4) && s[12..16] == LittleEndian(f.w3, 4);
    Powers256();
    LittleEndianRoundTrip(f.w0, 4); LittleEndianRoundTrip(f.w1, 4); LittleEndianRoundTrip(f.w2, 4); LittleEndianRoundTrip(f.w3, 4);
    FourWords(s);
    FromLittleEndianRoundTrip(s);
  }

  lemma MacOf(key: seq<byte>, msg: seq<byte>, acc: nat, v: nat, pad: nat)
    requires |key| == 32 && acc == Accumulate(Multiplier(key), msg) && pad == FromLittleEndian(key[16..])
    requires v == (acc % TOP + pad) % TOP
    ensures Mac(key, msg) == LittleEndian(v, 16)
  {
    hide LittleEndian, FromLittleEndian, Accumulate, Multiplier;
  }

  function Concat(pieces: seq<seq<byte>>): seq<byte> {
    if |pieces| == 0 then [] else Concat(pieces[..|pieces| - 1]) + pieces[|pieces| - 1]
  }

  /** However a message is cut into updates, the tag is the standard's. */
  method Authenticate(key: seq<byte>, pieces: seq<seq<byte>>) returns (mac: seq<byte>)
    requires |key| == 32
    ensures mac == Mac(key, Concat(pieces))
  {
    hide Accumulate, Value, QuadValue, Multiplier, FromLittleEndian, ModP, Step, Holds, LittleEndian, Mac;
    var st := new Authenticator(key);
    for i := 0 to |pieces|
      invariant st.Valid() && st.key == key && st.msg == Concat(pieces[..i]) && fresh(st) && fresh(st.buffer)
    {
      st.Update(pieces[i]);
      assert pieces[..i + 1][..i] == pieces[..i];
    }
    assert pieces[..|pieces|] == pieces;
    mac := st.Finish();
  }

  /** One string of the input, and its zeros. */
  method UpdatePadded(st: Authenticator, x: seq<byte>)
    requires st.Valid()
    modifies st, st.buffer
    ensures st.Valid() && st.msg == old(st.msg) + Padded(x)
  {
    hide Accumulate, Value, QuadValue, Multiplier, FromLittleEndian, ModP, Step, Holds;
    if |x| > 0 {
      st.Update(x);
      if |x| % 16 != 0 { st.Update(Zeros(16 - |x| % 16)); }
    }
    assert st.msg == old(st.msg) + Padded(x);
  }

  /** The tag over associated data and ciphertext, by the updates the cipher makes. */
  method AeadTag(key: seq<byte>, aad: seq<byte>, c: seq<byte>) returns (tag: seq<byte>)
    requires |key| == 32 && |aad| < W64 && |c| < W64
    ensures tag == Mac(key, AeadInput(aad, c))
  {
    hide Accumulate, Value, QuadValue, Multiplier, FromLittleEndian, ModP, Step, Holds, LittleEndian, Mac, Padded;
    var st := new Authenticator(key);
    UpdatePadded(st, aad);
    UpdatePadded(st, c);
    st.Update(LittleEndian(|aad|, 8));
    st.Update(LittleEndian(|c|, 8));
    assert [] + Padded(aad) == Padded(aad);
    tag := st.Finish();
  }
}
