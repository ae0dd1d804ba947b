/** The BIP324 packet cipher: an encrypted length, then an authenticated packet,
    each under a key that is replaced every 224 uses. The curve, the hash and the
    block function are parameters: every result holds whatever they compute. */
module Bip324Cipher {
  import opened Bytes

  const REKEY_INTERVAL := 224
  const LENGTH_LEN := 3
  const HEADER_LEN := 1
  const AEAD_EXPANSION := 16
  const GARBAGE_TERMINATOR_LEN := 16
  const IGNORE_BIT: byte := 0x80

  /** The two counters a 96-bit nonce packs. */
  datatype Nonce = Nonce(packet: nat, rekey: nat)

  datatype Crypto = Crypto(
    ecdh: (seq<byte>, seq<byte>, seq<byte>, bool) -> Option<seq<byte>>,   // theirs, ours, our secret, initiator
    extract: (seq<byte>, seq<byte>) -> seq<byte>,
    expand: (seq<byte>, seq<byte>) -> seq<byte>,
    block: (seq<byte>, Nonce, nat) -> seq<byte>,
    mac: (seq<byte>, seq<byte>) -> seq<byte>)

  /** A primitive's output, at the length the primitive has. */
  function Fit(s: seq<byte>, n: nat): (r: seq<byte>)
    ensures |r| == n && (|s| == n ==> r == s)
  {
    if |s| >= n then s[..n] else s + Zeros(n - |s|)
  }

  /** One 64-byte keystream block. */
  function Block(c: Crypto, key: seq<byte>, nonce: Nonce, i: nat): (r: seq<byte>)
    ensures |r| == 64
  {
    Fit(c.block(key, nonce, i), 64)
  }

  /** n keystream bytes from byte offset `from`. */
  function Keystream(c: Crypto, key: seq<byte>, nonce: Nonce, from: nat, n: nat): (r: seq<byte>)
    ensures |r| == n
    ensures forall j: nat :: j < n ==> r[j] == Block(c, key, nonce, (from + j) / 64)[(from + j) % 64]
  {
    seq(n, j requires 0 <= j => Block(c, key, nonce, (from + j) / 64)[(from + j) % 64])
  }

  /** Keystream taken in two pieces is keystream taken at once. */
  lemma KeystreamJoin(c: Crypto, key: seq<byte>, nonce: Nonce, from: nat, n: nat, m: nat)
    ensures Keystream(c, key, nonce, from, n) + Keystream(c, key, nonce, from + n, m) == Keystream(c, key, nonce, from, n + m)
  {
  }

  lemma KeystreamInBlock(c: Crypto, key: seq<byte>, nonce: Nonce, b: nat, p: nat, n: nat)
    requires p + n <= 64
    ensures Keystream(c, key, nonce, 64 * b + p, n) == Block(c, key, nonce, b)[p..p + n]
  {
    var s := Keystream(c, key, nonce, 64 * b + p, n);
    forall j: nat | j < n
      ensures s[j] == Block(c, key, nonce, b)[p + j]
    {
      assert (64 * b + p + j) / 64 == b && (64 * b + p + j) % 64 == p + j;
    }
  }

  // ---- the AEAD: data from block 1, the one-time key from block 0 ----

  function Tag(c: Crypto, key: seq<byte>, nonce: Nonce, aad: seq<byte>, text: seq<byte>): (r: seq<byte>)
    ensures |r| == AEAD_EXPANSION
  {
    var oneTime := Block(c, key, nonce, 0)[..32];
    Fit(c.mac(oneTime, AeadInput(aad, text)), AEAD_EXPANSION)
  }

  function Seal(c: Crypto, key: seq<byte>, nonce: Nonce, aad: seq<byte>, plain: seq<byte>): (r: seq<byte>)
    ensures |r| == |plain| + AEAD_EXPANSION
  {
    var text := XorSeq(plain, Keystream(c, key, nonce, 64, |plain|));
    text + Tag(c, key, nonce, aad, text)
  }

  /** The plaintext, when the tag is the right one. */
  function Open(c: Crypto, key: seq<byte>, nonce: Nonce, aad: seq<byte>, sealed: seq<byte>): (r: Option<seq<byte>>)
    ensures r.Some? ==> |sealed| == |r.value| + AEAD_EXPANSION
  {
    if |sealed| < AEAD_EXPANSION then None
    else
      var n := |sealed| - AEAD_EXPANSION;
      var text, tag := sealed[..n], sealed[n..];
      if tag != Tag(c, key, nonce, aad, text) then None
      else Some(XorSeq(text, Keystream(c, key, nonce, 64, n)))
  }

  /** A sealed packet byte by byte, as section 2.8 of RFC 8439 has it: the text under the keystream from block 1 on, then
      sixteen bytes of tag over both strings, under the first half of block 0. */
  lemma SealBytes(c: Crypto, key: seq<byte>, nonce: Nonce, aad: seq<byte>, plain: seq<byte>)
    ensures var s, n := Seal(c, key, nonce, aad, plain), |plain|;
      && |s| == n + 16 && (forall j: nat :: j < n ==> s[j] == Xor(plain[j], Block(c, key, nonce, 1 + j / 64)[j % 64]))
      && s[n..] == Fit(c.mac(Block(c, key, nonce, 0)[..32], AeadInput(aad, s[..n])), 16)
  {
    hide Xor, AeadInput, Block;
    var pad := Keystream(c, key, nonce, 64, |plain|);
    var text := XorSeq(plain, pad);
    var s := Seal(c, key, nonce, aad, plain);
    assert s[..|plain|] == text;
    forall j: nat | j < |plain| ensures s[j] == Xor(plain[j], Block(c, key, nonce, 1 + j / 64)[j % 64]) {
      assert s[j] == text[j] == Xor(plain[j], pad[j]);
      assert (64 + j) / 64 == 1 + j / 64 && (64 + j) % 64 == j % 64;
    }
  }

  /** What was sealed opens to what it was, under the same key, nonce and associated data. */
  lemma OpenSeal(c: Crypto, key: seq<byte>, nonce: Nonce, aad: seq<byte>, plain: seq<byte>)
    ensures Open(c, key, nonce, aad, Seal(c, key, nonce, aad, plain)) == Some(plain)
  {
    var pad := Keystream(c, key, nonce, 64, |plain|);
    var text := XorSeq(plain, pad);
    var sealed := Seal(c, key, nonce, aad, plain);
    assert sealed[..|plain|] == text && sealed[|plain|..] == Tag(c, key, nonce, aad, text);
    XorSeqTwice(plain, pad);
  }

  /** And nothing else opens: what opens was sealed, to that plaintext. */
  lemma OpenExactly(c: Crypto, key: seq<byte>, nonce: Nonce, aad: seq<byte>, sealed: seq<byte>, plain: seq<byte>)
    ensures Open(c, key, nonce, aad, sealed) == Some(plain) <==> sealed == Seal(c, key, nonce, aad, plain)
  {
    OpenSeal(c, key, nonce, aad, plain);
    if Open(c, key, nonce, aad, sealed) == Some(plain) {
      var n := |sealed| - AEAD_EXPANSION;
      XorSeqTwice(sealed[..n], Keystream(c, key, nonce, 64, n));
      assert sealed == sealed[..n] + sealed[n..];
    }
  }

  // ---- FSChaCha20: one continuous keystream per key, cut into chunks ----

  /** `used` keystream bytes of the current key are spent, over `chunks` calls. */
  datatype LenCipher = LenCipher(key: seq<byte>, rekeys: nat, used: nat, chunks: nat)

  function LenInit(key: seq<byte>): LenCipher { LenCipher(key, 0, 0, 0) }

  function LenPad(c: Crypto, l: LenCipher, n: nat): (r: seq<byte>)
    ensures |r| == n
  {
    Keystream(c, l.key, Nonce(0, l.rekeys), l.used, n)
  }

  function LenAdvance(c: Crypto, l: LenCipher, n: nat): LenCipher {
    if l.chunks + 1 == REKEY_INTERVAL then
      LenCipher(Keystream(c, l.key, Nonce(0, l.rekeys), l.used + n, 32), l.rekeys + 1, 0, 0)
    else l.(used := l.used + n, chunks := l.chunks + 1)
  }

  lemma CryptMore(c: Crypto, key: seq<byte>, nonce: Nonce, from: nat, data: seq<byte>, o: nat, n: nat)
    requires o + n <= |data|
    ensures XorSeq(data[..o + n], Keystream(c, key, nonce, from, o + n)) ==
      XorSeq(data[..o], Keystream(c, key, nonce, from, o)) + XorSeq(data[o..o + n], Keystream(c, key, nonce, from + o, n))
  {
    hide *;
    KeystreamJoin(c, key, nonce, from, o, n);
    XorJoin(data[..o], Keystream(c, key, nonce, from, o), data[o..o + n], Keystream(c, key, nonce, from + o, n));
    assert data[..o + n] == data[..o] + data[o..o + n];
  }

  // ---- FSChaCha20Poly1305: a fresh nonce per packet, a fresh key per 224 ----

  datatype PacketCipher = PacketCipher(key: seq<byte>, packets: nat, rekeys: nat)

  function PacketInit(key: seq<byte>): PacketCipher { PacketCipher(key, 0, 0) }

  function PacketNonce(p: PacketCipher): Nonce { Nonce(p.packets, p.rekeys) }

  function PacketAdvance(c: Crypto, p: PacketCipher): PacketCipher {
    if p.packets + 1 == REKEY_INTERVAL then
      PacketCipher(Block(c, p.key, Nonce(0xFFFF_FFFF, p.rekeys), 1)[..32], 0, p.rekeys + 1)
    else p.(packets := p.packets + 1)
  }

  /** The packet cipher after n packets. */
  function AfterPackets(c: Crypto, key: seq<byte>, n: nat): (p: PacketCipher)
    ensures p.packets == n % REKEY_INTERVAL && p.rekeys == n / REKEY_INTERVAL
  {
    if n == 0 then PacketInit(key) else PacketAdvance(c, AfterPackets(c, key, n - 1))
  }

  /** The packet key after so many rekeys: each the first half of block 1, under the old key and the nonce no packet has. */
  ghost function PacketKey(c: Crypto, key: seq<byte>, e: nat): seq<byte> {
    if e == 0 then key else Block(c, PacketKey(c, key, e - 1), Nonce(0xFFFF_FFFF, e - 1), 1)[..32]
  }

  /** The length key after so many rekeys: each the 32 keystream bytes after the 672 that 224 lengths use. */
  ghost function LengthKey(c: Crypto, key: seq<byte>, e: nat): seq<byte> {
    if e == 0 then key else Keystream(c, LengthKey(c, key, e - 1), Nonce(0, e - 1), 672, 32)
  }

  /** The length cipher after n lengths. */
  ghost function AfterLengths(c: Crypto, key: seq<byte>, n: nat): LenCipher {
    if n == 0 then LenInit(key) else LenAdvance(c, AfterLengths(c, key, n - 1), LENGTH_LEN)
  }

  /** Where both ciphers are after n packets, whatever the packets were. */
  lemma {:induction false} PacketNumber(c: Crypto, lkey: seq<byte>, pkey: seq<byte>, n: nat)
    ensures AfterLengths(c, lkey, n) == LenCipher(LengthKey(c, lkey, n / 224), n / 224, 3 * (n % 224), n % 224)
    ensures AfterPackets(c, pkey, n) == PacketCipher(PacketKey(c, pkey, n / 224), n % 224, n / 224)
  {
    hide Keystream, Block;
    if n > 0 {
      PacketNumber(c, lkey, pkey, n - 1);
      Interval(n);
    }
  }

  lemma Interval(n: nat)
    requires n > 0
    ensures if n % 224 == 0 then (n - 1) % 224 == 223 && (n - 1) / 224 == n / 224 - 1 else (n - 1) % 224 == n % 224 - 1 && (n - 1) / 224 == n / 224
  {
  }

  /** The twelve bytes of a nonce. */
  function NonceBytes(n: Nonce): (r: seq<byte>)
    ensures |r| == 12
  {
    LittleEndian(n.packet, 4) + LittleEndian(n.rekey, 8)
  }

  /** The bytes tell apart any two nonces whose counters fit them. */
  lemma NonceBytesDiffer(a: Nonce, b: Nonce)
    requires a.packet < Pow256(4) && b.packet < Pow256(4) && a.rekey < Pow256(8) && b.rekey < Pow256(8)
    requires NonceBytes(a) == NonceBytes(b)
    ensures a == b
  {
    hide LittleEndian, Pow256;
    assert NonceBytes(a)[..4] == LittleEndian(a.packet, 4) && NonceBytes(b)[..4] == LittleEndian(b.packet, 4);
    assert NonceBytes(a)[4..] == LittleEndian(a.rekey, 8) && NonceBytes(b)[4..] == LittleEndian(b.rekey, 8);
    LittleEndianRoundTrip(a.packet, 4); LittleEndianRoundTrip(b.packet, 4);
    LittleEndianRoundTrip(a.rekey, 8); LittleEndianRoundTrip(b.rekey, 8);
  }

  /** The packets a cipher can send before its 64-bit rekey counter would start again. */
  ghost predicate InReach(n: nat) {
    n / REKEY_INTERVAL < Pow256(8)
  }

  /** Over any run of packets no two are sealed under the same nonce. */
  lemma NoncesNeverRepeat(c: Crypto, key: seq<byte>, i: nat, j: nat)
    requires i < j && InReach(j)
    ensures NonceBytes(PacketNonce(AfterPackets(c, key, i))) != NonceBytes(PacketNonce(AfterPackets(c, key, j)))
  {
    hide AfterPackets, NonceBytes;
    FourBytes();
    var a, b := AfterPackets(c, key, i), AfterPackets(c, key, j);
    if NonceBytes(PacketNonce(a)) == NonceBytes(PacketNonce(b)) {
      NonceBytesDiffer(PacketNonce(a), PacketNonce(b));
    }
  }

  /** A rekey draws on a nonce that no packet, before or after it, is sealed under. */
  lemma RekeyNonceApart(c: Crypto, key: seq<byte>, i: nat, rekeys: nat)
    requires InReach(i) && rekeys < Pow256(8)
    ensures NonceBytes(PacketNonce(AfterPackets(c, key, i))) != NonceBytes(Nonce(0xFFFF_FFFF, rekeys))
  {
    hide AfterPackets, NonceBytes;
    FourBytes();
    var a := AfterPackets(c, key, i);
    if NonceBytes(PacketNonce(a)) == NonceBytes(Nonce(0xFFFF_FFFF, rekeys)) {
      NonceBytesDiffer(PacketNonce(a), Nonce(0xFFFF_FFFF, rekeys));
    }
  }

  lemma FourBytes()
    ensures Pow256(4) == 0x1_0000_0000
  {
  }

  /** The length cipher as it runs: a cached block, a position in it, and counters. */
  class FsChaCha20 {
    const crypto: Crypto
    var key: seq<byte>
    var counter: nat         // keystream blocks drawn under this key
    var ks: seq<byte>
    var pos: nat             // bytes of ks already used
    var chunkCounter: nat
    var rekeyCounter: nat

    ghost predicate Valid()
      reads this
    {
      && |ks| == 64 && pos <= 64 && chunkCounter < REKEY_INTERVAL
      && (pos < 64 ==> counter > 0 && ks == Block(crypto, key, Nonce(0, rekeyCounter), counter - 1))
    }

    /** The keystream bytes spent: whole blocks but for what the cache still holds. */
    ghost function Used(): nat
      requires Valid()
      reads this
    {
      64 * counter - (64 - pos)
    }

    ghost function Model(): LenCipher
      requires Valid()
      reads this
    {
      LenCipher(key, rekeyCounter, Used(), chunkCounter)
    }

    constructor (crypto: Crypto, key: seq<byte>)
      ensures Valid() && this.crypto == crypto && Model() == LenInit(key)
    {
      this.crypto, this.key := crypto, key;
      counter, ks, pos, chunkCounter, rekeyCounter := 0, Zeros(64), 64, 0, 0;
    }

    /** The next len bytes of the key's keystream, across as many blocks as it takes. */
    method Draw(len: nat) returns (out: seq<byte>)
      requires Valid()
      modifies this`counter, this`ks, this`pos
      ensures Valid() && Used() == old(Used()) + len
      ensures out == Keystream(crypto, key, Nonce(0, rekeyCounter), old(Used()), len)
    {
      hide Keystream;
      hide Block;
      out := [];
      ghost var from, nonce := Used(), Nonce(0, rekeyCounter);
      while |out| < len
        invariant Valid() && |out| <= len && Used() == from + |out|
        invariant out == Keystream(crypto, key, nonce, from, |out|)
        decreases len - |out|
      {
        if pos == 64 {
          ks := Block(crypto, key, Nonce(0, rekeyCounter), counter);
          counter, pos := counter + 1, 0;
        }
        var n := if 64 - pos > len - |out| then len - |out| else 64 - pos;
        KeystreamInBlock(crypto, key, nonce, counter - 1, pos, n);
        KeystreamJoin(crypto, key, nonce, from, |out|, n);
        out := out + ks[pos..pos + n];
        pos := pos + n;
      }
    }

    /** One chunk: xor with the next keystream bytes, and rekey at the interval. */
    method Crypt(data: seq<byte>) returns (out: seq<byte>)
      requires Valid()
      modifies this
      ensures Valid()
      ensures out == XorSeq(data, LenPad(crypto, old(Model()), |data|))
      ensures Model() == LenAdvance(crypto, old(Model()), |data|)
    {
      hide Keystream;
      hide Block;
      hide XorSeq;
      out := [];
      ghost var m := Model();
      ghost var nonce := Nonce(0, m.rekeys);
      while |out| < |data|
        invariant Valid() && |out| <= |data| && Model() == m.(used := m.used + |out|)
        invariant out == XorSeq(data[..|out|], Keystream(crypto, m.key, nonce, m.used, |out|))
        decreases |data| - |out|
      {
        var o := |out|;
        var n := if |data| - o < 64 then |data| - o else 64;
        var k := Draw(n);
        CryptMore(crypto, m.key, nonce, m.used, data, o, n);
        out := out + XorSeq(data[o..o + n], k);
      }
      assert data[..|data|] == data;
      Turn();
    }

    /** Count the chunk, and replace the key by the next keystream bytes at the interval. */
    method Turn()
      requires Valid()
      modifies this
      ensures Valid() && Model() == LenAdvance(crypto, old(Model()), 0)
    {
      chunkCounter := chunkCounter + 1;
      if chunkCounter == REKEY_INTERVAL {
        chunkCounter := 0;
        var newKey := Draw(32);
        rekeyCounter := rekeyCounter + 1;
        key, counter, pos, ks := newKey, 0, 64, Zeros(64);
      }
    }
  }

  /** The packet cipher as it runs. */
  class FsAead {
    const crypto: Crypto
    ghost const first: seq<byte>   // the key it started with
    var key: seq<byte>
    var packetCounter: nat
    var rekeyCounter: nat
    ghost var done: nat            // packets so far, opened or not

    ghost predicate Valid()
      reads this
    {
      Model() == AfterPackets(crypto, first, done)
    }

    ghost function Model(): PacketCipher
      reads this
    {
      PacketCipher(key, packetCounter, rekeyCounter)
    }

    constructor (crypto: Crypto, key: seq<byte>)
      ensures Valid() && this.crypto == crypto && first == key && done == 0 && Model() == PacketInit(key)
    {
      this.crypto, this.key, packetCounter, rekeyCounter := crypto, key, 0, 0;
      first, done := key, 0;
    }

    /** On to the next packet; at the interval, to a key drawn from block 1 of a nonce no packet has. */
    method Next()
      requires Valid()
      modifies this
      ensures Valid() && done == old(done) + 1 && packetCounter < REKEY_INTERVAL
      ensures Model() == PacketAdvance(crypto, old(Model()))
    {
      packetCounter := packetCounter + 1;
      if packetCounter == REKEY_INTERVAL {
        var block := Block(crypto, key, Nonce(0xFFFF_FFFF, rekeyCounter), 1);
        key, packetCounter, rekeyCounter := block[..32], 0, rekeyCounter + 1;
      }
      done := done + 1;
    }

    /** Packet number `done` of the run, sealed under a nonce no other packet of it has. */
    method Encrypt(plain: seq<byte>, aad: seq<byte>) returns (out: seq<byte>)
      requires Valid()
      modifies this
      ensures Valid() && done == old(done) + 1 && Model() == PacketAdvance(crypto, old(Model()))
      ensures out == Seal(crypto, old(key), PacketNonce(old(Model())), aad, plain)
      ensures InReach(old(done)) ==> forall i: nat :: i < old(done) ==>
        NonceBytes(PacketNonce(AfterPackets(crypto, first, i))) != NonceBytes(PacketNonce(old(Model())))
    {
      ghost var n, p := done, Model();
      out := Seal(crypto, key, Nonce(packetCounter, rekeyCounter), aad, plain);
      Next();
      if InReach(n) {
        forall i: nat | i < n ensures NonceBytes(PacketNonce(AfterPackets(crypto, first, i))) != NonceBytes(PacketNonce(p)) {
          NoncesNeverRepeat(crypto, first, i, n);
        }
      }
    }

    /** What opens, and to what, is exactly what was sealed as this packet; a wrong tag costs the packet all the same. */
    method Decrypt(sealed: seq<byte>, aad: seq<byte>) returns (out: Option<seq<byte>>)
      requires Valid()
      modifies this
      ensures Valid() && done == old(done) + 1 && Model() == PacketAdvance(crypto, old(Model()))
      ensures forall plain :: out == Some(plain) <==> sealed == Seal(crypto, old(key), PacketNonce(old(Model())), aad, plain)
    {
      out := Open(crypto, key, Nonce(packetCounter, rekeyCounter), aad, sealed);
      forall plain ensures out == Some(plain) <==> sealed == Seal(crypto, old(key), PacketNonce(old(Model())), aad, plain) {
        OpenExactly(crypto, key, PacketNonce(Model()), aad, sealed, plain);
      }
      Next();
    }
  }

  // ---- the session cipher: four keys by role, two terminators ----

  /** One direction of a session: its length and packet ciphers and its garbage terminator. */
  datatype Half = Half(l: LenCipher, p: PacketCipher, term: seq<byte>)

  datatype Cipher = Cipher(send: Half, recv: Half, sessionId: seq<byte>)

  /** The bytes of an ASCII label. */
  function Ascii(s: string): (r: seq<byte>)
    ensures |r| == |s|
  {
    seq(|s|, i requires 0 <= i < |s| => s[i] as int % 256)
  }

  function Expand(c: Crypto, prk: seq<byte>, name: string): (r: seq<byte>)
    ensures |r| == 32
  {
    Fit(c.expand(prk, Ascii(name)), 32)
  }

  /** Derive the session. The labels go by role; `side` says which role we send as,
      the terminators go by the real role. */
  function Init(c: Crypto, seckey: seq<byte>, ours: seq<byte>, theirs: seq<byte>, magic: seq<byte>,
                initiator: bool, selfDecrypt: bool): (r: Option<Cipher>)
    ensures r.Some? ==> |r.value.send.term| == |r.value.recv.term| == GARBAGE_TERMINATOR_LEN
  {
    match c.ecdh(theirs, ours, seckey, initiator)
    case None => None
    case Some(secret) =>
      var prk := c.extract(Ascii("bitcoin_v2_shared_secret") + magic, secret);
      var side := initiator != selfDecrypt;
      var iL, iP := LenInit(Expand(c, prk, "initiator_L")), PacketInit(Expand(c, prk, "initiator_P"));
      var rL, rP := LenInit(Expand(c, prk, "responder_L")), PacketInit(Expand(c, prk, "responder_P"));
      var t := Expand(c, prk, "garbage_terminators");
      Some(Cipher(
        Half(if side then iL else rL, if side then iP else rP, if initiator then t[..16] else t[16..]),
        Half(if side then rL else iL, if side then rP else iP, if initiator then t[16..] else t[..16]),
        Expand(c, prk, "session_id")))
  }

  /** The two key pairs agree on a shared secret. */
  ghost predicate Agree(c: Crypto, skA: seq<byte>, ellA: seq<byte>, skB: seq<byte>, ellB: seq<byte>) {
    c.ecdh(ellB, ellA, skA, true).Some? && c.ecdh(ellB, ellA, skA, true) == c.ecdh(ellA, ellB, skB, false)
  }

  /** Opposite roles on the same magic start in step: what each sends with is what
      the other receives with, terminators included. */
  lemma InitInStep(c: Crypto, skA: seq<byte>, ellA: seq<byte>, skB: seq<byte>, ellB: seq<byte>, magic: seq<byte>)
    requires Agree(c, skA, ellA, skB, ellB)
    ensures var a, b := Init(c, skA, ellA, ellB, magic, true, false), Init(c, skB, ellB, ellA, magic, false, false);
      && a.Some? && b.Some? && a.value.send == b.value.recv && a.value.recv == b.value.send
      && a.value.sessionId == b.value.sessionId
  {
  }

  /** Which key is whose: an end sends with the keys named after its own role and
      receives with those named after the other, and the initiator sends the first
      half of the terminator bytes. */
  lemma InitByRole(c: Crypto, seckey: seq<byte>, ours: seq<byte>, theirs: seq<byte>, magic: seq<byte>, initiator: bool)
    requires c.ecdh(theirs, ours, seckey, initiator).Some?
    ensures var prk := c.extract(Ascii("bitcoin_v2_shared_secret") + magic, c.ecdh(theirs, ours, seckey, initiator).value);
      var asInitiator := Half(LenInit(Expand(c, prk, "initiator_L")), PacketInit(Expand(c, prk, "initiator_P")), Expand(c, prk, "garbage_terminators")[..16]);
      var asResponder := Half(LenInit(Expand(c, prk, "responder_L")), PacketInit(Expand(c, prk, "responder_P")), Expand(c, prk, "garbage_terminators")[16..]);
      Init(c, seckey, ours, theirs, magic, initiator, false) == Some(
        if initiator then Cipher(asInitiator, asResponder, Expand(c, prk, "session_id"))
        else Cipher(asResponder, asInitiator, Expand(c, prk, "session_id")))
  {
  }

  /** With self-decryption an end receives with the ciphers it otherwise sends with,
      and the other way round; the terminators and the session id stay. */
  lemma SelfDecryptSwaps(c: Crypto, seckey: seq<byte>, ours: seq<byte>, theirs: seq<byte>, magic: seq<byte>, initiator: bool)
    ensures var i, s := Init(c, seckey, ours, theirs, magic, initiator, false), Init(c, seckey, ours, theirs, magic, initiator, true);
      && (i.Some? <==> s.Some?) && (i.Some? <==> c.ecdh(theirs, ours, seckey, initiator).Some?)
      && (i.Some? ==> s.value == Cipher(i.value.recv.(term := i.value.send.term), i.value.send.(term := i.value.recv.term), i.value.sessionId))
  {
  }

  function Header(ignore: bool): byte { if ignore then IGNORE_BIT else 0 }

  /** Bit 7 of the header marks a packet to be ignored. */
  predicate Ignored(header: byte) { header >= IGNORE_BIT }

  /** The packet for the contents, and the sending half after it. */
  function EncryptPacket(c: Crypto, h: Half, contents: seq<byte>, aad: seq<byte>, ignore: bool): (r: (Half, seq<byte>))
    ensures |r.1| == |contents| + LENGTH_LEN + HEADER_LEN + AEAD_EXPANSION
  {
    var len3 := XorSeq(LittleEndian(|contents|, LENGTH_LEN), LenPad(c, h.l, LENGTH_LEN));
    var body := Seal(c, h.p.key, PacketNonce(h.p), aad, [Header(ignore)] + contents);
    (h.(l := LenAdvance(c, h.l, LENGTH_LEN), p := PacketAdvance(c, h.p)), len3 + body)
  }

  /** A packet on the wire: three bytes of length under the length cipher's keystream, then a header byte, of which the top
      bit alone marks a decoy, and the contents, sealed as the next packet. */
  lemma PacketBytes(c: Crypto, h: Half, contents: seq<byte>, aad: seq<byte>, ignore: bool)
    requires |contents| < 0x100_0000
    ensures var p := EncryptPacket(c, h, contents, aad, ignore).1;
      && |p| == |contents| + 20
      && FromLittleEndian(XorSeq(p[..3], Keystream(c, h.l.key, Nonce(0, h.l.rekeys), h.l.used, 3))) == |contents|
      && p[3..] == Seal(c, h.p.key, Nonce(h.p.packets, h.p.rekeys), aad, [if ignore then 128 else 0] + contents)
    ensures forall header: byte :: Ignored(header) <==> header >= 128
  {
    hide Seal, Keystream, XorSeq, LittleEndian, FromLittleEndian;
    var p := EncryptPacket(c, h, contents, aad, ignore).1;
    var len, pad := LittleEndian(|contents|, 3), LenPad(c, h.l, 3);
    XorSeqTwice(len, pad);
    ThreeBytes();
    LittleEndianRoundTrip(|contents|, 3);
    assert p[..3] == XorSeq(len, pad);
  }

  /** A packet sent is one more of both ciphers. */
  lemma PacketCounts(c: Crypto, h: Half, lkey: seq<byte>, pkey: seq<byte>, n: nat, contents: seq<byte>, aad: seq<byte>, ignore: bool)
    requires h.l == AfterLengths(c, lkey, n) && h.p == AfterPackets(c, pkey, n)
    ensures var h' := EncryptPacket(c, h, contents, aad, ignore).0; h'.l == AfterLengths(c, lkey, n + 1) && h'.p == AfterPackets(c, pkey, n + 1) && h'.term == h.term
  {
    hide Seal, XorSeq, LittleEndian, LenPad, LenAdvance, PacketAdvance;
  }

  lemma ThreeBytes()
    ensures Pow256(3) == 0x100_0000
  {
    assert Pow256(2) == 0x1_0000;
  }

  function DecryptLength(c: Crypto, h: Half, in_: seq<byte>): (Half, nat)
    requires |in_| == LENGTH_LEN
  {
    (h.(l := LenAdvance(c, h.l, LENGTH_LEN)), FromLittleEndian(XorSeq(in_, LenPad(c, h.l, LENGTH_LEN))))
  }

  /** The ignore flag and the contents, when the tag is right. */
  function DecryptBody(c: Crypto, h: Half, in_: seq<byte>, aad: seq<byte>): (r: (Half, Option<(bool, seq<byte>)>))
    ensures r.1.Some? ==> |in_| == HEADER_LEN + |r.1.value.1| + AEAD_EXPANSION
  {
    if |in_| < HEADER_LEN + AEAD_EXPANSION then (h, None)
    else
      var h' := h.(p := PacketAdvance(c, h.p));
      match Open(c, h.p.key, PacketNonce(h.p), aad, in_)
      case None => (h', None)
      case Some(plain) => (h', Some((Ignored(plain[0]), plain[1..])))
  }

  /** A packet is read back as it was written, and moves the receiving half exactly
      as it moved the sending one, also when either key is replaced. */
  lemma PacketRoundTrip(c: Crypto, h: Half, contents: seq<byte>, aad: seq<byte>, ignore: bool)
    requires |contents| < 0x100_0000
    ensures var (h', pkt) := EncryptPacket(c, h, contents, aad, ignore);
      var (h1, n) := DecryptLength(c, h, pkt[..LENGTH_LEN]);
      n == |contents| && DecryptBody(c, h1, pkt[LENGTH_LEN..], aad) == (h', Some((ignore, contents)))
  {
    var (h', pkt) := EncryptPacket(c, h, contents, aad, ignore);
    var plain := [Header(ignore)] + contents;
    var pad := LenPad(c, h.l, LENGTH_LEN);
    assert pkt[..LENGTH_LEN] == XorSeq(LittleEndian(|contents|, LENGTH_LEN), pad);
    assert pkt[LENGTH_LEN..] == Seal(c, h.p.key, PacketNonce(h.p), aad, plain);
    XorSeqTwice(LittleEndian(|contents|, LENGTH_LEN), pad);
    ThreeBytes();
    LittleEndianRoundTrip(|contents|, LENGTH_LEN);
    OpenSeal(c, h.p.key, PacketNonce(h.p), aad, plain);
    assert plain[1..] == contents;
  }
}
