/** The receiving side of a BIP324 connection as a machine over the bytes that
    arrived, and why it does not matter how they were cut. */
module Bip324Receiver {
  import opened Bytes
  import opened Bip324Cipher
  import opened Bip324Messages

  const V1_PREFIX_LEN := 16
  const KEY_LEN := 64
  const MAX_GARBAGE_LEN := 4095

  datatype Phase = MaybeV1 | AwaitKey | Garbage | Version | App | V1

  /** What one end brings to the handshake. */
  datatype Config = Config(initiator: bool, magic: seq<byte>, seckey: seq<byte>, ours: seq<byte>)

  /** `ears` is the receiving half once the keys are known, `pending` the length of
      the packet in flight, `msg` a message not yet collected. */
  datatype Rx = Rx(phase: Phase, recv: seq<byte>, garbage: seq<byte>, ears: Option<Half>, pending: Option<nat>, msg: Option<Message>)

  datatype Event = SawV2 | GotKey(theirs: seq<byte>) | Deliver(msg: Message)

  datatype StepResult = Blocked | Broken | Next(rx: Rx, out: Option<Event>)

  /** The v1 header of a version message: magic, "version", five NULs. */
  function V1Prefix(magic: seq<byte>): (r: seq<byte>)
    ensures |r| == V1_PREFIX_LEN
  {
    Fit(magic, 4) + Ascii("version") + Zeros(5)
  }

  predicate TermAt(recv: seq<byte>, term: seq<byte>, i: nat) {
    i + |term| <= |recv| && recv[i..i + |term|] == term
  }

  /** The first place from i on, within the garbage bound, where the terminator stands. */
  function FindTerm(recv: seq<byte>, term: seq<byte>, i: nat): (r: Option<nat>)
    ensures r.Some? ==> i <= r.value <= MAX_GARBAGE_LEN && TermAt(recv, term, r.value)
    ensures r.Some? ==> forall j: nat :: i <= j < r.value ==> !TermAt(recv, term, j)
    ensures r.None? ==> forall j: nat :: i <= j <= MAX_GARBAGE_LEN ==> !TermAt(recv, term, j)
    decreases MAX_GARBAGE_LEN + 1 - i
  {
    if i > MAX_GARBAGE_LEN then None
    else if TermAt(recv, term, i) then Some(i)
    else FindTerm(recv, term, i + 1)
  }

  /** One move over the bytes in hand. */
  function Step(c: Crypto, cfg: Config, rx: Rx): StepResult {
    match rx.phase
    case MaybeV1 => ProbeStep(cfg, rx)
    case AwaitKey => KeyStep(c, cfg, rx)
    case Garbage => GarbageStep(rx)
    case Version => PacketStep(c, rx)
    case App => PacketStep(c, rx)
    case V1 => Blocked
  }

  /** One differing byte already proves v2; all sixteen matching is v1. */
  function ProbeStep(cfg: Config, rx: Rx): StepResult {
    var n := if |rx.recv| < V1_PREFIX_LEN then |rx.recv| else V1_PREFIX_LEN;
    if rx.recv[..n] != V1Prefix(cfg.magic)[..n] then Next(rx.(phase := AwaitKey), Some(SawV2))
    else if n == V1_PREFIX_LEN then Next(rx.(phase := V1), None)
    else Blocked
  }

  function KeyStep(c: Crypto, cfg: Config, rx: Rx): StepResult {
    if |rx.recv| < KEY_LEN then Blocked
    else
      var theirs := rx.recv[..KEY_LEN];
      match Init(c, cfg.seckey, cfg.ours, theirs, cfg.magic, cfg.initiator, false)
      case None => Broken
      case Some(cipher) =>
        Next(rx.(phase := Garbage, recv := rx.recv[KEY_LEN..], ears := Some(cipher.recv)), Some(GotKey(theirs)))
  }

  /** Waiting for the terminator: once it is found, what came before it is kept as the authenticated data of the next packet. */
  function GarbageStep(rx: Rx): StepResult {
    if rx.ears.None? then Broken
    else
      var term := rx.ears.value.term;
      match FindTerm(rx.recv, term, 0)
      case Some(i) => Next(rx.(phase := Version, garbage := rx.recv[..i], recv := rx.recv[i + |term|..]), None)
      case None => if |rx.recv| > MAX_GARBAGE_LEN + |term| then Broken else Blocked
  }

  /** The length, or the rest, of the packet in flight. */
  function PacketStep(c: Crypto, rx: Rx): StepResult {
    if rx.ears.None? then Broken
    else if rx.msg.Some? then Blocked
    else if rx.pending.None? then
      if |rx.recv| < LENGTH_LEN then Blocked
      else
        var (h, n) := DecryptLength(c, rx.ears.value, rx.recv[..LENGTH_LEN]);
        if n > MAX_MESSAGE_LEN then Broken
        else Next(rx.(recv := rx.recv[LENGTH_LEN..], ears := Some(h), pending := Some(n)), None)
    else BodyStep(c, rx, rx.ears.value, rx.pending.value)
  }

  function BodyStep(c: Crypto, rx: Rx, ears: Half, pending: nat): StepResult {
    var rest := pending + HEADER_LEN + AEAD_EXPANSION;
    if |rx.recv| < rest then Blocked
    else
      var aad := if rx.phase == Version then rx.garbage else [];
      var (h, body) := DecryptBody(c, ears, rx.recv[..rest], aad);
      match body
      case None => Broken
      case Some((ignore, contents)) =>
        Next(Accept(rx.(recv := rx.recv[rest..], ears := Some(h), pending := None), ignore, contents), None)
  }

  /** An authentic packet: the version packet ends the handshake unless it is a decoy;
      after it, a packet with a readable type is a message to collect. */
  function Accept(rx: Rx, ignore: bool, contents: seq<byte>): Rx {
    if rx.phase == Version then rx.(garbage := [], phase := if ignore then Version else App)
    else if ignore then rx
    else rx.(msg := ParseContents(contents))
  }

  /** Collecting a ready message comes before anything else. */
  function Turn(c: Crypto, cfg: Config, rx: Rx): StepResult {
    if rx.msg.Some? then Next(rx.(msg := None), Some(Deliver(rx.msg.value))) else Step(c, cfg, rx)
  }

  function Measure(rx: Rx): nat {
    2 * |rx.recv| + Ahead(rx.phase) + (if rx.msg.Some? then 1 else 0)
  }

  /** Handshake phases still ahead. */
  function Ahead(p: Phase): nat {
    match p
    case MaybeV1 => 3
    case AwaitKey => 2
    case Garbage => 1
    case _ => 0
  }

  lemma TurnShrinks(c: Crypto, cfg: Config, rx: Rx)
    ensures Turn(c, cfg, rx).Next? ==> Measure(Turn(c, cfg, rx).rx) < Measure(rx)
  {
    hide DecryptBody;
    hide DecryptLength;
    hide Init;
    hide ParseContents;
    hide FindTerm;
  }

  /** What a run yields, and where it stands; `end` is none after a protocol violation. */
  datatype Run = Run(outs: seq<Event>, end: Option<Rx>)

  function Emit(out: Option<Event>): seq<Event> {
    if out.None? then [] else [out.value]
  }

  /** Run until the bytes in hand are used up, collecting every message on the way. */
  function Pump(c: Crypto, cfg: Config, rx: Rx): Run
    decreases Measure(rx)
  {
    TurnShrinks(c, cfg, rx);
    match Turn(c, cfg, rx)
    case Blocked => Run([], Some(rx))
    case Broken => Run([], None)
    case Next(rx', out) =>
      var r := Pump(c, cfg, rx');
      Run(Emit(out) + r.outs, r.end)
  }

  function Append(rx: Rx, data: seq<byte>): Rx {
    rx.(recv := rx.recv + data)
  }

  /** A move made on the bytes in hand is the move made when more bytes follow. */
  lemma TurnStable(c: Crypto, cfg: Config, rx: Rx, data: seq<byte>)
    ensures Turn(c, cfg, rx).Next? ==>
      Turn(c, cfg, Append(rx, data)) == Next(Append(Turn(c, cfg, rx).rx, data), Turn(c, cfg, rx).out)
    ensures Turn(c, cfg, rx).Broken? ==> Turn(c, cfg, Append(rx, data)) == Broken
  {
    hide ProbeStep;
    hide KeyStep;
    hide GarbageStep;
    hide PacketStep;
    if rx.msg.None? {
      match rx.phase {
        case MaybeV1 => ProbeStable(cfg, rx, data);
        case AwaitKey => KeyStable(c, cfg, rx, data);
        case Garbage => GarbageStable(rx, data);
        case Version => PacketStable(c, rx, data);
        case App => PacketStable(c, rx, data);
        case V1 =>
      }
    }
  }

  lemma ProbeStable(cfg: Config, rx: Rx, data: seq<byte>)
    ensures ProbeStep(cfg, rx).Next? ==>
      ProbeStep(cfg, Append(rx, data)) == Next(Append(ProbeStep(cfg, rx).rx, data), ProbeStep(cfg, rx).out)
    ensures !ProbeStep(cfg, rx).Broken?
  {
    var want, all := V1Prefix(cfg.magic), rx.recv + data;
    var n := if |rx.recv| < V1_PREFIX_LEN then |rx.recv| else V1_PREFIX_LEN;
    var m := if |all| < V1_PREFIX_LEN then |all| else V1_PREFIX_LEN;
    hide V1Prefix;
    assert all[..m][..n] == rx.recv[..n] && want[..m][..n] == want[..n];
  }

  lemma DropStable(recv: seq<byte>, data: seq<byte>, n: nat)
    ensures n <= |recv| ==> (recv + data)[..n] == recv[..n] && (recv + data)[n..] == recv[n..] + data
  {
  }

  lemma KeyStable(c: Crypto, cfg: Config, rx: Rx, data: seq<byte>)
    ensures KeyStep(c, cfg, rx).Next? ==>
      KeyStep(c, cfg, Append(rx, data)) == Next(Append(KeyStep(c, cfg, rx).rx, data), KeyStep(c, cfg, rx).out)
    ensures KeyStep(c, cfg, rx).Broken? ==> KeyStep(c, cfg, Append(rx, data)) == Broken
  {
    hide Init;
    DropStable(rx.recv, data, KEY_LEN);
  }

  lemma GarbageStable(rx: Rx, data: seq<byte>)
    ensures GarbageStep(rx).Next? ==>
      GarbageStep(Append(rx, data)) == Next(Append(GarbageStep(rx).rx, data), GarbageStep(rx).out)
    ensures GarbageStep(rx).Broken? ==> GarbageStep(Append(rx, data)) == Broken
  {
    hide FindTerm;
    hide TermAt;
    if rx.ears.Some? { TermStable(rx.recv, rx.ears.value.term, data); }
  }

  lemma TermStable(recv: seq<byte>, term: seq<byte>, data: seq<byte>)
    ensures FindTerm(recv, term, 0).Some? ==>
      var i := FindTerm(recv, term, 0).value;
      && i + |term| <= |recv| && FindTerm(recv + data, term, 0) == Some(i)
      && (recv + data)[..i] == recv[..i] && (recv + data)[i + |term|..] == recv[i + |term|..] + data
    ensures FindTerm(recv, term, 0).None? && |recv| > MAX_GARBAGE_LEN + |term| ==> FindTerm(recv + data, term, 0).None?
  {
    var old_, new_ := FindTerm(recv, term, 0), FindTerm(recv + data, term, 0);
    if old_.Some? {
      TermAtStable(recv, term, data, old_.value);
      FoundSame(recv, term, data);
      DropStable(recv, data, old_.value);
      DropStable(recv, data, old_.value + |term|);
    } else if |recv| > MAX_GARBAGE_LEN + |term| && new_.Some? {
      TermAtStable(recv, term, data, new_.value);
    }
  }

  lemma TermAtStable(recv: seq<byte>, term: seq<byte>, data: seq<byte>, j: nat)
    ensures j + |term| <= |recv| ==> (TermAt(recv + data, term, j) <==> TermAt(recv, term, j))
  {
    if j + |term| <= |recv| { assert (recv + data)[j..j + |term|] == recv[j..j + |term|]; }
  }

  lemma FoundSame(recv: seq<byte>, term: seq<byte>, data: seq<byte>)
    requires FindTerm(recv, term, 0).Some?
    ensures FindTerm(recv + data, term, 0) == FindTerm(recv, term, 0)
  {
    hide FindTerm;
    var i := FindTerm(recv, term, 0).value;
    TermAtStable(recv, term, data, i);
    var r := FindTerm(recv + data, term, 0);
    TermAtStable(recv, term, data, r.value);
  }

  lemma PacketStable(c: Crypto, rx: Rx, data: seq<byte>)
    ensures var t := PacketStep(c, rx);
      && (t.Next? ==> PacketStep(c, Append(rx, data)) == Next(Append(t.rx, data), t.out))
      && (t.Broken? ==> PacketStep(c, Append(rx, data)) == Broken)
  {
    hide DecryptLength;
    hide DecryptBody;
    hide ParseContents;
    DropStable(rx.recv, data, LENGTH_LEN);
    if rx.pending.Some? { DropStable(rx.recv, data, rx.pending.value + HEADER_LEN + AEAD_EXPANSION); }
  }

  lemma One(c: Crypto, cfg: Config, rx: Rx, rx': Rx, out: Option<Event>)
    requires Turn(c, cfg, rx) == Next(rx', out)
    ensures Pump(c, cfg, rx) == Run(Emit(out) + Pump(c, cfg, rx').outs, Pump(c, cfg, rx').end)
  {
  }

  lemma Rest(c: Crypto, cfg: Config, rx: Rx)
    requires Turn(c, cfg, rx) == Blocked
    ensures Pump(c, cfg, rx) == Run([], Some(rx))
  {
  }

  lemma Halt(c: Crypto, cfg: Config, rx: Rx)
    requires Turn(c, cfg, rx) == Broken
    ensures Pump(c, cfg, rx) == Run([], None)
  {
  }

  /** Running on what arrived and then on what arrives next is running on all of it. */
  lemma {:induction false} PumpJoins(c: Crypto, cfg: Config, rx: Rx, data: seq<byte>)
    ensures var r := Pump(c, cfg, rx);
      && (r.end.None? ==> Pump(c, cfg, Append(rx, data)) == r)
      && (r.end.Some? ==>
            var s := Pump(c, cfg, Append(r.end.value, data));
            Pump(c, cfg, Append(rx, data)) == Run(r.outs + s.outs, s.end))
    decreases Measure(rx)
  {
    hide *;
    TurnStable(c, cfg, rx, data);
    TurnShrinks(c, cfg, rx);
    match Turn(c, cfg, rx) {
      case Blocked =>
        Rest(c, cfg, rx);
        var s := Pump(c, cfg, Append(rx, data));
        assert [] + s.outs == s.outs;
      case Broken =>
        Halt(c, cfg, rx);
        Halt(c, cfg, Append(rx, data));
      case Next(rx', out) =>
        One(c, cfg, rx, rx', out);
        One(c, cfg, Append(rx, data), Append(rx', data), out);
        PumpJoins(c, cfg, rx', data);
        var r' := Pump(c, cfg, rx');
        if r'.end.Some? {
          var s := Pump(c, cfg, Append(r'.end.value, data));
          assert Emit(out) + (r'.outs + s.outs) == (Emit(out) + r'.outs) + s.outs;
        }
    }
  }

  function Flatten(pieces: seq<seq<byte>>): seq<byte> {
    if |pieces| == 0 then [] else pieces[0] + Flatten(pieces[1..])
  }

  /** Feed the pieces one after the other, running to the end of each; a violation ends it. */
  function FeedAll(c: Crypto, cfg: Config, rx: Rx, pieces: seq<seq<byte>>): Run
    decreases |pieces|
  {
    if |pieces| == 0 then Run([], Some(rx))
    else
      var r := Pump(c, cfg, Append(rx, pieces[0]));
      if r.end.None? then r
      else
        var rest := FeedAll(c, cfg, r.end.value, pieces[1..]);
        Run(r.outs + rest.outs, rest.end)
  }

  /** Nothing left to do on the bytes in hand. */
  ghost predicate Quiet(c: Crypto, cfg: Config, rx: Rx) {
    Turn(c, cfg, rx).Blocked?
  }

  lemma {:induction false} PumpEndsQuiet(c: Crypto, cfg: Config, rx: Rx)
    ensures Pump(c, cfg, rx).end.Some? ==> Quiet(c, cfg, Pump(c, cfg, rx).end.value)
    decreases Measure(rx)
  {
    hide Turn;
    hide Measure;
    TurnShrinks(c, cfg, rx);
    match Turn(c, cfg, rx) {
      case Blocked =>
      case Broken =>
      case Next(rx', out) => PumpEndsQuiet(c, cfg, rx');
    }
  }

  /** Feeding pieces is feeding their concatenation at once: the messages, the
      handshake events, the v1 or v2 decision, acceptance and the final state all
      depend on the stream alone. */
  lemma {:induction false} CutsDoNotMatter(c: Crypto, cfg: Config, rx: Rx, pieces: seq<seq<byte>>)
    requires Quiet(c, cfg, rx)
    ensures FeedAll(c, cfg, rx, pieces) == Pump(c, cfg, Append(rx, Flatten(pieces)))
    decreases |pieces|
  {
    hide Turn;
    if |pieces| == 0 {
      assert Append(rx, []) == rx by { assert rx.recv + [] == rx.recv; }
    } else {
      var d, rest := pieces[0], Flatten(pieces[1..]);
      PumpJoins(c, cfg, Append(rx, d), rest);
      assert Append(Append(rx, d), rest) == Append(rx, d + rest) by { assert (rx.recv + d) + rest == rx.recv + (d + rest); }
      var r := Pump(c, cfg, Append(rx, d));
      if r.end.Some? {
        PumpEndsQuiet(c, cfg, Append(rx, d));
        CutsDoNotMatter(c, cfg, r.end.value, pieces[1..]);
      }
    }
  }

  /** The receiving side at the start: an initiator waits for a key, a responder for enough to know the version spoken. */
  function StartRx(initiator: bool): Rx {
    Rx(if initiator then AwaitKey else MaybeV1, [], [], None, None, None)
  }

  /** The v1 header: the magic and the name of the version message in twelve bytes. */
  lemma V1Header(magic: seq<byte>)
    requires |magic| == 4
    ensures V1Prefix(magic) == magic + [118, 101, 114, 115, 105, 111, 110, 0, 0, 0, 0, 0]
  {
    assert Ascii("version") == [118, 101, 114, 115, 105, 111, 110] && Zeros(5) == [0, 0, 0, 0, 0];
  }

  /** A machine in a state it can be in: keys from the key exchange on, and a terminator to look for. */
  ghost predicate Keyed(rx: Rx) {
    && (rx.phase == Garbage || rx.phase == Version || rx.phase == App ==> rx.ears.Some?)
    && (rx.phase == Garbage ==> |rx.ears.value.term| == 16)
  }

  /** The violations, and nothing else is one: a key that agrees on no secret; 4111 bytes passed with no terminator begun within
      the first 4095; an announced length over 4,000,000; a packet that does not open. */
  lemma BreaksExactly(c: Crypto, cfg: Config, rx: Rx)
    requires Keyed(rx) && rx.msg.None?
    ensures Turn(c, cfg, rx).Broken? <==>
      || (rx.phase == AwaitKey && |rx.recv| >= 64 && c.ecdh(rx.recv[..64], cfg.ours, cfg.seckey, cfg.initiator).None?)
      || (rx.phase == Garbage && |rx.recv| > 4111 && forall i: nat :: i <= 4095 ==> !TermAt(rx.recv, rx.ears.value.term, i))
      || ((rx.phase == Version || rx.phase == App) && rx.pending.None? && |rx.recv| >= 3 && DecryptLength(c, rx.ears.value, rx.recv[..3]).1 > 4_000_000)
      || ((rx.phase == Version || rx.phase == App) && rx.pending.Some? && |rx.recv| >= rx.pending.value + 17 &&
          Open(c, rx.ears.value.p.key, PacketNonce(rx.ears.value.p), if rx.phase == Version then rx.garbage else [], rx.recv[..rx.pending.value + 17]).None?)
  {
    hide Open, DecryptLength, ParseContents, V1Prefix, FindTerm, Accept, TermAt;
  }

  /** A responder falls back to v1 exactly when the stream opens with the v1 header,
      and then holds every byte received, to be replayed, with no event raised. */
  lemma V1Fallback(c: Crypto, cfg: Config, stream: seq<byte>)
    ensures var r := Pump(c, cfg, Append(StartRx(false), stream));
      && (V1Prefix(cfg.magic) <= stream ==> r == Run([], Some(StartRx(false).(phase := V1, recv := stream))))
      && (r.end.Some? && r.end.value.phase == V1 ==> V1Prefix(cfg.magic) <= stream)
  {
    var rx := Append(StartRx(false), stream);
    var want := V1Prefix(cfg.magic);
    assert rx.recv == stream;
    if want <= stream {
      assert stream[..16] == want[..16];
      assert Turn(c, cfg, rx) == Next(rx.(phase := V1), None);
      assert Turn(c, cfg, rx.(phase := V1)) == Blocked;
    } else {
      match Turn(c, cfg, rx)
      case Blocked =>
      case Next(rx', _) =>
        assert |stream| >= 16 ==> want[..16] == want && stream[..16] != want;
        assert rx'.phase == AwaitKey;
        NeverV1(c, cfg, rx');
    }
  }

  /** Past the probe no run ends in v1. */
  lemma {:induction false} NeverV1(c: Crypto, cfg: Config, rx: Rx)
    requires rx.phase != MaybeV1 && rx.phase != V1
    ensures Pump(c, cfg, rx).end.Some? ==> Pump(c, cfg, rx).end.value.phase != V1
    decreases Measure(rx)
  {
    TurnLeaves(c, cfg, rx);
    TurnShrinks(c, cfg, rx);
    hide Turn;
    hide Measure;
    match Turn(c, cfg, rx) {
      case Blocked =>
      case Broken =>
      case Next(rx', out) => NeverV1(c, cfg, rx');
    }
  }

  lemma TurnLeaves(c: Crypto, cfg: Config, rx: Rx)
    requires rx.phase != MaybeV1 && rx.phase != V1
    ensures Turn(c, cfg, rx).Next? ==> Turn(c, cfg, rx).rx.phase != MaybeV1 && Turn(c, cfg, rx).rx.phase != V1
  {
    hide DecryptBody;
    hide DecryptLength;
    hide Init;
    hide FindTerm;
  }
}
