/** Two honest ends of a BIP324 connection over a wire that delivers bytes in
    order, in pieces of any size and in any interleaving. */
module Bip324Session {
  import opened Bytes
  import opened Bip324Cipher
  import opened Bip324Messages
  import opened Bip324Receiver

  /** The sending side: bytes waiting to go out, the garbage and the contents of the
      decoys until they are spent, and the sending half once the version packet is queued. */
  datatype Tx = Tx(send: seq<byte>, garbage: seq<byte>, lead: seq<seq<byte>>, mouth: Option<Half>)

  /** One end of a connection, with the messages it queued and collected so far. */
  datatype End = End(rx: Rx, tx: Tx, sent: seq<Message>, got: seq<Message>, broken: bool)

  /** An initiator speaks first; a responder stays silent until v1 is ruled out. `lead` is
      what an end that sends decoys sends between its terminator and its version packet. */
  function Start(cfg: Config, garbage: seq<byte>, lead: seq<seq<byte>>): End {
    End(StartRx(cfg.initiator), Tx(if cfg.initiator then cfg.ours + garbage else [], garbage, lead, None), [], [], false)
  }

  /** Decoys one after the other: the first bound to aad, the others to nothing. */
  function Decoys(c: Crypto, h: Half, aad: seq<byte>, lead: seq<seq<byte>>): (Half, seq<byte>)
    decreases |lead|
  {
    if |lead| == 0 then (h, [])
    else
      var (h1, pkt) := EncryptPacket(c, h, lead[0], aad, true);
      var (h2, rest) := Decoys(c, h1, [], lead[1..]);
      (h2, pkt + rest)
  }

  /** What follows the terminator: the decoys, then the version packet. The first of
      these packets is bound to the garbage. */
  function Greeting(c: Crypto, h: Half, garbage: seq<byte>, lead: seq<seq<byte>>): (Half, seq<byte>) {
    var (h1, decoys) := Decoys(c, h, garbage, lead);
    var (h2, version) := EncryptPacket(c, h1, [], if |lead| == 0 then garbage else [], false);
    (h2, decoys + version)
  }

  /** What an event makes the sending side queue. */
  function React(c: Crypto, cfg: Config, tx: Tx, ev: Event): Tx {
    match ev
    case SawV2 => tx.(send := tx.send + cfg.ours + tx.garbage)
    case GotKey(theirs) =>
      (match Init(c, cfg.seckey, cfg.ours, theirs, cfg.magic, cfg.initiator, false)
       case None => tx
       case Some(cipher) =>
         var (h, pkts) := Greeting(c, cipher.send, tx.garbage, tx.lead);
         Tx(tx.send + cipher.send.term + pkts, [], [], Some(h)))
    case Deliver(_) => tx
  }

  /** The end after one move of its receiving side. */
  function Move(c: Crypto, cfg: Config, e: End, rx: Rx, out: Option<Event>): End {
    match out
    case None => e.(rx := rx)
    case Some(Deliver(m)) => e.(rx := rx, got := e.got + [m])
    case Some(ev) => e.(rx := rx, tx := React(c, cfg, e.tx, ev))
  }

  /** Run the receiving side on the bytes in hand, collecting every message. */
  function Settle(c: Crypto, cfg: Config, e: End): End
    decreases Measure(e.rx)
  {
    TurnShrinks(c, cfg, e.rx);
    match Turn(c, cfg, e.rx)
    case Blocked => e
    case Broken => e.(broken := true)
    case Next(rx, out) => Settle(c, cfg, Move(c, cfg, e, rx, out))
  }

  function Receive(c: Crypto, cfg: Config, e: End, data: seq<byte>): End {
    if e.broken then e else Settle(c, cfg, e.(rx := Append(e.rx, data)))
  }

  function More(e: End, data: seq<byte>): End {
    e.(rx := Append(e.rx, data))
  }

  lemma SettleTurns(c: Crypto, cfg: Config, e: End)
    ensures match Turn(c, cfg, e.rx)
      case Blocked => Settle(c, cfg, e) == e
      case Broken => Settle(c, cfg, e) == e.(broken := true)
      case Next(rx, out) => Settle(c, cfg, e) == Settle(c, cfg, Move(c, cfg, e, rx, out)) && Move(c, cfg, e, rx, out).broken == e.broken
  {
    hide Turn, React, Measure;
  }

  lemma MoveMore(c: Crypto, cfg: Config, e: End, rx: Rx, out: Option<Event>, data: seq<byte>)
    ensures Move(c, cfg, More(e, data), Append(rx, data), out) == More(Move(c, cfg, e, rx, out), data)
    ensures Move(c, cfg, e, rx, out).rx == rx
  {
    hide React;
  }

  /** Bytes that come later change nothing of what the earlier ones did. */
  lemma {:induction false} SettleJoins(c: Crypto, cfg: Config, e: End, data: seq<byte>)
    requires !e.broken
    ensures var s := Settle(c, cfg, e);
      Settle(c, cfg, More(e, data)) == if s.broken then More(s, data) else Settle(c, cfg, More(s, data))
    decreases Measure(e.rx)
  {
    hide Turn, Settle, Move, Measure;
    TurnStable(c, cfg, e.rx, data);
    TurnShrinks(c, cfg, e.rx);
    SettleTurns(c, cfg, e);
    SettleTurns(c, cfg, More(e, data));
    if Turn(c, cfg, e.rx).Next? {
      var rx, out := Turn(c, cfg, e.rx).rx, Turn(c, cfg, e.rx).out;
      MoveMore(c, cfg, e, rx, out, data);
      SettleJoins(c, cfg, Move(c, cfg, e, rx, out), data);
    }
  }

  /** Two deliveries are one: in everything while the session stands, and in all but the bytes left lying once it is broken. */
  lemma ReceiveJoins(c: Crypto, cfg: Config, e: End, a: seq<byte>, b: seq<byte>)
    ensures var x := Receive(c, cfg, e, a);
      Receive(c, cfg, e, a + b) == if x.broken && !e.broken then More(Receive(c, cfg, x, b), b) else Receive(c, cfg, x, b)
  {
    hide Settle;
    if !e.broken {
      SettleJoins(c, cfg, More(e, a), b);
      assert More(More(e, a), b) == More(e, a + b) by { assert e.rx.recv + a + b == e.rx.recv + (a + b); }
    }
  }

  /** One delivery after another. */
  function ReceiveAll(c: Crypto, cfg: Config, e: End, pieces: seq<seq<byte>>): End
    decreases |pieces|
  {
    if |pieces| == 0 then e else ReceiveAll(c, cfg, Receive(c, cfg, e, pieces[0]), pieces[1..])
  }

  /** Alike in everything while standing, and in all but the bytes left lying once broken. */
  ghost predicate Alike(x: End, w: End) {
    w == x.(rx := x.rx.(recv := w.rx.recv)) && (!w.broken ==> w == x)
  }

  lemma {:induction false} BrokenStays(c: Crypto, cfg: Config, e: End, pieces: seq<seq<byte>>)
    requires e.broken
    ensures ReceiveAll(c, cfg, e, pieces) == e
    decreases |pieces|
  {
    if |pieces| > 0 { BrokenStays(c, cfg, e, pieces[1..]); }
  }

  /** An end at rest takes a stream alike however it is cut: what it collects, what it queues, whether it breaks. */
  lemma {:induction false} CutsMakeNoDifference(c: Crypto, cfg: Config, e: End, pieces: seq<seq<byte>>)
    requires !e.broken && Quiet(c, cfg, e.rx)
    ensures Alike(ReceiveAll(c, cfg, e, pieces), Receive(c, cfg, e, Flatten(pieces)))
    decreases |pieces|
  {
    hide Turn, Settle;
    if |pieces| == 0 {
      assert e.rx.recv + [] == e.rx.recv;
      SettleTurns(c, cfg, e);
    } else {
      var d, rest := pieces[0], Flatten(pieces[1..]);
      var x := Receive(c, cfg, e, d);
      ReceiveJoins(c, cfg, e, d, rest);
      if x.broken {
        BrokenStays(c, cfg, x, pieces[1..]);
      } else {
        SettleQuiet(c, cfg, More(e, d));
        CutsMakeNoDifference(c, cfg, x, pieces[1..]);
      }
    }
  }

  /** Queue a message: refused before the keys, over the payload limit, or with a
      type of more than twelve bytes. */
  function Send(c: Crypto, e: End, m: Message): (r: (End, bool)) {
    if e.tx.mouth.None? || |m.payload| > MAX_MESSAGE_LEN || Frame(m.kind, m.payload).None? then (e, false)
    else
      var (h, pkt) := EncryptPacket(c, e.tx.mouth.value, Frame(m.kind, m.payload).value, [], false);
      (e.(tx := e.tx.(send := e.tx.send + pkt, mouth := Some(h)), sent := e.sent + [m]), true)
  }

  /** What is queued and what refused: a message goes out exactly after the keys, with at most 4,000,000 bytes of payload and
      twelve of type. */
  lemma SendsExactly(c: Crypto, e: End, m: Message)
    ensures Send(c, e, m).1 <==> e.tx.mouth.Some? && |m.payload| <= 4_000_000 && |m.kind| <= 12
    ensures !Send(c, e, m).1 ==> Send(c, e, m).0 == e
  {
    hide Frame, EncryptPacket;
    FramesExactly(m.kind, m.payload);
  }

  /** Queue a decoy: any contents that fit, once the version packet is out. */
  function Decoy(c: Crypto, e: End, contents: seq<byte>): End {
    if e.tx.mouth.None? || |contents| > MAX_MESSAGE_LEN then e
    else
      var (h, pkt) := EncryptPacket(c, e.tx.mouth.value, contents, [], true);
      e.(tx := e.tx.(send := e.tx.send + pkt, mouth := Some(h)))
  }

  /** A message the other side delivers: its type can be read back, and its packet
      is within what the other side accepts. */
  ghost predicate Good(m: Message) {
    0 !in m.kind && Sendable(m.kind) && (Frame(m.kind, m.payload).Some? ==> |Frame(m.kind, m.payload).value| <= MAX_MESSAGE_LEN)
  }

  datatype Net = Net(a: End, b: End)

  datatype Action = AtoB(n: nat) | BtoA(n: nat) | ASends(m: Message) | BSends(m: Message)
                  | ADecoys(contents: seq<byte>) | BDecoys(contents: seq<byte>)

  function Take(s: seq<byte>, n: nat): nat { if n < |s| then n else |s| }

  function Act(c: Crypto, ca: Config, cb: Config, net: Net, act: Action): Net {
    match act
    case AtoB(n) =>
      var k := Take(net.a.tx.send, n);
      Net(net.a.(tx := net.a.tx.(send := net.a.tx.send[k..])), Receive(c, cb, net.b, net.a.tx.send[..k]))
    case BtoA(n) =>
      var k := Take(net.b.tx.send, n);
      Net(Receive(c, ca, net.a, net.b.tx.send[..k]), net.b.(tx := net.b.tx.(send := net.b.tx.send[k..])))
    case ASends(m) => Net(Send(c, net.a, m).0, net.b)
    case BSends(m) => Net(net.a, Send(c, net.b, m).0)
    case ADecoys(contents) => Net(Decoy(c, net.a, contents), net.b)
    case BDecoys(contents) => Net(net.a, Decoy(c, net.b, contents))
  }

  function Runs(c: Crypto, ca: Config, cb: Config, net: Net, acts: seq<Action>): Net
    decreases |acts|
  {
    if |acts| == 0 then net else Runs(c, ca, cb, Act(c, ca, cb, net, acts[0]), acts[1..])
  }

  function DeliveredBy(e: Event): seq<Message> {
    if e.Deliver? then [e.msg] else []
  }

  function Delivered(outs: seq<Event>): seq<Message> {
    if |outs| == 0 then [] else DeliveredBy(outs[0]) + Delivered(outs[1..])
  }

  /** The half one end sends with and the other receives with, before any packet. */
  ghost function FirstHalf(c: Crypto, from: Config, to: Config): Option<Half> {
    match Init(c, from.seckey, from.ours, to.ours, from.magic, from.initiator, false)
    case None => None
    case Some(cipher) => Some(cipher.send)
  }

  /** Two configurations that can talk, with garbage of the allowed length that
      does not hold its own terminator early, and an opening key that is not the v1 header. */
  ghost predicate Pair(c: Crypto, ca: Config, ga: seq<byte>, cb: Config, gb: seq<byte>) {
    && ca.initiator && !cb.initiator && ca.magic == cb.magic && |ca.ours| == |cb.ours| == 64
    && Agree(c, ca.seckey, ca.ours, cb.seckey, cb.ours)
    && !(V1Prefix(cb.magic) <= ca.ours)
    && Clean(ga, FirstHalf(c, ca, cb)) && Clean(gb, FirstHalf(c, cb, ca))
  }

  ghost predicate Clean(garbage: seq<byte>, h: Option<Half>) {
    && |garbage| <= 4095 && h.Some? && |h.value.term| == 16
    && forall i: nat :: i < |garbage| ==> !TermAt(garbage + h.value.term, h.value.term, i)
  }

  /** y's receiving side, once it has everything x has queued: in step with x's mouth. */
  ghost predicate InStep(f: Rx, x: End, gx: seq<byte>, h0: Half) {
    match x.tx.mouth
    case None => f == Rx(Garbage, gx, [], Some(h0), None, None)
    case Some(h) => f == Rx(App, [], [], Some(h), None, None)
  }

  ghost predicate OnlyKey(outs: seq<Event>, key: seq<byte>) {
    forall i: nat :: i < |outs| && outs[i].GotKey? ==> outs[i].theirs == key
  }

  /** The direction from x to y: the bytes y holds and those still on the way make y
      deliver exactly what x sent and y has not delivered yet. */
  ghost predicate Direction(c: Crypto, cx: Config, gx: seq<byte>, x: End, cy: Config, y: End) {
    && !y.broken && FirstHalf(c, cx, cy).Some? && Staged(gx, x)
    && (x.rx.phase == MaybeV1 ==> y.rx == StartRx(true) && x.sent == y.got == [])
    && (x.rx.phase != MaybeV1 ==> Future(c, cx, gx, x, cy, y))
  }

  /** How far x's own handshake has come decides what it has queued. */
  ghost predicate Staged(gx: seq<byte>, x: End) {
    && (x.rx.phase == MaybeV1 ==> x.tx.send == [])
    && (x.rx.phase == MaybeV1 || x.rx.phase == AwaitKey <==> x.tx.mouth.None?)
    && (x.tx.mouth.None? ==> x.tx.garbage == gx && Short(x.tx.lead))
  }

  /** Contents no longer than a packet's may be. */
  ghost predicate Short(lead: seq<seq<byte>>) {
    forall i: nat :: i < |lead| ==> |lead[i]| <= MAX_MESSAGE_LEN
  }

  ghost predicate Future(c: Crypto, cx: Config, gx: seq<byte>, x: End, cy: Config, y: End)
    requires FirstHalf(c, cx, cy).Some?
  {
    var r := Pump(c, cy, Append(y.rx, x.tx.send));
    && r.end.Some? && InStep(r.end.value, x, gx, FirstHalf(c, cx, cy).value)
    && OnlyKey(r.outs, cx.ours) && y.got + Delivered(r.outs) == x.sent
  }

  /** What the two ends' configurations have to agree on, seen from either end. */
  ghost predicate Match(c: Crypto, cx: Config, gx: seq<byte>, cy: Config, gy: seq<byte>) {
    && |cx.ours| == |cy.ours| == KEY_LEN && cx.initiator != cy.initiator
    && Clean(gx, FirstHalf(c, cx, cy)) && Clean(gy, FirstHalf(c, cy, cx))
    && Listens(c, cx, cy) && Listens(c, cy, cx)
    && (!cy.initiator ==> !(V1Prefix(cy.magic) <= cx.ours)) && (!cx.initiator ==> !(V1Prefix(cx.magic) <= cy.ours))
  }

  /** y derives from x's key the half that x sends with. */
  ghost predicate Listens(c: Crypto, cx: Config, cy: Config) {
    var i := Init(c, cy.seckey, cy.ours, cx.ours, cy.magic, cy.initiator, false);
    i.Some? && FirstHalf(c, cx, cy).Some? && i.value.recv == FirstHalf(c, cx, cy).value
  }

  lemma PairMatches(c: Crypto, ca: Config, ga: seq<byte>, cb: Config, gb: seq<byte>)
    requires Pair(c, ca, ga, cb, gb)
    ensures Match(c, ca, ga, cb, gb)
  {
    InitInStep(c, ca.seckey, ca.ours, cb.seckey, cb.ours, ca.magic);
  }

  // ---- what the receiving side makes of the three things a sender queues ----

  /** A key and garbage leave a fresh receiver waiting for the terminator. */
  lemma Opening(c: Crypto, cx: Config, gx: seq<byte>, cy: Config, gy: seq<byte>)
    requires Match(c, cx, gx, cy, gy)
    ensures var r := Pump(c, cy, Append(StartRx(cy.initiator), cx.ours + gx));
      && r.end == Some(Rx(Garbage, gx, [], FirstHalf(c, cx, cy), None, None))
      && OnlyKey(r.outs, cx.ours) && Delivered(r.outs) == []
  {
    var s := cx.ours + gx;
    var rx := Rx(AwaitKey, s, [], None, None, None);
    var f := Rx(Garbage, gx, [], FirstHalf(c, cx, cy), None, None);
    MatchFacts(c, cx, gx, cy, gy);
    hide Pump;
    hide Turn;
    hide Clean;
    hide Listens;
    hide OnlyKey, Delivered;
    KeyTurn(c, cx, gx, cy);
    One(c, cy, rx, f, Some(GotKey(cx.ours)));
    WaitTurn(c, cy, gx, FirstHalf(c, cx, cy).value);
    Rest(c, cy, f);
    assert Pump(c, cy, rx).outs == [GotKey(cx.ours)];
    if cy.initiator {
      assert Append(StartRx(true), s) == rx;
    } else {
      var p := Append(StartRx(false), s);
      assert p == Rx(MaybeV1, s, [], None, None, None);
      ProbeTurn(c, cx, gx, cy);
      One(c, cy, p, rx, Some(SawV2));
      assert Pump(c, cy, p).outs == [SawV2, GotKey(cx.ours)];
    }
    KeyEvents(cx.ours);
  }

  /** What a key on its own, or after the version is known, comes to. */
  lemma KeyEvents(key: seq<byte>)
    ensures OnlyKey([GotKey(key)], key) && Delivered([GotKey(key)]) == []
    ensures OnlyKey([SawV2, GotKey(key)], key) && Delivered([SawV2, GotKey(key)]) == []
  {
    assert [SawV2, GotKey(key)][1..] == [GotKey(key)] && [GotKey(key)][1..] == [];
  }

  lemma MatchFacts(c: Crypto, cx: Config, gx: seq<byte>, cy: Config, gy: seq<byte>)
    requires Match(c, cx, gx, cy, gy)
    ensures |cx.ours| == KEY_LEN && Listens(c, cx, cy) && FirstHalf(c, cx, cy).Some? && Clean(gx, FirstHalf(c, cx, cy))
    ensures !cy.initiator ==> !(V1Prefix(cy.magic) <= cx.ours)
  {
  }

  lemma ProbeTurn(c: Crypto, cx: Config, gx: seq<byte>, cy: Config)
    requires |cx.ours| == KEY_LEN && !(V1Prefix(cy.magic) <= cx.ours)
    ensures Turn(c, cy, Rx(MaybeV1, cx.ours + gx, [], None, None, None)) ==
      Next(Rx(AwaitKey, cx.ours + gx, [], None, None, None), Some(SawV2))
  {
    var want := V1Prefix(cy.magic);
    hide V1Prefix;
    assert (cx.ours + gx)[..16] == cx.ours[..16] && want[..16] == want;
  }

  lemma KeyTurn(c: Crypto, cx: Config, gx: seq<byte>, cy: Config)
    requires |cx.ours| == KEY_LEN && Listens(c, cx, cy)
    ensures Turn(c, cy, Rx(AwaitKey, cx.ours + gx, [], None, None, None)) ==
      Next(Rx(Garbage, gx, [], FirstHalf(c, cx, cy), None, None), Some(GotKey(cx.ours)))
  {
    hide Init;
    assert (cx.ours + gx)[..KEY_LEN] == cx.ours && (cx.ours + gx)[KEY_LEN..] == gx;
  }

  lemma WaitTurn(c: Crypto, cy: Config, gx: seq<byte>, h: Half)
    requires Clean(gx, Some(h))
    ensures Turn(c, cy, Rx(Garbage, gx, [], Some(h), None, None)) == Blocked
  {
    var r := FindTerm(gx, h.term, 0);
    if r.Some? { TermAtStable(gx, h.term, h.term, r.value); }
  }

  /** The terminator and the version packet, with any decoys before it, take a waiting receiver to the application phase. */
  lemma Terminating(c: Crypto, cy: Config, gx: seq<byte>, lead: seq<seq<byte>>, h0: Half)
    requires Clean(gx, Some(h0)) && Short(lead)
    ensures var (h, pkts) := Greeting(c, h0, gx, lead);
      Pump(c, cy, Append(Rx(Garbage, gx, [], Some(h0), None, None), h0.term + pkts)) ==
        Run([], Some(Rx(App, [], [], Some(h), None, None)))
  {
    hide *;
    var (h, pkts) := Greeting(c, h0, gx, lead);
    var rx0 := Append(Rx(Garbage, gx, [], Some(h0), None, None), h0.term + pkts);
    var rx1 := Rx(Version, pkts, gx, Some(h0), None, None);
    TermTurn(c, cy, gx, h0, pkts);
    Greets(c, cy, gx, lead, h0);
    One(c, cy, rx0, rx1, None);
    EmitNone();
    assert [] + Pump(c, cy, rx1).outs == Pump(c, cy, rx1).outs;
  }

  /** Any number of decoys leave a receiver waiting for the version packet where it
      is: nothing is handed out, and only the garbage is spent, by the first. */
  lemma {:induction false} DecoysWait(c: Crypto, cy: Config, aad: seq<byte>, lead: seq<seq<byte>>, h0: Half)
    requires Short(lead)
    ensures var (h, pkts) := Decoys(c, h0, aad, lead);
      Pump(c, cy, Rx(Version, pkts, aad, Some(h0), None, None)) ==
        Run([], Some(Rx(Version, [], if |lead| == 0 then aad else [], Some(h), None, None)))
    decreases |lead|
  {
    hide EncryptPacket, Pump, Turn, Emit;
    if |lead| == 0 {
      VersionRests(c, cy, aad, h0);
    } else {
      var (h1, pkt) := EncryptPacket(c, h0, lead[0], aad, true);
      var (h, rest) := Decoys(c, h1, [], lead[1..]);
      OnePacket(c, cy, Version, aad, h0, lead[0], true);
      DecoysWait(c, cy, [], lead[1..], h1);
      var mid := Rx(Version, [], [], Some(h1), None, None);
      VersionRests(c, cy, [], h1);
      assert Append(Rx(Version, [], aad, Some(h0), None, None), pkt) == Rx(Version, pkt, aad, Some(h0), None, None) by { assert [] + pkt == pkt; }
      assert Append(mid, rest) == Rx(Version, rest, [], Some(h1), None, None) by { assert [] + rest == rest; }
      assert Append(Rx(Version, [], aad, Some(h0), None, None), pkt + rest) == Rx(Version, pkt + rest, aad, Some(h0), None, None) by { assert [] + (pkt + rest) == pkt + rest; }
      QueueMore(c, cy, Rx(Version, [], aad, Some(h0), None, None), pkt, rest);
    }
  }

  lemma VersionRests(c: Crypto, cy: Config, aad: seq<byte>, h: Half)
    ensures Pump(c, cy, Rx(Version, [], aad, Some(h), None, None)) == Run([], Some(Rx(Version, [], aad, Some(h), None, None)))
  {
    Rest(c, cy, Rx(Version, [], aad, Some(h), None, None));
  }

  /** Decoys and all, the greeting ends the handshake with the version packet. */
  lemma Greets(c: Crypto, cy: Config, gx: seq<byte>, lead: seq<seq<byte>>, h0: Half)
    requires Short(lead)
    ensures var (h, pkts) := Greeting(c, h0, gx, lead);
      Pump(c, cy, Rx(Version, pkts, gx, Some(h0), None, None)) == Run([], Some(Rx(App, [], [], Some(h), None, None)))
  {
    hide EncryptPacket, Pump, Decoys;
    var (h1, decoys) := Decoys(c, h0, gx, lead);
    var aad := if |lead| == 0 then gx else [];
    var (h, version) := EncryptPacket(c, h1, [], aad, false);
    DecoysWait(c, cy, gx, lead, h0);
    OnePacket(c, cy, Version, aad, h1, [], false);
    AppRests(c, cy, h);
    var start, mid := Rx(Version, [], gx, Some(h0), None, None), Rx(Version, [], aad, Some(h1), None, None);
    assert Append(start, decoys) == Rx(Version, decoys, gx, Some(h0), None, None) by { assert [] + decoys == decoys; }
    assert Append(mid, version) == Rx(Version, version, aad, Some(h1), None, None) by { assert [] + version == version; }
    assert Append(start, decoys + version) == Rx(Version, decoys + version, gx, Some(h0), None, None) by {
      assert [] + (decoys + version) == decoys + version;
    }
    QueueMore(c, cy, start, decoys, version);
  }

  lemma EmitNone()
    ensures Emit(None) == [] && LENGTH_LEN == 3 && HEADER_LEN == 1 && AEAD_EXPANSION == 16 && 0 < MAX_MESSAGE_LEN
  {
  }

  lemma AppRests(c: Crypto, cy: Config, h: Half)
    ensures Pump(c, cy, Rx(App, [], [], Some(h), None, None)) == Run([], Some(Rx(App, [], [], Some(h), None, None)))
  {
    Rest(c, cy, Rx(App, [], [], Some(h), None, None));
  }

  lemma TermTurn(c: Crypto, cy: Config, gx: seq<byte>, h0: Half, pkt: seq<byte>)
    requires Clean(gx, Some(h0))
    ensures Turn(c, cy, Append(Rx(Garbage, gx, [], Some(h0), None, None), h0.term + pkt)) ==
      Next(Rx(Version, pkt, gx, Some(h0), None, None), None)
  {
    var s, term := gx + (h0.term + pkt), h0.term;
    assert s == (gx + term) + pkt;
    assert (gx + term)[|gx|..] == term;
    assert TermAt(gx + term, term, |gx|);
    TermAtStable(gx + term, term, pkt, |gx|);
    var r := FindTerm(s, term, 0);
    assert r.Some? && r.value <= |gx|;
    TermAtStable(gx + term, term, pkt, r.value);
    assert r.value == |gx|;
    assert s[..|gx|] == gx && s[|gx| + |term|..] == pkt;
  }

  /** Where a packet leaves a receiver that has read nothing else. */
  ghost function Past(phase: Phase, gx: seq<byte>, h: Half, contents: seq<byte>, ignore: bool): Rx {
    if phase == Version then Rx(if ignore then Version else App, [], [], Some(h), None, None)
    else Rx(App, [], gx, Some(h), None, if ignore then None else ParseContents(contents))
  }

  lemma PastApp(h: Half, contents: seq<byte>)
    ensures Past(App, [], h, contents, false) == Rx(App, [], [], Some(h), None, ParseContents(contents))
  {
  }

  /** The two moves that read one packet. */
  lemma PacketTurns(c: Crypto, cy: Config, phase: Phase, gx: seq<byte>, h0: Half, contents: seq<byte>, ignore: bool)
    requires phase == Version || phase == App
    requires |contents| <= MAX_MESSAGE_LEN
    ensures var aad := if phase == Version then gx else [];
      var (h, pkt) := EncryptPacket(c, h0, contents, aad, ignore);
      var mid := Rx(phase, pkt[LENGTH_LEN..], gx, Some(DecryptLength(c, h0, pkt[..LENGTH_LEN]).0), Some(|contents|), None);
      && Turn(c, cy, Rx(phase, pkt, gx, Some(h0), None, None)) == Next(mid, None)
      && Turn(c, cy, mid) == Next(Past(phase, gx, h, contents, ignore), None)
  {
    var aad := if phase == Version then gx else [];
    PacketRoundTrip(c, h0, contents, aad, ignore);
    var (h, pkt) := EncryptPacket(c, h0, contents, aad, ignore);
    hide EncryptPacket;
    hide DecryptBody;
    hide DecryptLength;
    hide ParseContents;
    var body := pkt[LENGTH_LEN..];
    assert |body| == |contents| + HEADER_LEN + AEAD_EXPANSION;
    assert body[..|body|] == body && body[|body|..] == [];
  }

  /** A packet with nothing to hand out only moves the receiver on. */
  lemma OnePacket(c: Crypto, cy: Config, phase: Phase, gx: seq<byte>, h0: Half, contents: seq<byte>, ignore: bool)
    requires phase == Version || phase == App
    requires |contents| <= MAX_MESSAGE_LEN && (phase == Version || ignore || ParseContents(contents) == None)
    ensures var (h, pkt) := EncryptPacket(c, h0, contents, if phase == Version then gx else [], ignore);
      Pump(c, cy, Rx(phase, pkt, gx, Some(h0), None, None)) == Run([], Some(Past(phase, gx, h, contents, ignore)))
  {
    PastRests(c, cy, phase, gx, EncryptPacket(c, h0, contents, if phase == Version then gx else [], ignore).0, contents, ignore);
    hide *;
    EmitNone();
    var (h, pkt) := EncryptPacket(c, h0, contents, if phase == Version then gx else [], ignore);
    PacketTurns(c, cy, phase, gx, h0, contents, ignore);
    var mid := Rx(phase, pkt[LENGTH_LEN..], gx, Some(DecryptLength(c, h0, pkt[..LENGTH_LEN]).0), Some(|contents|), None);
    One(c, cy, Rx(phase, pkt, gx, Some(h0), None, None), mid, None);
    One(c, cy, mid, Past(phase, gx, h, contents, ignore), None);
    var none: seq<Event> := [];
    assert none + (none + none) == none;
  }

  lemma PastRests(c: Crypto, cy: Config, phase: Phase, gx: seq<byte>, h: Half, contents: seq<byte>, ignore: bool)
    requires phase == Version || ignore || ParseContents(contents) == None
    ensures var rx := Past(phase, gx, h, contents, ignore); Pump(c, cy, rx) == Run([], Some(rx))
  {
    hide ParseContents;
    Rest(c, cy, Past(phase, gx, h, contents, ignore));
  }

  /** A decoy is nothing to a receiver past the handshake but a step of its cipher. */
  lemma DecoyDropped(c: Crypto, cy: Config, h0: Half, contents: seq<byte>)
    requires |contents| <= MAX_MESSAGE_LEN
    ensures var (h, pkt) := EncryptPacket(c, h0, contents, [], true);
      Pump(c, cy, Append(Rx(App, [], [], Some(h0), None, None), pkt)) == Run([], Some(Rx(App, [], [], Some(h), None, None)))
  {
    hide Pump, EncryptPacket;
    OnePacket(c, cy, App, [], h0, contents, true);
    AppendEmpty(h0, EncryptPacket(c, h0, contents, [], true).1);
  }

  /** The bytes in hand begin with this plaintext, of the announced length, sealed over the garbage as the next packet. */
  ghost predicate SealedNext(c: Crypto, rx: Rx, plain: seq<byte>)
    requires rx.ears.Some? && rx.pending.Some?
  {
    && |plain| == HEADER_LEN + rx.pending.value
    && Seal(c, rx.ears.value.p.key, PacketNonce(rx.ears.value.p), rx.garbage, plain) <= rx.recv
  }

  /** The application phase is entered only on a packet, authentic under the keys in
      hand, whose header does not mark it as a decoy. */
  lemma OnlyTheRealOneOpens(c: Crypto, cfg: Config, rx: Rx)
    requires Turn(c, cfg, rx).Next? && Turn(c, cfg, rx).rx.phase == App && rx.phase != App
    ensures rx.phase == Version && rx.ears.Some? && rx.pending.Some?
    ensures exists header: byte, contents: seq<byte> :: header < 0x80 && SealedNext(c, rx, [header] + contents)
  {
    hide DecryptLength, Init, FindTerm, ParseContents, Seal, Open;
    assert rx.phase == Version && rx.ears.Some? && rx.pending.Some?;
    var h, n := rx.ears.value.p, rx.pending.value + HEADER_LEN + AEAD_EXPANSION;
    var sealed := rx.recv[..n];
    var plain := Open(c, h.key, PacketNonce(h), rx.garbage, sealed).value;
    OpenExactly(c, h.key, PacketNonce(h), rx.garbage, sealed, plain);
    assert [plain[0]] + plain[1..] == plain && SealedNext(c, rx, plain);
  }

  /** A good message's packet is delivered as that message and leaves the receiver in step. */
  lemma Sending(c: Crypto, cy: Config, h0: Half, m: Message)
    requires Good(m) && Frame(m.kind, m.payload).Some?
    ensures var (h, pkt) := EncryptPacket(c, h0, Frame(m.kind, m.payload).value, [], false);
      Pump(c, cy, Append(Rx(App, [], [], Some(h0), None, None), pkt)) ==
        Run([Deliver(m)], Some(Rx(App, [], [], Some(h), None, None)))
  {
    var contents := Frame(m.kind, m.payload).value;
    var (h, pkt) := EncryptPacket(c, h0, contents, [], false);
    PastApp(h, contents);
    hide *;
    EmitNone();
    GoodFrame(m);
    PacketTurns(c, cy, App, [], h0, contents, false);
    var mid := Rx(App, pkt[LENGTH_LEN..], [], Some(DecryptLength(c, h0, pkt[..LENGTH_LEN]).0), Some(|contents|), None);
    var ready := Rx(App, [], [], Some(h), None, Some(m));
    var done := Rx(App, [], [], Some(h), None, None);
    AppendEmpty(h0, pkt);
    One(c, cy, Rx(App, pkt, [], Some(h0), None, None), mid, None);
    One(c, cy, mid, ready, None);
    Collect(c, cy, ready);
    One(c, cy, ready, done, Some(Deliver(m)));
    AppRests(c, cy, h);
    EmitNone();
    EmitSome(Deliver(m));
    assert [] + ([] + ([Deliver(m)] + [])) == [Deliver(m)];
  }

  lemma GoodFrame(m: Message)
    requires Good(m) && Frame(m.kind, m.payload).Some?
    ensures var s := Frame(m.kind, m.payload).value; |s| <= MAX_MESSAGE_LEN && ParseContents(s) == Some(m)
  {
    FrameRoundTrip(m.kind, m.payload);
  }

  lemma AppendEmpty(h0: Half, pkt: seq<byte>)
    ensures Append(Rx(App, [], [], Some(h0), None, None), pkt) == Rx(App, pkt, [], Some(h0), None, None)
  {
    assert [] + pkt == pkt;
  }

  lemma Collect(c: Crypto, cy: Config, rx: Rx)
    requires rx.msg.Some?
    ensures Turn(c, cy, rx) == Next(rx.(msg := None), Some(Deliver(rx.msg.value)))
  {
  }

  lemma EmitSome(e: Event)
    ensures Emit(Some(e)) == [e]
  {
  }

  // ---- every move and every action keeps both directions ----

  ghost predicate Both(c: Crypto, cx: Config, gx: seq<byte>, x: End, cy: Config, gy: seq<byte>, y: End) {
    && Match(c, cx, gx, cy, gy)
    && Direction(c, cx, gx, x, cy, y) && Direction(c, cy, gy, y, cx, x)
    && (x.rx.phase == MaybeV1 ==> !cx.initiator) && (y.rx.phase == MaybeV1 ==> !cy.initiator)
    && x.rx.phase != V1 && y.rx.phase != V1
  }

  lemma {:induction false} DeliveredJoin(a: seq<Event>, b: seq<Event>)
    ensures Delivered(a + b) == Delivered(a) + Delivered(b)
  {
    hide DeliveredBy;
    if |a| == 0 {
      assert a + b == b;
    } else {
      assert (a + b)[1..] == a[1..] + b;
      DeliveredJoin(a[1..], b);
      Assoc(DeliveredBy(a[0]), Delivered(a[1..]), Delivered(b));
    }
  }

  lemma Assoc<T>(a: seq<T>, b: seq<T>, c: seq<T>)
    ensures a + (b + c) == (a + b) + c
  {
  }

  /** The direction into the end that moves: the move only uses up what was foreseen. */
  lemma InboundKept(c: Crypto, cx: Config, gx: seq<byte>, x: End, cy: Config, y: End, rx: Rx, out: Option<Event>)
    requires Direction(c, cx, gx, x, cy, y) && Turn(c, cy, y.rx) == Next(rx, out)
    ensures Direction(c, cx, gx, x, cy, Move(c, cy, y, rx, out))
    ensures out.Some? && out.value.GotKey? ==> out.value.theirs == cx.ours
    ensures x.rx.phase != MaybeV1 && rx.phase != V1
  {
    NotSilent(c, cx, gx, x, cy, y);
    hide Turn;
    hide Move;
    hide Staged;
    MoveParts(c, cy, y, rx, out);
    FutureKept(c, cx, gx, x, cy, y, Move(c, cy, y, rx, out), rx, out);
  }

  lemma MoveParts(c: Crypto, cy: Config, y: End, rx: Rx, out: Option<Event>)
    ensures var y' := Move(c, cy, y, rx, out);
      && y'.rx == rx && y'.broken == y.broken && y'.sent == y.sent
      && y'.got == y.got + if out.None? then [] else DeliveredBy(out.value)
  {
  }

  lemma FutureKept(c: Crypto, cx: Config, gx: seq<byte>, x: End, cy: Config, y: End, y': End, rx: Rx, out: Option<Event>)
    requires FirstHalf(c, cx, cy).Some? && Future(c, cx, gx, x, cy, y) && Turn(c, cy, y.rx) == Next(rx, out)
    requires y'.rx == rx && y'.got == y.got + if out.None? then [] else DeliveredBy(out.value)
    ensures Future(c, cx, gx, x, cy, y') && rx.phase != V1
    ensures out.Some? && out.value.GotKey? ==> out.value.theirs == cx.ours
  {
    hide Turn;
    hide Pump;
    hide Delivered;
    hide OnlyKey;
    hide FirstHalf;
    FutureShifts(c, cy, y.rx, x.tx.send, rx, out);
    var r' := Pump(c, cy, Append(rx, x.tx.send));
    if rx.phase == V1 { V1Rests(c, cy, Append(rx, x.tx.send)); }
    DeliveredJoin(Emit(out), r'.outs);
    OnlyKeySplit(Emit(out), r'.outs, cx.ours);
    EmitEvent(out, cx.ours);
    Assoc(y.got, Delivered(Emit(out)), Delivered(r'.outs));
  }

  lemma FutureShifts(c: Crypto, cy: Config, rx0: Rx, send: seq<byte>, rx: Rx, out: Option<Event>)
    requires Turn(c, cy, rx0) == Next(rx, out)
    ensures var r' := Pump(c, cy, Append(rx, send));
      Pump(c, cy, Append(rx0, send)) == Run(Emit(out) + r'.outs, r'.end)
  {
    hide Turn;
    hide Pump;
    TurnStable(c, cy, rx0, send);
    One(c, cy, Append(rx0, send), Append(rx, send), out);
  }

  lemma EmitEvent(out: Option<Event>, key: seq<byte>)
    requires OnlyKey(Emit(out), key)
    ensures out.None? ==> Delivered(Emit(out)) == []
    ensures out.Some? ==> Delivered(Emit(out)) == DeliveredBy(out.value)
    ensures out.Some? && out.value.GotKey? ==> out.value.theirs == key
  {
    if out.Some? {
      assert Emit(out)[0] == out.value && Emit(out)[1..] == [];
    }
  }

  lemma OnlyKeySplit(a: seq<Event>, b: seq<Event>, key: seq<byte>)
    requires OnlyKey(a + b, key)
    ensures OnlyKey(a, key) && OnlyKey(b, key)
  {
    forall i: nat | i < |b|
      ensures b[i].GotKey? ==> b[i].theirs == key
    {
      assert (a + b)[|a| + i] == b[i];
    }
    forall i: nat | i < |a|
      ensures a[i].GotKey? ==> a[i].theirs == key
    {
      assert (a + b)[i] == a[i];
    }
  }

  lemma V1Rests(c: Crypto, cy: Config, rx: Rx)
    requires rx.phase == V1
    ensures Pump(c, cy, rx).end.Some? ==> Pump(c, cy, rx).end.value.phase == V1
  {
    if rx.msg.Some? {
      var rx' := rx.(msg := None);
      One(c, cy, rx, rx', Some(Deliver(rx.msg.value)));
      Rest(c, cy, rx');
    } else {
      Rest(c, cy, rx);
    }
  }

  /** While x is silent there is nothing for y to move on. */
  lemma NotSilent(c: Crypto, cx: Config, gx: seq<byte>, x: End, cy: Config, y: End)
    requires Direction(c, cx, gx, x, cy, y) && Turn(c, cy, y.rx).Next?
    ensures x.rx.phase != MaybeV1
  {
  }

  lemma NeverBroken(c: Crypto, cx: Config, gx: seq<byte>, x: End, cy: Config, y: End)
    requires Direction(c, cx, gx, x, cy, y)
    ensures !Turn(c, cy, y.rx).Broken?
  {
    if x.rx.phase != MaybeV1 { TurnStable(c, cy, y.rx, x.tx.send); }
  }

  /** The direction out of the end that moves: an event queues what takes the other
      side's future one stage further. */
  lemma OutboundKept(c: Crypto, cx: Config, gx: seq<byte>, x: End, cy: Config, gy: seq<byte>, y: End, rx: Rx, out: Option<Event>)
    requires Both(c, cx, gx, x, cy, gy, y) && Turn(c, cy, y.rx) == Next(rx, out) && rx.phase != V1
    requires out.Some? && out.value.GotKey? ==> out.value.theirs == cx.ours
    ensures Direction(c, cy, gy, Move(c, cy, y, rx, out), cx, x)
  {
    MovePhase(c, cy, y.rx);
    hide Turn;
    if out.Some? && out.value.SawV2? {
      OutboundOpens(c, cx, gx, x, cy, gy, y, rx);
    } else if out.Some? && out.value.GotKey? {
      OutboundKeys(c, cx, gx, x, cy, gy, y, rx);
    }
  }

  /** Which moves raise which events. */
  lemma MovePhase(c: Crypto, cy: Config, rx: Rx)
    ensures var t := Turn(c, cy, rx);
      t.Next? && t.rx.phase != V1 ==>
        && (t.out.Some? && t.out.value.SawV2? <==> rx.phase == MaybeV1 && t.rx.phase == AwaitKey)
        && (t.out.Some? && t.out.value.GotKey? <==> rx.phase == AwaitKey && t.rx.phase == Garbage)
        && (rx.phase == MaybeV1 ==> t.rx.phase == AwaitKey || t.rx.phase == MaybeV1)
        && (rx.phase == AwaitKey ==> t.rx.phase == Garbage || t.rx.phase == AwaitKey)
        && (Ahead(rx.phase) <= 1 ==> Ahead(t.rx.phase) <= 1)
        && (t.rx.phase == MaybeV1 ==> rx.phase == MaybeV1)
  {
    hide DecryptBody;
    hide DecryptLength;
    hide Init;
    hide FindTerm;
    hide ParseContents;
  }

  lemma OutboundOpens(c: Crypto, cx: Config, gx: seq<byte>, x: End, cy: Config, gy: seq<byte>, y: End, rx: Rx)
    requires Both(c, cx, gx, x, cy, gy, y) && y.rx.phase == MaybeV1 && rx.phase == AwaitKey
    ensures Direction(c, cy, gy, Move(c, cy, y, rx, Some(SawV2)), cx, x)
  {
    var y' := Move(c, cy, y, rx, Some(SawV2));
    assert cx.initiator;
    MatchSwaps(c, cx, gx, cy, gy);
    Opening(c, cy, gy, cx, gx);
    hide Pump;
    hide Turn;
    hide Match;
    assert y'.tx.send == cy.ours + gy;
  }

  lemma MatchSwaps(c: Crypto, cx: Config, gx: seq<byte>, cy: Config, gy: seq<byte>)
    requires Match(c, cx, gx, cy, gy)
    ensures Match(c, cy, gy, cx, gx)
  {
  }

  lemma OutboundKeys(c: Crypto, cx: Config, gx: seq<byte>, x: End, cy: Config, gy: seq<byte>, y: End, rx: Rx)
    requires Both(c, cx, gx, x, cy, gy, y) && y.rx.phase == AwaitKey && rx.phase == Garbage
    ensures Direction(c, cy, gy, Move(c, cy, y, rx, Some(GotKey(cx.ours))), cx, x)
  {
    hide Pump;
    hide Greeting;
    hide Match;
    hide Move;
    hide FirstHalf;
    hide Clean;
    hide OnlyKey;
    hide Delivered;
    KeyedTx(c, cx, gx, x, cy, gy, y, rx);
    NoEvents(cy.ours);
    MoveParts(c, cy, y, rx, Some(GotKey(cx.ours)));
    var y' := Move(c, cy, y, rx, Some(GotKey(cx.ours)));
    var h0 := FirstHalf(c, cy, cx).value;
    var (h, pkts) := Greeting(c, h0, gy, y.tx.lead);
    var f, g := Rx(Garbage, gy, [], Some(h0), None, None), Rx(App, [], [], Some(h), None, None);
    Terminating(c, cx, gy, y.tx.lead, h0);
    FutureGrows(c, cy, gy, y, y', cx, x, h0.term + pkts, f, [], g);
  }

  /** Queueing more bytes carries the future on by what the other side makes of them. */
  lemma FutureGrows(c: Crypto, cx: Config, gx: seq<byte>, x: End, x': End, cy: Config, y: End, more: seq<byte>, f: Rx, outs: seq<Event>, g: Rx)
    requires FirstHalf(c, cx, cy).Some? && Future(c, cx, gx, x, cy, y)
    requires Pump(c, cy, Append(y.rx, x.tx.send)).end == Some(f) && Pump(c, cy, Append(f, more)) == Run(outs, Some(g))
    requires InStep(g, x', gx, FirstHalf(c, cx, cy).value) && OnlyKey(outs, cx.ours)
    requires x'.tx.send == x.tx.send + more && x'.sent == x.sent + Delivered(outs)
    ensures Future(c, cx, gx, x', cy, y)
  {
    hide Pump;
    hide FirstHalf;
    hide Delivered;
    hide InStep;
    var r := Pump(c, cy, Append(y.rx, x.tx.send));
    QueueMore(c, cy, y.rx, x.tx.send, more);
    DeliveredJoin(r.outs, outs);
    Assoc(y.got, Delivered(r.outs), Delivered(outs));
  }

  lemma NoEvents(key: seq<byte>)
    ensures OnlyKey([], key) && Delivered([]) == []
  {
  }

  lemma KeyedTx(c: Crypto, cx: Config, gx: seq<byte>, x: End, cy: Config, gy: seq<byte>, y: End, rx: Rx)
    requires Both(c, cx, gx, x, cy, gy, y) && y.rx.phase == AwaitKey
    ensures FirstHalf(c, cy, cx).Some? && Clean(gy, FirstHalf(c, cy, cx)) && Short(y.tx.lead)
    ensures var h0 := FirstHalf(c, cy, cx).value;
      var (h, pkts) := Greeting(c, h0, gy, y.tx.lead);
      Move(c, cy, y, rx, Some(GotKey(cx.ours))).tx == Tx(y.tx.send + (h0.term + pkts), [], [], Some(h))
  {
    hide Future;
    hide Greeting;
    var h0 := FirstHalf(c, cy, cx).value;
    var (h, pkts) := Greeting(c, h0, gy, y.tx.lead);
    assert y.tx.send + h0.term + pkts == y.tx.send + (h0.term + pkts);
  }

  /** Queueing more bytes extends the other side's future by what it makes of them. */
  lemma QueueMore(c: Crypto, cfg: Config, rx: Rx, send: seq<byte>, more: seq<byte>)
    requires Pump(c, cfg, Append(rx, send)).end.Some?
    ensures var r := Pump(c, cfg, Append(rx, send));
      var s := Pump(c, cfg, Append(r.end.value, more));
      Pump(c, cfg, Append(rx, send + more)) == Run(r.outs + s.outs, s.end)
  {
    hide Pump;
    PumpJoins(c, cfg, Append(rx, send), more);
    assert Append(Append(rx, send), more) == Append(rx, send + more) by {
      assert (rx.recv + send) + more == rx.recv + (send + more);
    }
  }

  /** One move of y keeps the connection. */
  lemma MoveKeeps(c: Crypto, cx: Config, gx: seq<byte>, x: End, cy: Config, gy: seq<byte>, y: End, rx: Rx, out: Option<Event>)
    requires Both(c, cx, gx, x, cy, gy, y) && Turn(c, cy, y.rx) == Next(rx, out)
    ensures Both(c, cx, gx, x, cy, gy, Move(c, cy, y, rx, out))
  {
    InboundKept(c, cx, gx, x, cy, y, rx, out);
    OutboundKept(c, cx, gx, x, cy, gy, y, rx, out);
    MovePhase(c, cy, y.rx);
    hide Turn;
    hide Direction;
    hide Match;
  }

  lemma {:induction false} SettleKeeps(c: Crypto, cx: Config, gx: seq<byte>, x: End, cy: Config, gy: seq<byte>, y: End)
    requires Both(c, cx, gx, x, cy, gy, y)
    ensures Both(c, cx, gx, x, cy, gy, Settle(c, cy, y))
    decreases Measure(y.rx)
  {
    hide Turn;
    hide Measure;
    assert Direction(c, cx, gx, x, cy, y);
    hide Both;
    hide Direction;
    NeverBroken(c, cx, gx, x, cy, y);
    TurnShrinks(c, cy, y.rx);
    match Turn(c, cy, y.rx) {
      case Blocked =>
      case Next(rx, out) =>
        MoveKeeps(c, cx, gx, x, cy, gy, y, rx, out);
        SettleKeeps(c, cx, gx, x, cy, gy, Move(c, cy, y, rx, out));
    }
  }

  /** Handing bytes over changes no future: they leave the sender's queue for the receiver's buffer. */
  lemma HandOver(c: Crypto, cx: Config, gx: seq<byte>, x: End, cy: Config, gy: seq<byte>, y: End, k: nat)
    requires Both(c, cx, gx, x, cy, gy, y) && k <= |x.tx.send| && x.rx.phase != MaybeV1
    ensures Both(c, cx, gx, x.(tx := x.tx.(send := x.tx.send[k..])), cy, gy, y.(rx := Append(y.rx, x.tx.send[..k])))
  {
    hide Pump;
    hide Match;
    hide Delivered;
    hide OnlyKey;
    hide FirstHalf;
    var x', y' := x.(tx := x.tx.(send := x.tx.send[k..])), y.(rx := Append(y.rx, x.tx.send[..k]));
    assert Append(y'.rx, x'.tx.send) == Append(y.rx, x.tx.send) by {
      assert (y.rx.recv + x.tx.send[..k]) + x.tx.send[k..] == y.rx.recv + x.tx.send;
    }
  }

  lemma ReceiveKeeps(c: Crypto, cx: Config, gx: seq<byte>, x: End, cy: Config, gy: seq<byte>, y: End, n: nat)
    requires Both(c, cx, gx, x, cy, gy, y) && Quiet(c, cy, y.rx)
    ensures var k := Take(x.tx.send, n); var y' := Receive(c, cy, y, x.tx.send[..k]);
      Both(c, cx, gx, x.(tx := x.tx.(send := x.tx.send[k..])), cy, gy, y') && Quiet(c, cy, y'.rx)
  {
    assert !y.broken && (x.rx.phase == MaybeV1 ==> x.tx.send == []);
    hide Both;
    hide Turn;
    hide Quiet;
    var k := Take(x.tx.send, n);
    if x.rx.phase == MaybeV1 {
      assert Append(y.rx, []) == y.rx by { assert y.rx.recv + [] == y.rx.recv; }
      SettleQuiet(c, cy, y);
      assert x.(tx := x.tx.(send := x.tx.send[k..])) == x;
      SettleKeeps(c, cx, gx, x, cy, gy, y);
    } else {
      HandOver(c, cx, gx, x, cy, gy, y, k);
      var x', y1 := x.(tx := x.tx.(send := x.tx.send[k..])), y.(rx := Append(y.rx, x.tx.send[..k]));
      SettleKeeps(c, cx, gx, x', cy, gy, y1);
      assert Both(c, cx, gx, x', cy, gy, Settle(c, cy, y1));
      Unbroken(c, cx, gx, x', cy, gy, Settle(c, cy, y1));
      SettleQuiet(c, cy, y1);
    }
  }

  lemma Unbroken(c: Crypto, cx: Config, gx: seq<byte>, x: End, cy: Config, gy: seq<byte>, y: End)
    requires Both(c, cx, gx, x, cy, gy, y)
    ensures !y.broken && !x.broken
  {
  }

  lemma {:induction false} SettleQuiet(c: Crypto, cy: Config, y: End)
    ensures Settle(c, cy, y).broken || Quiet(c, cy, Settle(c, cy, y).rx)
    ensures Quiet(c, cy, y.rx) ==> Settle(c, cy, y) == y
    decreases Measure(y.rx)
  {
    hide Turn;
    hide Measure;
    hide Move;
    TurnShrinks(c, cy, y.rx);
    match Turn(c, cy, y.rx) {
      case Blocked =>
      case Broken =>
      case Next(rx, out) =>
        MoveParts(c, cy, y, rx, out);
        SettleQuiet(c, cy, Move(c, cy, y, rx, out));
    }
  }

  /** Queueing a good message keeps the connection. */
  lemma SendKeeps(c: Crypto, cx: Config, gx: seq<byte>, x: End, cy: Config, gy: seq<byte>, y: End, m: Message)
    requires Both(c, cx, gx, x, cy, gy, y) && Good(m)
    ensures Both(c, cx, gx, Send(c, x, m).0, cy, gy, y) && Send(c, x, m).0.rx == x.rx
  {
    hide Pump;
    hide Match;
    hide Good;
    hide Frame;
    hide EncryptPacket;
    hide FirstHalf;
    hide Delivered;
    var (x', ok) := Send(c, x, m);
    if ok {
      var h0 := x.tx.mouth.value;
      var (h, pkt) := EncryptPacket(c, h0, Frame(m.kind, m.payload).value, [], false);
      Sending(c, cy, h0, m);
      OneMessage(m);
      FutureGrows(c, cx, gx, x, x', cy, y, pkt, Rx(App, [], [], Some(h0), None, None), [Deliver(m)], Rx(App, [], [], Some(h), None, None));
    }
  }

  /** Queueing a decoy keeps the connection. */
  lemma DecoyKeeps(c: Crypto, cx: Config, gx: seq<byte>, x: End, cy: Config, gy: seq<byte>, y: End, contents: seq<byte>)
    requires Both(c, cx, gx, x, cy, gy, y)
    ensures Both(c, cx, gx, Decoy(c, x, contents), cy, gy, y) && Decoy(c, x, contents).rx == x.rx
  {
    hide Pump;
    hide Match;
    hide EncryptPacket;
    hide FirstHalf;
    hide Delivered;
    var x' := Decoy(c, x, contents);
    if x.tx.mouth.Some? && |contents| <= MAX_MESSAGE_LEN {
      var h0 := x.tx.mouth.value;
      var (h, pkt) := EncryptPacket(c, h0, contents, [], true);
      DecoyDropped(c, cy, h0, contents);
      NoEvents(cx.ours);
      FutureGrows(c, cx, gx, x, x', cy, y, pkt, Rx(App, [], [], Some(h0), None, None), [], Rx(App, [], [], Some(h), None, None));
    }
  }

  lemma OneMessage(m: Message)
    ensures Delivered([Deliver(m)]) == [m]
  {
    assert [Deliver(m)][1..] == [];
  }

  ghost predicate Honest(acts: seq<Action>) {
    forall i: nat :: i < |acts| ==>
      (acts[i].ASends? ==> Good(acts[i].m)) && (acts[i].BSends? ==> Good(acts[i].m))
  }

  ghost predicate Inv(c: Crypto, ca: Config, ga: seq<byte>, cb: Config, gb: seq<byte>, net: Net) {
    Both(c, ca, ga, net.a, cb, gb, net.b) && Quiet(c, ca, net.a.rx) && Quiet(c, cb, net.b.rx)
  }

  lemma BothSwaps(c: Crypto, cx: Config, gx: seq<byte>, x: End, cy: Config, gy: seq<byte>, y: End)
    requires Both(c, cx, gx, x, cy, gy, y)
    ensures Both(c, cy, gy, y, cx, gx, x)
  {
    hide Direction;
    MatchSwaps(c, cx, gx, cy, gy);
  }

  lemma ActKeeps(c: Crypto, ca: Config, ga: seq<byte>, cb: Config, gb: seq<byte>, net: Net, act: Action)
    requires Inv(c, ca, ga, cb, gb, net)
    requires (act.ASends? ==> Good(act.m)) && (act.BSends? ==> Good(act.m))
    ensures Inv(c, ca, ga, cb, gb, Act(c, ca, cb, net, act))
  {
    hide Both;
    hide Quiet;
    hide Receive;
    hide Send;
    hide Decoy;
    hide Good;
    BothSwaps(c, ca, ga, net.a, cb, gb, net.b);
    match act {
      case AtoB(n) => ReceiveKeeps(c, ca, ga, net.a, cb, gb, net.b, n);
      case BtoA(n) =>
        ReceiveKeeps(c, cb, gb, net.b, ca, ga, net.a, n);
        var k := Take(net.b.tx.send, n);
        BothSwaps(c, cb, gb, net.b.(tx := net.b.tx.(send := net.b.tx.send[k..])), ca, ga, Receive(c, ca, net.a, net.b.tx.send[..k]));
      case ASends(m) => SendKeeps(c, ca, ga, net.a, cb, gb, net.b, m);
      case BSends(m) =>
        SendKeeps(c, cb, gb, net.b, ca, ga, net.a, m);
        BothSwaps(c, cb, gb, Send(c, net.b, m).0, ca, ga, net.a);
      case ADecoys(contents) => DecoyKeeps(c, ca, ga, net.a, cb, gb, net.b, contents);
      case BDecoys(contents) =>
        DecoyKeeps(c, cb, gb, net.b, ca, ga, net.a, contents);
        BothSwaps(c, cb, gb, Decoy(c, net.b, contents), ca, ga, net.a);
    }
  }

  lemma {:induction false} RunsKeep(c: Crypto, ca: Config, ga: seq<byte>, cb: Config, gb: seq<byte>, net: Net, acts: seq<Action>)
    requires Inv(c, ca, ga, cb, gb, net) && Honest(acts)
    ensures Inv(c, ca, ga, cb, gb, Runs(c, ca, cb, net, acts))
    decreases |acts|
  {
    hide Inv;
    hide Act;
    hide Good;
    if |acts| > 0 {
      assert Honest(acts[1..]);
      ActKeeps(c, ca, ga, cb, gb, net, acts[0]);
      RunsKeep(c, ca, ga, cb, gb, Act(c, ca, cb, net, acts[0]), acts[1..]);
    }
  }

  lemma StartInv(c: Crypto, ca: Config, ga: seq<byte>, la: seq<seq<byte>>, cb: Config, gb: seq<byte>, lb: seq<seq<byte>>)
    requires Pair(c, ca, ga, cb, gb) && Short(la) && Short(lb)
    ensures ca.initiator && Inv(c, ca, ga, cb, gb, Net(Start(ca, ga, la), Start(cb, gb, lb)))
  {
    PairMatches(c, ca, ga, cb, gb);
    Opening(c, ca, ga, cb, gb);
    StartQuiet(c, ca);
    StartQuiet(c, cb);
    MatchHalves(c, ca, ga, cb, gb);
    hide Pump;
    hide Turn;
    hide Match;
    hide Clean;
    hide FirstHalf;
    assert [] + Delivered(Pump(c, cb, Append(StartRx(false), ca.ours + ga)).outs) == [];
  }

  lemma MatchHalves(c: Crypto, ca: Config, ga: seq<byte>, cb: Config, gb: seq<byte>)
    requires Match(c, ca, ga, cb, gb)
    ensures FirstHalf(c, ca, cb).Some? && FirstHalf(c, cb, ca).Some?
  {
  }

  lemma StartQuiet(c: Crypto, cfg: Config)
    ensures Quiet(c, cfg, StartRx(cfg.initiator))
  {
    hide V1Prefix;
    assert V1Prefix(cfg.magic)[..0] == [];
  }

  /** A responder says nothing while what it has heard could be, or is, the v1 header: no byte is queued and nothing is given away. */
  lemma SilentToV1(c: Crypto, cfg: Config, garbage: seq<byte>, lead: seq<seq<byte>>, stream: seq<byte>)
    requires !cfg.initiator && (stream <= V1Prefix(cfg.magic) || V1Prefix(cfg.magic) <= stream)
    ensures var e := Receive(c, cfg, Start(cfg, garbage, lead), stream);
      && e.tx.send == [] && e.got == [] && !e.broken && e.rx.recv == stream && (e.rx.phase == V1 <==> V1Prefix(cfg.magic) <= stream)
  {
    hide V1Prefix;
    var want, e := V1Prefix(cfg.magic), More(Start(cfg, garbage, lead), stream);
    assert e.rx.recv == [] + stream == stream;
    if want <= stream {
      assert stream[..16] == want[..16];
      SettleTurns(c, cfg, e);
      var e1 := Move(c, cfg, e, e.rx.(phase := V1), None);
      SettleTurns(c, cfg, e1);
    } else {
      assert |stream| < 16 && stream[..|stream|] == want[..|stream|];
      SettleTurns(c, cfg, e);
    }
  }

  /** The session theorem. Whatever the interleaving, however the bytes are cut and
      whatever decoys either end sends, before its version packet or after it, neither end ever sees a violation, each has delivered a prefix of what the
      other queued, and once nothing is in flight both are in the application phase
      and each has delivered exactly what the other queued. */
  lemma HonestExchange(c: Crypto, ca: Config, ga: seq<byte>, la: seq<seq<byte>>,
                       cb: Config, gb: seq<byte>, lb: seq<seq<byte>>, acts: seq<Action>)
    requires Pair(c, ca, ga, cb, gb) && Short(la) && Short(lb) && Honest(acts)
    ensures var net := Runs(c, ca, cb, Net(Start(ca, ga, la), Start(cb, gb, lb)), acts);
      && !net.a.broken && !net.b.broken
      && net.b.got <= net.a.sent && net.a.got <= net.b.sent
      && (net.a.tx.send == [] && net.b.tx.send == [] ==>
            && net.a.rx.phase == App && net.b.rx.phase == App
            && net.b.got == net.a.sent && net.a.got == net.b.sent)
  {
    hide *;
    StartInv(c, ca, ga, la, cb, gb, lb);
    var start := Net(Start(ca, ga, la), Start(cb, gb, lb));
    var net := Runs(c, ca, cb, start, acts);
    RunsKeep(c, ca, ga, cb, gb, start, acts);
    InvMeans(c, ca, ga, cb, gb, net);
  }

  lemma InvMeans(c: Crypto, ca: Config, ga: seq<byte>, cb: Config, gb: seq<byte>, net: Net)
    requires Inv(c, ca, ga, cb, gb, net) && ca.initiator
    ensures !net.a.broken && !net.b.broken && net.b.got <= net.a.sent && net.a.got <= net.b.sent
    ensures net.a.tx.send == [] && net.b.tx.send == [] ==>
      && net.a.rx.phase == App && net.b.rx.phase == App
      && net.b.got == net.a.sent && net.a.got == net.b.sent
  {
    hide Pump;
    hide Turn;
    hide Match;
    hide FirstHalf;
    var a, b := net.a, net.b;
    if a.tx.send == [] && b.tx.send == [] {
      NothingInFlight(c, cb, b.rx);
      NothingInFlight(c, ca, a.rx);
    }
  }

  lemma NothingInFlight(c: Crypto, cfg: Config, rx: Rx)
    requires Quiet(c, cfg, rx)
    ensures Pump(c, cfg, Append(rx, [])) == Run([], Some(rx)) && Delivered([]) == []
  {
    hide Turn;
    assert Append(rx, []) == rx by { assert rx.recv + [] == rx.recv; }
    Rest(c, cfg, rx);
  }

  /** What a receiver in step makes of any queued message: one whose packet exceeds
      the limit, which the sender's own limit lets through, ends the session; one with
      an unreadable type is dropped; every other is delivered. */
  lemma QueuedOutcome(c: Crypto, cy: Config, h0: Half, m: Message)
    requires Frame(m.kind, m.payload).Some? && 0 !in m.kind && |m.payload| <= MAX_MESSAGE_LEN
    ensures var (h, pkt) := EncryptPacket(c, h0, Frame(m.kind, m.payload).value, [], false);
      var r := Pump(c, cy, Append(Rx(App, [], [], Some(h0), None, None), pkt));
      && (r.end.Some? <==> |Frame(m.kind, m.payload).value| <= MAX_MESSAGE_LEN)
      && (Good(m) <==> r.end.Some? && Delivered(r.outs) == [m])
  {
    var contents := Frame(m.kind, m.payload).value;
    FrameRoundTrip(m.kind, m.payload);
    hide Frame;
    if |contents| > MAX_MESSAGE_LEN {
      OversizeEnds(c, cy, h0, contents);
    } else if Sendable(m.kind) {
      Sending(c, cy, h0, m);
      OneMessage(m);
    } else {
      Unreadable(c, cy, h0, contents);
    }
  }

  /** A "tx" of the longest payload the sender takes: queued, and the end of the session for a receiver in step. */
  lemma LongestTxEnds(c: Crypto, cy: Config, e: End, payload: seq<byte>)
    requires e.tx.mouth.Some? && |payload| == MAX_MESSAGE_LEN
    ensures var m := Message(Ascii("tx"), payload);
      var (sent, ok) := Send(c, e, m);
      && ok && e.tx.send <= sent.tx.send
      && Pump(c, cy, Append(Rx(App, [], [], e.tx.mouth, None, None), sent.tx.send[|e.tx.send|..])).end.None?
  {
    var m := Message(Ascii("tx"), payload);
    var contents := Frame(m.kind, m.payload).value;
    hide Frame, EncryptPacket, Pump;
    OversizeEnds(c, cy, e.tx.mouth.value, contents);
    var (h, pkt) := EncryptPacket(c, e.tx.mouth.value, contents, [], false);
    assert (e.tx.send + pkt)[|e.tx.send|..] == pkt;
  }

  lemma OversizeEnds(c: Crypto, cy: Config, h0: Half, contents: seq<byte>)
    requires MAX_MESSAGE_LEN < |contents| < 0x100_0000
    ensures var (h, pkt) := EncryptPacket(c, h0, contents, [], false);
      Pump(c, cy, Append(Rx(App, [], [], Some(h0), None, None), pkt)).end.None?
  {
    PacketRoundTrip(c, h0, contents, [], false);
    var (h, pkt) := EncryptPacket(c, h0, contents, [], false);
    hide EncryptPacket;
    hide DecryptLength;
    hide DecryptBody;
    AppendEmpty(h0, pkt);
    assert Turn(c, cy, Rx(App, pkt, [], Some(h0), None, None)) == Broken;
  }

  lemma Unreadable(c: Crypto, cy: Config, h0: Half, contents: seq<byte>)
    requires |contents| <= MAX_MESSAGE_LEN && ParseContents(contents) == None
    ensures var (h, pkt) := EncryptPacket(c, h0, contents, [], false);
      Pump(c, cy, Append(Rx(App, [], [], Some(h0), None, None), pkt)) == Run([], Some(Rx(App, [], [], Some(h), None, None)))
  {
    hide Pump, EncryptPacket, ParseContents;
    OnePacket(c, cy, App, [], h0, contents, false);
    AppendEmpty(h0, EncryptPacket(c, h0, contents, [], false).1);
  }
}
