/** A session handed from one process to another: what is packed, what is made of it, and what is lost on the way. */
module Bip324Handover {
  import opened Bytes
  import opened Bip324Cipher
  import opened Bip324Messages
  import opened Bip324Receiver
  import opened Bip324Session
  import opened Bip324Transport

  /** The fixed part with its lengths, the cipher as it stands, and the bytes of both buffers one after the other. */
  datatype Parcel = Parcel(initiator: bool, magic: seq<byte>, phase: Phase, haveLen: bool, pendingLen: nat, msgReady: bool, kind: seq<byte>,
                           recvLen: nat, msgLen: nat, cipher: Option<Cipher>, rest: seq<byte>)

  /** Packed only past the handshake, and only where there is room. */
  method Export(t: Transport, room: int) returns (r: Option<Parcel>)
    requires t.Valid()
    ensures r.Some? <==> t.phase == App && |t.recv| + |t.msg.payload| <= room
    ensures r.Some? ==> r.value == Parcel(t.cfg.initiator, t.cfg.magic, App, t.haveLen, t.pendingLen, t.msgReady, t.msg.kind,
                                          |t.recv|, |t.msg.payload|, t.cipher, t.recv + t.msg.payload)
  {
    if t.phase != App || t.cipher.None? { return None; }
    if |t.recv| + |t.msg.payload| > room { return None; }
    return Some(Parcel(t.cfg.initiator, t.cfg.magic, t.phase, t.haveLen, t.pendingLen, t.msgReady, t.msg.kind,
                       |t.recv|, |t.msg.payload|, t.cipher, t.recv + t.msg.payload));
  }

  /** What an end is after a handover: nothing is left of what waited to be sent. */
  function Handed(e: End): End {
    e.(tx := e.tx.(send := []))
  }

  /** A session with these parts, or none when they do not fit together. The keys it was made with are not among them. */
  method Import(crypto: Crypto, q: Parcel, ghost sent: seq<Message>, ghost got: seq<Message>) returns (r: Option<Transport>)
    ensures r.Some? <==> q.phase == App && q.cipher.Some? && |q.rest| == q.recvLen + q.msgLen
    ensures r.Some? ==> fresh(r.value) && r.value.Valid() && r.value.crypto == crypto
    ensures r.Some? ==> r.value.cfg == Config(q.initiator, q.magic, Zeros(32), Zeros(64))
    ensures r.Some? ==> r.value.Model() ==
                        End(Rx(App, q.rest[..q.recvLen], [], Some(q.cipher.value.recv), if q.haveLen then Some(q.pendingLen) else None,
                               if q.msgReady then Some(Message(q.kind, q.rest[q.recvLen..])) else None),
                            Tx([], [], [], Some(q.cipher.value.send)), sent, got, false)
  {
    if |q.rest| != q.recvLen + q.msgLen { return None; }
    if q.phase != App || q.cipher.None? { return None; }
    var t := new Transport.Restored(crypto, Config(q.initiator, q.magic, Zeros(32), Zeros(64)), q.cipher.value,
      if q.haveLen then Some(q.pendingLen) else None, q.msgReady, Message(q.kind, q.rest[q.recvLen..]), q.rest[..q.recvLen], sent, got);
    return Some(t);
  }

  /** Past the handshake the keys an end was made with have no part in anything. */
  lemma AppTurn(c: Crypto, a: Config, b: Config, rx: Rx)
    requires rx.phase == App
    ensures Turn(c, a, rx) == Turn(c, b, rx)
    ensures Turn(c, a, rx).Next? ==> Turn(c, a, rx).rx.phase == App && (Turn(c, a, rx).out.Some? ==> Turn(c, a, rx).out.value.Deliver?)
  {
    hide DecryptLength, DecryptBody, ParseContents;
  }

  lemma {:induction false} AppSettles(c: Crypto, a: Config, b: Config, e: End)
    requires e.rx.phase == App
    ensures Settle(c, a, e) == Settle(c, b, e) && Settle(c, a, e).rx.phase == App
    ensures Settle(c, a, Handed(e)) == Handed(Settle(c, a, e))
    decreases Measure(e.rx)
  {
    hide Turn, Settle, Measure, React;
    TurnShrinks(c, a, e.rx);
    AppTurn(c, a, b, e.rx);
    SettleTurns(c, a, e); SettleTurns(c, b, e); SettleTurns(c, a, Handed(e));
    if Turn(c, a, e.rx).Next? {
      var rx, out := Turn(c, a, e.rx).rx, Turn(c, a, e.rx).out;
      AppMove(c, a, b, e, rx, out);
      AppSettles(c, a, b, Move(c, a, e, rx, out));
    }
  }

  lemma AppMove(c: Crypto, a: Config, b: Config, e: End, rx: Rx, out: Option<Event>)
    requires out.Some? ==> out.value.Deliver?
    ensures Move(c, a, e, rx, out) == Move(c, b, e, rx, out) && Move(c, a, e, rx, out).rx == rx
    ensures Move(c, a, Handed(e), rx, out) == Handed(Move(c, a, e, rx, out))
  {
  }

  /** The new session is the old one but for what waited to be sent, so it is the old one exactly when nothing did; and whatever
      arrives, it makes of it what the old one would have. */
  method HandOver(t: Transport, room: int) returns (r: Option<Transport>)
    requires t.Valid()
    ensures r.Some? <==> t.phase == App && |t.recv| + |t.msg.payload| <= room
    ensures r.Some? ==> r.value.Valid() && r.value.crypto == t.crypto && r.value.Model() == Handed(t.Model())
    ensures r.Some? ==> (r.value.Model() == t.Model() <==> t.send == [])
    ensures r.Some? ==> forall data: seq<byte> ::
      Receive(t.crypto, r.value.cfg, r.value.Model(), data) == Handed(Receive(t.crypto, t.cfg, t.Model(), data))
  {
    hide Settle;
    var q := Export(t, room);
    if q.None? { return None; }
    r := Import(t.crypto, q.value, t.sent, t.got);
    assert (t.recv + t.msg.payload)[..|t.recv|] == t.recv && (t.recv + t.msg.payload)[|t.recv|..] == t.msg.payload;
    forall data: seq<byte>
      ensures Receive(t.crypto, r.value.cfg, r.value.Model(), data) == Handed(Receive(t.crypto, t.cfg, t.Model(), data))
    {
      var e := t.Model();
      AppSettles(t.crypto, r.value.cfg, t.cfg, More(e, data));
    }
  }

  /** A message queued just before is lost, and the sending half has moved on for it. */
  lemma QueuedIsLost(c: Crypto, e: End, m: Message)
    requires Send(c, e, m).1
    ensures Handed(Send(c, e, m).0) != Send(c, e, m).0 && Handed(Send(c, e, m).0).sent == e.sent + [m]
  {
    hide EncryptPacket, Frame;
    PacketHasBytes(c, e.tx.mouth.value, Frame(m.kind, m.payload).value);
  }

  lemma PacketHasBytes(c: Crypto, h: Half, contents: seq<byte>)
    ensures |EncryptPacket(c, h, contents, [], false).1| > 0
  {
  }
}
