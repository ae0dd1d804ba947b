/** The transport as it runs: one record whose buffers, keys and flags are updated
    in place, shown to do what the receiving machine and the session say. */
module Bip324Transport {
  import opened Bytes
  import opened Bip324Cipher
  import opened Bip324Messages
  import opened Bip324Receiver
  import opened Bip324Session

  /** Run the receiving side until it needs bytes, hits a violation, or has a message to hand out. */
  function Advanced(c: Crypto, cfg: Config, e: End): End
    decreases Measure(e.rx)
  {
    TurnShrinks(c, cfg, e.rx);
    if e.rx.msg.Some? then e
    else match Turn(c, cfg, e.rx)
      case Blocked => e
      case Broken => e.(broken := true)
      case Next(rx, out) => Advanced(c, cfg, Move(c, cfg, e, rx, out))
  }

  /** Collecting what is ready and going on is what settling means. */
  lemma {:induction false} SettleByMessages(c: Crypto, cfg: Config, e: End)
    requires !e.broken
    ensures var d := Advanced(c, cfg, e);
      Settle(c, cfg, e) ==
        if d.broken then d
        else if d.rx.msg.Some? then Settle(c, cfg, Collected(d))
        else d
    decreases Measure(e.rx)
  {
    hide Measure;
    hide Turn;
    TurnShrinks(c, cfg, e.rx);
    if e.rx.msg.Some? {
      Collect(c, cfg, e.rx);
    } else {
      match Turn(c, cfg, e.rx) {
        case Blocked =>
        case Broken =>
        case Next(rx, out) =>
          MoveParts(c, cfg, e, rx, out);
          SettleByMessages(c, cfg, Move(c, cfg, e, rx, out));
      }
    }
  }

  function Collected(e: End): End
    requires e.rx.msg.Some?
  {
    e.(rx := e.rx.(msg := None), got := e.got + [e.rx.msg.value])
  }

  lemma V1Advanced(c: Crypto, cfg: Config, e: End)
    requires e.rx.phase == V1
    ensures Advanced(c, cfg, e) == e
  {
  }

  lemma ReadyAdvanced(c: Crypto, cfg: Config, e: End)
    requires e.rx.msg.Some?
    ensures Advanced(c, cfg, e) == e
  {
  }

  /** Advancing twice is advancing once. */
  lemma {:induction false} AdvancedRests(c: Crypto, cfg: Config, e: End)
    ensures Advanced(c, cfg, e).broken || Advanced(c, cfg, Advanced(c, cfg, e)) == Advanced(c, cfg, e)
    decreases Measure(e.rx)
  {
    hide Turn;
    hide Measure;
    hide Move;
    TurnShrinks(c, cfg, e.rx);
    if e.rx.msg.None? && Turn(c, cfg, e.rx).Next? {
      var t := Turn(c, cfg, e.rx);
      MoveParts(c, cfg, e, t.rx, t.out);
      AdvancedRests(c, cfg, Move(c, cfg, e, t.rx, t.out));
    }
  }

  lemma {:induction false} AdvancedShrinks(c: Crypto, cfg: Config, e: End)
    ensures Measure(Advanced(c, cfg, e).rx) <= Measure(e.rx)
    ensures Advanced(c, cfg, e).rx.msg.Some? ==> Measure(Collected(Advanced(c, cfg, e)).rx) < Measure(e.rx)
    decreases Measure(e.rx)
  {
    hide Turn;
    hide Move;
    TurnShrinks(c, cfg, e.rx);
    if e.rx.msg.None? && Turn(c, cfg, e.rx).Next? {
      var t := Turn(c, cfg, e.rx);
      MoveParts(c, cfg, e, t.rx, t.out);
      AdvancedShrinks(c, cfg, Move(c, cfg, e, t.rx, t.out));
    }
  }

  datatype Iteration = Wait | Fail | Again

  class Transport {
    const crypto: Crypto
    const cfg: Config
    var phase: Phase
    var recv: seq<byte>
    var send: seq<byte>
    var recvGarbage: seq<byte>
    var sentGarbage: seq<byte>
    var cipher: Option<Cipher>      // set once the keys are known
    var haveLen: bool
    var pendingLen: nat
    var msgReady: bool
    var msg: Message
    ghost var sent: seq<Message>
    ghost var got: seq<Message>

    ghost function Rx_(): Rx
      reads this
    {
      Rx(phase, recv, recvGarbage, if cipher.Some? then Some(cipher.value.recv) else None,
         if haveLen then Some(pendingLen) else None, if msgReady then Some(msg) else None)
    }

    ghost function Tx_(): Tx
      reads this
    {
      Tx(send, sentGarbage, [], if cipher.Some? then Some(cipher.value.send) else None)
    }

    ghost function Model(): End
      reads this
    {
      End(Rx_(), Tx_(), sent, got, false)
    }

    /** The phases past the key are those with a cipher. */
    ghost predicate Valid()
      reads this
    {
      && (phase == Garbage || phase == Version || phase == App <==> cipher.Some?)
      && (msgReady ==> phase == App)
      && (phase == App ==> recvGarbage == []) && (cipher.Some? ==> sentGarbage == [])
    }

    /** Where one turn of the loop leaves the record, as the machine's step says. */
    twostate predicate Did(r: Iteration, t: StepResult)
      reads this
    {
      match r
      case Wait => t.Blocked? && Valid() && Model() == old(Model())
      case Fail => t.Broken?
      case Again => t.Next? && Valid() && Model() == Move(crypto, cfg, old(Model()), t.rx, t.out)
    }

    constructor (crypto: Crypto, cfg: Config)
      ensures this.crypto == crypto && this.cfg == cfg
    {
      this.crypto, this.cfg := crypto, cfg;
      phase, recv, send, recvGarbage, sentGarbage, cipher := V1, [], [], [], [], None;
      haveLen, pendingLen, msgReady, msg, sent, got := false, 0, false, Message([], []), [], [];
    }

    /** A session past its handshake, from its parts. */
    constructor Restored(crypto: Crypto, cfg: Config, keys: Cipher, pending: Option<nat>, ready: bool, m: Message, bytes: seq<byte>,
                         ghost sent: seq<Message>, ghost got: seq<Message>)
      ensures Valid() && this.crypto == crypto && this.cfg == cfg && this.msg == m
      ensures Model() == End(Rx(App, bytes, [], Some(keys.recv), pending, if ready then Some(m) else None), Tx([], [], [], Some(keys.send)), sent, got, false)
    {
      this.crypto, this.cfg := crypto, cfg;
      phase, recv, send, recvGarbage, sentGarbage, cipher := App, bytes, [], [], [], Some(keys);
      haveLen, pendingLen := pending.Some?, if pending.Some? then pending.value else 0;
      msgReady, msg := ready, m;
      this.sent, this.got := sent, got;
    }

    /** Refused when the garbage is too long; otherwise the end of a fresh connection. */
    method Setup(garbage: seq<byte>) returns (ok: bool)
      modifies this
      ensures ok <==> |garbage| <= MAX_GARBAGE_LEN
      ensures ok ==> Valid() && Model() == Start(cfg, garbage, [])
    {
      phase, recv, send, recvGarbage, sentGarbage, cipher := MaybeV1, [], [], [], [], None;
      haveLen, pendingLen, msgReady, sent, got := false, 0, false, [], [];
      if |garbage| > MAX_GARBAGE_LEN { return false; }
      sentGarbage := garbage;
      phase := if cfg.initiator then AwaitKey else MaybeV1;
      if cfg.initiator { send := cfg.ours + garbage; }
      return true;
    }

    /** Drive the machine over whatever is in recv; false is a protocol violation. */
    method Advance() returns (ok: bool)
      requires Valid()
      modifies this
      ensures ok ==> Valid() && Model() == Advanced(crypto, cfg, old(Model())) && !Advanced(crypto, cfg, old(Model())).broken
      ensures !ok ==> Advanced(crypto, cfg, old(Model())).broken
    {
      ghost var e0 := Model();
      while true
        invariant Valid() && Advanced(crypto, cfg, Model()) == Advanced(crypto, cfg, e0)
        decreases Measure(Rx_())
      {
        if msgReady { return true; }
        ghost var e := Model();
        var r := Iterate();
        match r {
          case Wait => return true;
          case Fail => return false;
          case Again => TurnShrinks(crypto, cfg, e.rx);
        }
      }
    }

    /** Takes in received bytes; false is a violation, after which nothing more is taken. */
    method Feed(data: seq<byte>) returns (ok: bool)
      requires Valid()
      modifies this
      ensures var d := Advanced(crypto, cfg, More(old(Model()), data));
        (ok ==> Valid() && Model() == d && !d.broken) && (!ok ==> d.broken)
    {
      hide Advanced;
      recv := recv + data;
      if phase == V1 { V1Advanced(crypto, cfg, Model()); return true; }
      ok := Advance();
    }

    /** Pull one message: 1 with it, 0 when none is complete, -1 on a violation; before the keys, and in v1, nothing is moved. */
    method NextMessage() returns (r: int, m: Message)
      requires Valid()
      modifies this
      ensures var e := old(Model()); var d := Advanced(crypto, cfg, e);
        if e.rx.msg.None? && e.tx.mouth.None? then r == 0 && Valid() && Model() == e
        else
          && (r == 1 || r == 0 || r == -1)
          && (r == 1 ==> Valid() && cipher.Some? && !d.broken && d.rx.msg == Some(m) && Model() == Collected(d))
          && (r == 0 ==> Valid() && Model() == d && !d.broken && d.rx.msg.None?)
          && (r == -1 ==> d.broken)
    {
      hide Advanced;
      m := msg;
      if msgReady {
        ReadyAdvanced(crypto, cfg, Model());
      } else {
        if phase == V1 || cipher.None? { return 0, m; }
        var ok := Advance();
        if !ok { return -1, m; }
        if !msgReady { return 0, m; }
      }
      m := msg;
      msgReady := false;
      got := got + [m];
      return 1, m;
    }

    /** The caller's loop: feed what arrived and take every message it completes. */
    method FeedAndDrain(data: seq<byte>) returns (ok: bool)
      requires Valid()
      modifies this
      ensures var d := Receive(crypto, cfg, old(Model()), data);
        (ok ==> Valid() && Model() == d && !d.broken) && (!ok ==> d.broken)
    {
      hide Advanced;
      hide Settle;
      hide Turn;
      ghost var e0 := More(Model(), data);
      ok := Feed(data);
      SettleByMessages(crypto, cfg, e0);
      AdvancedRests(crypto, cfg, e0);
      if !ok { return false; }
      SettleByMessages(crypto, cfg, Model());
      while true
        invariant Valid() && Settle(crypto, cfg, Model()) == Settle(crypto, cfg, e0)
        invariant cipher.None? ==> Advanced(crypto, cfg, Model()) == Model()
        decreases Measure(Rx_())
      {
        ghost var e := Model();
        AdvancedShrinks(crypto, cfg, e);
        SettleByMessages(crypto, cfg, e);
        AdvancedRests(crypto, cfg, e);
        var r, _ := NextMessage();
        if r == 0 { return true; }
        if r == -1 { return false; }
      }
    }

    /** Queue an application message; refused before the version packet went out, over
        the payload limit, or with a type of more than twelve bytes. */
    method SendMessage(kind: seq<byte>, payload: seq<byte>) returns (ok: bool)
      requires Valid()
      modifies this`send, this`cipher, this`sent
      ensures Valid() && (Model(), ok) == Send(crypto, old(Model()), Message(kind, payload))
    {
      hide EncryptPacket;
      hide Frame;
      if cipher.None? { return false; }
      if |payload| > MAX_MESSAGE_LEN { return false; }
      var contents := Frame(kind, payload);
      if contents.None? { return false; }
      var (h, pkt) := EncryptPacket(crypto, cipher.value.send, contents.value, [], false);
      cipher := Some(cipher.value.(send := h));
      send := send + pkt;
      sent := sent + [Message(kind, payload)];
      return true;
    }

    /** One turn of the loop, with no message waiting. */
    method Iterate() returns (r: Iteration)
      requires Valid() && !msgReady
      modifies this
      ensures Did(r, Turn(crypto, cfg, old(Rx_())))
    {
      hide ProbeStep;
      hide KeyStep;
      hide GarbageStep;
      hide PacketStep;
      hide Move;
      match phase {
        case MaybeV1 => r := Probe();
        case AwaitKey => r := TakeKey();
        case Garbage => r := Scan();
        case Version => r := ReadPacket();
        case App => r := ReadPacket();
        case V1 => r := Wait;
      }
    }

    method Probe() returns (r: Iteration)
      requires Valid() && phase == MaybeV1 && !msgReady
      modifies this`phase, this`send
      ensures Did(r, ProbeStep(cfg, old(Rx_())))
    {
      var want := V1Prefix(cfg.magic);
      var n := if |recv| < V1_PREFIX_LEN then |recv| else V1_PREFIX_LEN;
      if recv[..n] != want[..n] {
        phase := AwaitKey;
        send := send + cfg.ours + sentGarbage;
        return Again;
      }
      if n == V1_PREFIX_LEN { phase := V1; return Again; }
      return Wait;
    }

    /** The 64-byte key: derive the session, then queue the terminator and the version packet. */
    method TakeKey() returns (r: Iteration)
      requires Valid() && phase == AwaitKey && !msgReady
      modifies this`phase, this`recv, this`send, this`cipher, this`sentGarbage
      ensures Did(r, KeyStep(crypto, cfg, old(Rx_())))
    {
      hide Init;
      hide EncryptPacket;
      hide Greeting;
      if |recv| < KEY_LEN { return Wait; }
      var theirs := recv[..KEY_LEN];
      recv := recv[KEY_LEN..];
      var init := Init(crypto, cfg.seckey, cfg.ours, theirs, cfg.magic, cfg.initiator, false);
      if init.None? { return Fail; }
      var s := init.value;
      send := send + s.send.term;
      var (h, pkt) := EncryptPacket(crypto, s.send, [], sentGarbage, false);
      send := send + pkt;
      NoDecoys(crypto, s.send, sentGarbage);
      sentGarbage, cipher := [], Some(s.(send := h));
      phase := Garbage;
      return Again;
    }

    /** One turn of the search for the terminator, which settles what the garbage was. */
    method Scan() returns (r: Iteration)
      requires Valid() && phase == Garbage && !msgReady
      modifies this`phase, this`recv, this`recvGarbage
      ensures Did(r, GarbageStep(old(Rx_())))
    {
      hide FindTerm;
      var term := cipher.value.recv.term;
      var at, over := Search(recv, term);
      if at.Some? {
        var i := at.value;
        recvGarbage := recv[..i];
        recv := recv[i + |term|..];
        phase := Version;
        return Again;
      }
      return if over then Fail else Wait;
    }

    method ReadPacket() returns (r: Iteration)
      requires Valid() && (phase == Version || phase == App) && !msgReady
      modifies this
      ensures Did(r, PacketStep(crypto, old(Rx_())))
    {
      hide DecryptLength;
      hide DecryptBody;
      hide ParseContents;
      hide Move;
      if !haveLen { r := ReadLength(); } else { r := ReadBody(); }
    }

    method ReadLength() returns (r: Iteration)
      requires Valid() && (phase == Version || phase == App) && !msgReady && !haveLen
      modifies this`cipher, this`recv, this`pendingLen, this`haveLen
      ensures Did(r, PacketStep(crypto, old(Rx_())))
    {
      hide DecryptLength;
      hide DecryptBody;
      if |recv| < LENGTH_LEN { return Wait; }
      var (h, n) := DecryptLength(crypto, cipher.value.recv, recv[..LENGTH_LEN]);
      if n > MAX_MESSAGE_LEN { return Fail; }
      cipher := Some(cipher.value.(recv := h));
      recv := recv[LENGTH_LEN..];
      pendingLen, haveLen := n, true;
      return Again;
    }

    method ReadBody() returns (r: Iteration)
      requires Valid() && (phase == Version || phase == App) && !msgReady && haveLen
      modifies this`cipher, this`recv, this`haveLen, this`recvGarbage, this`phase, this`msg, this`msgReady
      ensures Did(r, PacketStep(crypto, old(Rx_())))
    {
      hide DecryptLength;
      hide DecryptBody;
      hide Accept;
      var rest := pendingLen + HEADER_LEN + AEAD_EXPANSION;
      if |recv| < rest { return Wait; }
      var aad := if phase == Version then recvGarbage else [];
      var (h, body) := DecryptBody(crypto, cipher.value.recv, recv[..rest], aad);
      cipher := Some(cipher.value.(recv := h));
      recv := recv[rest..];
      haveLen := false;
      if body.None? { return Fail; }
      TakeContents(body.value.0, body.value.1);
      return Again;
    }

    method TakeContents(ignore: bool, contents: seq<byte>)
      requires Valid() && (phase == Version || phase == App) && !msgReady
      modifies this`recvGarbage, this`phase, this`msg, this`msgReady
      ensures Valid() && Rx_() == Accept(old(Rx_()), ignore, contents)
    {
      hide ParseContents;
      if phase == Version {
        recvGarbage := [];
        if !ignore { phase := App; }
      } else if !ignore {
        NothingToParse(contents);
        var m := ParseContents(contents);
        if |contents| > 0 && m.Some? { msg, msgReady := m.value, true; }
      }
    }
  }

  lemma NoDecoys(c: Crypto, h: Half, garbage: seq<byte>)
    ensures Greeting(c, h, garbage, []) == EncryptPacket(c, h, [], garbage, false)
  {
    hide EncryptPacket;
    var r := EncryptPacket(c, h, [], garbage, false);
    assert [] + r.1 == r.1;
  }

  /** The terminator scan: where it stands, or whether the bound is passed without it. */
  method Search(recv: seq<byte>, term: seq<byte>) returns (at: Option<nat>, over: bool)
    ensures at == FindTerm(recv, term, 0)
    ensures at.None? ==> (over <==> |recv| > MAX_GARBAGE_LEN + |term|)
  {
    hide FindTerm;
    if |recv| < |term| { return None, false; }
    for i := 0 to |recv| - |term| + 1
      invariant forall j: nat :: j < i ==> !TermAt(recv, term, j)
    {
      if i > MAX_GARBAGE_LEN { return None, true; }
      if recv[i..i + |term|] == term {
        assert TermAt(recv, term, i);
        return Some(i), false;
      }
    }
    return None, |recv| > MAX_GARBAGE_LEN + |term|;
  }

  lemma NothingToParse(contents: seq<byte>)
    ensures |contents| == 0 ==> ParseContents(contents) == None
  {
  }
}
