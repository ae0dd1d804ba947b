/** How a BIP324 packet's contents carry a message: a one-byte id for the common
    types, or a zero byte and the type's name in twelve bytes. */
module Bip324Messages {
  import opened Bytes
  import opened Bip324Cipher

  const MAX_MESSAGE_LEN := 4_000_000

  datatype Message = Message(kind: seq<byte>, payload: seq<byte>)

  /** Index 0 is the escape, never a name. */
  const SHORT_IDS: seq<string> := [
    "", "addr", "block", "blocktxn", "cmpctblock",
    "feefilter", "filteradd", "filterclear", "filterload", "getblocks",
    "getblocktxn", "getdata", "getheaders", "headers", "inv",
    "mempool", "merkleblock", "notfound", "ping", "pong",
    "sendcmpct", "tx", "getcfilters", "cfilter", "getcfheaders",
    "cfheaders", "getcfcheckpt", "cfcheckpt", "addrv2"
  ]

  function ShortIdName(id: byte): Option<seq<byte>> {
    if 0 < id < |SHORT_IDS| then Some(Ascii(SHORT_IDS[id])) else None
  }

  /** The first id from i on whose name is this, or -1. */
  function ShortIdFrom(kind: seq<byte>, i: nat): (id: int)
    requires i <= |SHORT_IDS|
    ensures id == -1 || (i <= id < |SHORT_IDS| && Ascii(SHORT_IDS[id]) == kind)
    ensures id == -1 ==> forall j: nat :: i <= j < |SHORT_IDS| ==> Ascii(SHORT_IDS[j]) != kind
    decreases |SHORT_IDS| - i
  {
    if i == |SHORT_IDS| then -1
    else if Ascii(SHORT_IDS[i]) == kind then i
    else ShortIdFrom(kind, i + 1)
  }

  /** The contents of a message's packet; a type over twelve bytes has none. */
  function Frame(kind: seq<byte>, payload: seq<byte>): (r: Option<seq<byte>>)
    ensures r.Some? ==> |payload| < |r.value| <= |payload| + 13
  {
    var id := ShortIdFrom(kind, 1);
    if id > 0 then
      assert |SHORT_IDS| == 29;
      Some([id] + payload)
    else if |kind| > 12 then None
    else Some([0] + kind + Zeros(12 - |kind|) + payload)
  }

  /** The index of the first zero byte, or the length. */
  function FirstZero(s: seq<byte>): (k: nat)
    ensures k <= |s| && (forall i: nat :: i < k ==> s[i] != 0) && (k < |s| ==> s[k] == 0)
  {
    if |s| == 0 || s[0] == 0 then 0 else 1 + FirstZero(s[1..])
  }

  predicate Printable(s: seq<byte>) {
    forall i: nat :: i < |s| ==> 0x20 <= s[i] <= 0x7f
  }

  /** A twelve-byte type: printable bytes, then nothing but zeros. */
  function ParseKind(mt: seq<byte>): Option<seq<byte>> {
    var k := FirstZero(mt);
    if Printable(mt[..k]) && (forall i: nat :: k <= i < |mt| ==> mt[i] == 0) then Some(mt[..k]) else None
  }

  /** The message in a packet's contents; contents with no valid type hold none. */
  function ParseContents(s: seq<byte>): Option<Message> {
    if |s| == 0 then None
    else if s[0] == 0 then
      if |s| < 13 then None
      else match ParseKind(s[1..13]) {
        case None => None
        case Some(kind) => Some(Message(kind, s[13..]))
      }
    else match ShortIdName(s[0]) {
      case None => None
      case Some(kind) => Some(Message(kind, s[1..]))
    }
  }

  /** A type the other side will read back: one with an id, or at most twelve printable bytes. */
  predicate Sendable(kind: seq<byte>) {
    ShortIdFrom(kind, 1) > 0 || (|kind| <= 12 && Printable(kind))
  }

  /** A framed message parses to itself exactly when its type can be sent: the rest,
      types of at most twelve bytes that are not printable, parse to no message.
      A type is a C string, so it holds no zero byte. */
  lemma FrameRoundTrip(kind: seq<byte>, payload: seq<byte>)
    requires Frame(kind, payload).Some? && 0 !in kind
    ensures Sendable(kind) ==> ParseContents(Frame(kind, payload).value) == Some(Message(kind, payload))
    ensures !Sendable(kind) ==> ParseContents(Frame(kind, payload).value) == None
  {
    var s := Frame(kind, payload).value;
    var id := ShortIdFrom(kind, 1);
    if id > 0 {
      assert s[1..] == payload;
    } else {
      assert s[1..13] == kind + Zeros(12 - |kind|) && s[13..] == payload;
      PaddedKind(kind);
    }
  }

  /** The ids BIP324 assigns. */
  lemma ShortIds()
    ensures |SHORT_IDS| == 29 && forall id: byte :: ShortIdName(id) == if 1 <= id <= 28 then Some(Ascii(SHORT_IDS[id])) else None
  {
    hide Ascii;
  }

  lemma ShortIdsFrom1()
    ensures SHORT_IDS[1] == "addr"
    ensures SHORT_IDS[2] == "block"
    ensures SHORT_IDS[3] == "blocktxn"
    ensures SHORT_IDS[4] == "cmpctblock"
    ensures SHORT_IDS[5] == "feefilter"
    ensures SHORT_IDS[6] == "filteradd"
    ensures SHORT_IDS[7] == "filterclear"
  {
  }

  lemma ShortIdsFrom8()
    ensures SHORT_IDS[8] == "filterload"
    ensures SHORT_IDS[9] == "getblocks"
    ensures SHORT_IDS[10] == "getblocktxn"
    ensures SHORT_IDS[11] == "getdata"
    ensures SHORT_IDS[12] == "getheaders"
    ensures SHORT_IDS[13] == "headers"
    ensures SHORT_IDS[14] == "inv"
  {
  }

  lemma ShortIdsFrom15()
    ensures SHORT_IDS[15] == "mempool"
    ensures SHORT_IDS[16] == "merkleblock"
    ensures SHORT_IDS[17] == "notfound"
    ensures SHORT_IDS[18] == "ping"
    ensures SHORT_IDS[19] == "pong"
    ensures SHORT_IDS[20] == "sendcmpct"
    ensures SHORT_IDS[21] == "tx"
  {
  }

  lemma ShortIdsFrom22()
    ensures SHORT_IDS[22] == "getcfilters"
    ensures SHORT_IDS[23] == "cfilter"
    ensures SHORT_IDS[24] == "getcfheaders"
    ensures SHORT_IDS[25] == "cfheaders"
    ensures SHORT_IDS[26] == "getcfcheckpt"
    ensures SHORT_IDS[27] == "cfcheckpt"
    ensures SHORT_IDS[28] == "addrv2"
  {
  }

  /** A message has contents exactly when its type is at most twelve bytes. */
  lemma FramesExactly(kind: seq<byte>, payload: seq<byte>)
    ensures Frame(kind, payload).Some? <==> |kind| <= 12
  {
    var id := ShortIdFrom(kind, 1);
    if id > 0 { ShortNames(id); }
  }

  lemma ShortNames(id: int)
    requires 0 < id < |SHORT_IDS|
    ensures |SHORT_IDS[id]| <= 12
  {
  }

  /** What parses, and to what: an assigned id and the payload, or a zero, a printable type in twelve bytes and the payload. */
  lemma ParsesExactly(s: seq<byte>, m: Message)
    ensures ParseContents(s) == Some(m) <==>
      || (|s| > 0 && s[0] > 0 && ShortIdName(s[0]) == Some(m.kind) && s == [s[0]] + m.payload)
      || (|m.kind| <= 12 && 0 !in m.kind && Printable(m.kind) && s == [0] + m.kind + Zeros(12 - |m.kind|) + m.payload)
  {
    hide ShortIdName, Printable;
    if |s| >= 13 && s[0] == 0 {
      KindExactly(s[1..13], m.kind);
    }
  }

  lemma KindExactly(mt: seq<byte>, kind: seq<byte>)
    requires |mt| == 12
    ensures ParseKind(mt) == Some(kind) <==> |kind| <= 12 && 0 !in kind && Printable(kind) && mt == kind + Zeros(12 - |kind|)
  {
    var k := FirstZero(mt);
    if ParseKind(mt) == Some(kind) {
      assert mt == mt[..k] + mt[k..];
      assert mt[k..] == Zeros(12 - k);
    }
    if |kind| <= 12 && 0 !in kind && mt == kind + Zeros(12 - |kind|) { PaddedKind(kind); }
  }

  lemma PaddedKind(kind: seq<byte>)
    requires |kind| <= 12 && 0 !in kind
    ensures ParseKind(kind + Zeros(12 - |kind|)) == if Printable(kind) then Some(kind) else None
  {
    var mt := kind + Zeros(12 - |kind|);
    var k := FirstZero(mt);
    assert forall i: nat {:trigger mt[i]} :: i < |kind| ==> mt[i] == kind[i] && mt[i] in kind;
    assert forall i: nat :: |kind| <= i < 12 ==> mt[i] == 0;
    assert |kind| < 12 ==> mt[|kind|] == 0;
    assert mt[..k] == kind;
  }
}
