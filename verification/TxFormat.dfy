/** The serialized form of a transaction, written out, and that the walks accept exactly that. */
module TxFormat {
  import opened Bytes
  import opened Words
  import opened TxLayout
  import opened WitnessStrip

  /** A sized string between fixed bytes: an input (36 bytes of outpoint, 4 of sequence), an output (8 bytes of value), or an item
      of a witness stack. */
  datatype Rec = Rec(pre: seq<byte>, text: seq<byte>, post: seq<byte>)

  datatype Tx = Tx(version: seq<byte>, ins: seq<Rec>, outs: seq<Rec>, stacks: Option<seq<seq<Rec>>>, locktime: seq<byte>)

  ghost predicate Sized(r: Rec, pre: nat, post: nat) {
    |r.pre| == pre && |r.post| == post && |r.text| < W64
  }

  ghost predicate AllSized(rs: seq<Rec>, pre: nat, post: nat) {
    |rs| < W64 && forall i: nat :: i < |rs| ==> Sized(rs[i], pre, post)
  }

  ghost predicate StacksSized(ws: seq<seq<Rec>>) {
    forall i: nat :: i < |ws| ==> AllSized(ws[i], 0, 0)
  }

  /** What can be serialized: at least one input, and a witness stack for each input where there are any. */
  ghost predicate Proper(t: Tx) {
    && |t.version| == 4 && |t.locktime| == 4 && |t.ins| > 0 && AllSized(t.ins, 36, 4) && AllSized(t.outs, 8, 0)
    && (t.stacks.Some? ==> |t.stacks.value| == |t.ins| && StacksSized(t.stacks.value))
  }

  function PutRec(r: Rec): seq<byte> {
    r.pre + PutCs(|r.text|) + r.text + r.post
  }

  function PutRecs(rs: seq<Rec>): seq<byte> {
    if |rs| == 0 then [] else PutRecs(rs[..|rs| - 1]) + PutRec(rs[|rs| - 1])
  }

  function PutStack(rs: seq<Rec>): seq<byte> {
    PutCs(|rs|) + PutRecs(rs)
  }

  function PutStacks(ws: seq<seq<Rec>>): seq<byte> {
    if |ws| == 0 then [] else PutStacks(ws[..|ws| - 1]) + PutStack(ws[|ws| - 1])
  }

  function PutBody(t: Tx): seq<byte> {
    PutCs(|t.ins|) + PutRecs(t.ins) + PutCs(|t.outs|) + PutRecs(t.outs)
  }

  /** The transaction as it is sent: with marker, flag and stacks where it has a witness. */
  function Put(t: Tx): seq<byte> {
    t.version + (if t.stacks.Some? then [0, 1] else []) + PutBody(t) + (if t.stacks.Some? then PutStacks(t.stacks.value) else []) + t.locktime
  }

  // ---- what was written is walked ----

  lemma ReadPut(a: seq<byte>, n: nat, rest: seq<byte>)
    requires n < W64
    ensures ReadCs(a + PutCs(n) + rest, |a|) == Some((n, |a| + |PutCs(n)|))
  {
    hide LittleEndian, FromLittleEndian, Pow256;
    Widths();
    var b, c := a + PutCs(n) + rest, PutCs(n);
    assert b[|a|..|a| + |c|] == c;
    assert b[|a|] == c[0];
    if n >= 0xfd {
      var k := |c| - 1;
      LittleEndianRoundTrip(n, k);
      assert b[|a| + 1..|a| + 1 + k] == c[1..];
    }
  }

  lemma RecordPut(a: seq<byte>, r: Rec, rest: seq<byte>)
    requires |r.text| < W64
    ensures RecordEnd(a + PutRec(r) + rest, |a|, |r.pre|, |r.post|) == Some(|a| + |PutRec(r)|)
  {
    hide ReadCs, PutCs;
    var b := a + PutRec(r) + rest;
    assert b == (a + r.pre) + PutCs(|r.text|) + (r.text + r.post + rest);
    ReadPut(a + r.pre, |r.text|, r.text + r.post + rest);
  }

  lemma {:induction false} RecordsPut(a: seq<byte>, rs: seq<Rec>, rest: seq<byte>, pre: nat, post: nat)
    requires AllSized(rs, pre, post)
    ensures Records(a + PutRecs(rs) + rest, |a|, |rs|, pre, post) == Some(|a| + |PutRecs(rs)|)
  {
    hide RecordEnd, PutRec;
    if |rs| > 0 {
      var n := |rs| - 1;
      var front, last := PutRecs(rs[..n]), PutRec(rs[n]);
      assert a + PutRecs(rs) + rest == a + front + (last + rest) == (a + front) + last + rest;
      RecordsPut(a, rs[..n], last + rest, pre, post);
      assert Sized(rs[n], pre, post);
      RecordPut(a + front, rs[n], rest);
    }
  }

  lemma StackPut(a: seq<byte>, rs: seq<Rec>, rest: seq<byte>)
    requires AllSized(rs, 0, 0)
    ensures StackEnd(a + PutStack(rs) + rest, |a|) == Some(|a| + |PutStack(rs)|)
  {
    hide ReadCs, Records, PutCs, PutRecs;
    var c, d := PutCs(|rs|), PutRecs(rs);
    assert a + PutStack(rs) + rest == a + c + (d + rest) == (a + c) + d + rest;
    ReadPut(a, |rs|, d + rest);
    RecordsPut(a + c, rs, rest, 0, 0);
  }

  lemma {:induction false} StacksPut(a: seq<byte>, ws: seq<seq<Rec>>, rest: seq<byte>)
    requires StacksSized(ws)
    ensures Stacks(a + PutStacks(ws) + rest, |a|, |ws|) == Some(|a| + |PutStacks(ws)|)
  {
    hide StackEnd, PutStack, AllSized;
    if |ws| > 0 {
      var n := |ws| - 1;
      var front, last := PutStacks(ws[..n]), PutStack(ws[n]);
      assert a + PutStacks(ws) + rest == a + front + (last + rest) == (a + front) + last + rest;
      StacksPut(a, ws[..n], last + rest);
      StackPut(a + front, ws[n], rest);
    }
  }

  /** The places of a written transaction's parts. */
  ghost function ShapePut(t: Tx): Shape {
    var at := 4 + if t.stacks.Some? then 2 else 0;
    var ins := at + |PutCs(|t.ins|)|;
    var outs := ins + |PutRecs(t.ins)|;
    var body := outs + |PutCs(|t.outs|)|;
    var end := body + |PutRecs(t.outs)|;
    Shape(t.stacks.Some?, |t.ins|, ins, outs, |t.outs|, body, end, end + if t.stacks.Some? then |PutStacks(t.stacks.value)| else 0)
  }

  lemma BodyPut(a: seq<byte>, t: Tx, rest: seq<byte>)
    requires Proper(t) && |a| == 4 + if t.stacks.Some? then 2 else 0
    ensures BodyOf(a + PutBody(t) + rest, |a|) == Some(ShapePut(t).(lock := ShapePut(t).end))
  {
    hide ReadCs, Records, PutCs, PutRecs, AllSized;
    var c, d, e, f := PutCs(|t.ins|), PutRecs(t.ins), PutCs(|t.outs|), PutRecs(t.outs);
    var b := a + PutBody(t) + rest;
    assert b == a + c + (d + e + f + rest) == (a + c) + d + (e + f + rest) == (a + c + d) + e + (f + rest) == (a + c + d + e) + f + rest;
    SizedFew(t.ins, 36, 4); SizedFew(t.outs, 8, 0);
    ReadPut(a, |t.ins|, d + e + f + rest);
    RecordsPut(a + c, t.ins, e + f + rest, 36, 4);
    ReadPut(a + c + d, |t.outs|, f + rest);
    RecordsPut(a + c + d + e, t.outs, rest, 8, 0);
  }

  lemma SizedFew(rs: seq<Rec>, pre: nat, post: nat)
    requires AllSized(rs, pre, post)
    ensures |rs| < W64
  {
  }

  lemma PutLong(t: Tx)
    requires Proper(t)
    ensures |PutBody(t)| >= 43 && PutBody(t)[0] != 0
  {
    var n := |t.ins| - 1;
    assert Sized(t.ins[n], 36, 4);
    assert |PutRec(t.ins[n])| >= 41;
    assert PutBody(t)[0] == PutCs(|t.ins|)[0];
  }

  /** A transaction that was written is accepted, by a reader that knows of witnesses if it has one, with every part in its place. */
  lemma WrittenIsRead(t: Tx, rest: seq<byte>, aware: bool)
    requires Proper(t) && (t.stacks.Some? ==> aware)
    ensures ShapeOf(Put(t) + rest, aware) == Some(ShapePut(t))
  {
    hide BodyOf, PutBody, Stacks, PutStacks, AllSized, StacksSized;
    PutLong(t);
    var b, seg := Put(t) + rest, t.stacks.Some?;
    var a := t.version + if seg then [0, 1] else [];
    var w := if seg then PutStacks(t.stacks.value) else [];
    assert b == a + PutBody(t) + (w + t.locktime + rest) == (a + PutBody(t)) + w + (t.locktime + rest);
    assert CountAt(b, aware) == |a| by { if !seg { assert b[4] == PutBody(t)[0]; } }
    BodyPut(a, t, w + t.locktime + rest);
    assert ShapePut(t).end == |a + PutBody(t)| by { BodyLength(t); }
    if seg { StacksPut(a + PutBody(t), t.stacks.value, t.locktime + rest); }
  }

  lemma BodyLength(t: Tx)
    ensures ShapePut(t).end == 4 + (if t.stacks.Some? then 2 else 0) + |PutBody(t)|
  {
  }

  // ---- what is walked was written ----

  /** Five places in order cut the bytes between the first and the last in four. */
  lemma CutInFour(b: seq<byte>, i: nat, j: nat, k: nat, l: nat, m: nat)
    requires i <= j <= k <= l <= m <= |b|
    ensures b[i..m] == b[i..j] + b[j..k] + b[k..l] + b[l..m]
  {
    assert b[i..k] == b[i..j] + b[j..k];
    assert b[i..l] == b[i..k] + b[k..l];
    assert b[i..m] == b[i..l] + b[l..m];
  }

  lemma RecordIs(b: seq<byte>, q: nat, pre: nat, post: nat) returns (r: Rec)
    requires RecordEnd(b, q, pre, post).Some?
    ensures Sized(r, pre, post) && q <= RecordEnd(b, q, pre, post).value <= |b| && b[q..RecordEnd(b, q, pre, post).value] == PutRec(r)
  {
    hide ReadCs, PutCs;
    ReadCsCanonical(b, q + pre);
    var (n, x) := ReadCs(b, q + pre).value;
    r := Rec(b[q..q + pre], b[x..x + n], b[x + n..x + n + post]);
    CutInFour(b, q, q + pre, x, x + n, x + n + post);
  }

  lemma {:induction false} RecordsAre(b: seq<byte>, q: nat, n: nat, pre: nat, post: nat) returns (rs: seq<Rec>)
    requires q <= |b| && Records(b, q, n, pre, post).Some? && n < W64
    ensures |rs| == n && AllSized(rs, pre, post) && q <= Records(b, q, n, pre, post).value <= |b|
    ensures b[q..Records(b, q, n, pre, post).value] == PutRecs(rs)
  {
    hide RecordEnd, PutRec, Sized;
    if n == 0 {
      rs := [];
      assert b[q..q] == [];
    } else {
      var front := RecordsAre(b, q, n - 1, pre, post);
      var x := Records(b, q, n - 1, pre, post).value;
      var r := RecordIs(b, x, pre, post);
      var e := RecordEnd(b, x, pre, post).value;
      rs := front + [r];
      assert rs[..n - 1] == front;
      assert b[q..e] == b[q..x] + b[x..e];
    }
  }

  lemma StackIs(b: seq<byte>, q: nat) returns (rs: seq<Rec>)
    requires q <= |b| && StackEnd(b, q).Some?
    ensures AllSized(rs, 0, 0) && q <= StackEnd(b, q).value <= |b| && b[q..StackEnd(b, q).value] == PutStack(rs)
  {
    hide ReadCs, Records, PutCs, PutRecs, AllSized;
    ReadCsCanonical(b, q);
    var (n, x) := ReadCs(b, q).value;
    rs := RecordsAre(b, x, n, 0, 0);
    var e := StackEnd(b, q).value;
    assert b[q..e] == b[q..x] + b[x..e];
  }

  lemma {:induction false} StacksAre(b: seq<byte>, q: nat, n: nat) returns (ws: seq<seq<Rec>>)
    requires q <= |b| && Stacks(b, q, n).Some?
    ensures |ws| == n && StacksSized(ws) && q <= Stacks(b, q, n).value <= |b| && b[q..Stacks(b, q, n).value] == PutStacks(ws)
  {
    hide StackEnd, PutStack, AllSized;
    if n == 0 {
      ws := [];
      assert b[q..q] == [];
    } else {
      var front := StacksAre(b, q, n - 1);
      var x := Stacks(b, q, n - 1).value;
      var w := StackIs(b, x);
      var e := StackEnd(b, x).value;
      ws := front + [w];
      assert ws[..n - 1] == front;
      assert b[q..e] == b[q..x] + b[x..e];
    }
  }

  lemma BodyIs(b: seq<byte>, p: nat) returns (ins: seq<Rec>, outs: seq<Rec>)
    requires BodyOf(b, p).Some?
    ensures p <= BodyOf(b, p).value.end <= |b| && |ins| == BodyOf(b, p).value.nin > 0 && AllSized(ins, 36, 4) && AllSized(outs, 8, 0)
    ensures b[p..BodyOf(b, p).value.end] == PutCs(|ins|) + PutRecs(ins) + PutCs(|outs|) + PutRecs(outs)
  {
    hide ReadCs, Records, PutCs, PutRecs, AllSized, BodyOf;
    BodyOrder(b, p);
    var s := BodyOf(b, p).value;
    ReadCsCanonical(b, p);
    ReadCsCanonical(b, s.outs);
    ins := RecordsAre(b, s.ins, s.nin, 36, 4);
    outs := RecordsAre(b, s.body, s.nout, 8, 0);
    CutInFour(b, p, s.ins, s.outs, s.body, s.end);
  }

  lemma StacksOf(b: seq<byte>, aware: bool) returns (stacks: Option<seq<seq<Rec>>>)
    requires ShapeOf(b, aware).Some?
    ensures var s := ShapeOf(b, aware).value;
      && s.end <= s.lock <= |b| && stacks.Some? == s.segwit && (s.segwit ==> |stacks.value| == s.nin && StacksSized(stacks.value))
      && b[s.end..s.lock] == if s.segwit then PutStacks(stacks.value) else []
  {
    hide BodyOf, Stacks, PutStacks, StacksSized;
    ShapeOrder(b, aware);
    var s := ShapeOf(b, aware).value;
    stacks := None;
    if s.segwit {
      var ws := StacksAre(b, s.end, s.nin);
      stacks := Some(ws);
    }
  }

  lemma Opening(b: seq<byte>, aware: bool)
    requires |b| >= 10
    ensures var at := CountAt(b, aware); b[..at] == b[..4] + (if at == 6 then [0, 1] else []) && (at == 6 ==> aware) && (at == 4 || at == 6)
  {
    var at := CountAt(b, aware);
    if at == 6 { assert b[..6] == b[..4] + [b[4], b[5]]; }
  }

  /** Whatever is accepted is a written transaction, with a witness only for a reader that knows of them, and perhaps bytes after it. */
  lemma ReadIsWritten(b: seq<byte>, aware: bool) returns (t: Tx, rest: seq<byte>)
    requires ShapeOf(b, aware).Some?
    ensures Proper(t) && (t.stacks.Some? ==> aware) && b == Put(t) + rest && ShapeOf(b, aware).value == ShapePut(t)
  {
    hide BodyOf, Stacks, PutRecs, PutCs, PutStacks, AllSized, StacksSized, ShapeOf, ShapePut, CountAt;
    ShapeOrder(b, aware);
    var at, s := CountAt(b, aware), ShapeOf(b, aware).value;
    var ins, outs := BodyIs(b, at);
    var stacks := StacksOf(b, aware);
    Opening(b, aware);
    t, rest := Tx(b[..4], ins, outs, stacks, b[s.lock..s.lock + 4]), b[s.lock + 4..];
    CutInFour(b, 0, at, s.end, s.lock, s.lock + 4);
    assert b == b[..s.lock + 4] + rest && b[..s.lock + 4] == b[0..s.lock + 4] && b[0..at] == b[..at];
    assert b == Put(t) + rest;
    WrittenIsRead(t, rest, aware);
  }

  /** Stripping a written transaction leaves the same transaction written without its witness. */
  lemma StripUnwrites(t: Tx, rest: seq<byte>)
    requires Proper(t)
    ensures Stripped(Put(t) + rest, ShapePut(t)) == Put(t.(stacks := None))
  {
    BodyLength(t);
    hide PutBody, PutStacks, ShapePut, PutRecs;
    var b, s, seg := Put(t) + rest, ShapePut(t), t.stacks.Some?;
    PlacesPut(t);
    var a := t.version + if seg then [0, 1] else [];
    var w := if seg then PutStacks(t.stacks.value) else [];
    assert b == a + PutBody(t) + w + t.locktime + rest;
    assert b[..4] == t.version && b[|a|..s.end] == PutBody(t) && b[s.lock..s.lock + 4] == t.locktime;
    SameBody(t);
  }

  lemma PlacesPut(t: Tx)
    ensures ShapePut(t).segwit == t.stacks.Some?
    ensures ShapePut(t).lock == ShapePut(t).end + if t.stacks.Some? then |PutStacks(t.stacks.value)| else 0
  {
  }

  lemma SameBody(t: Tx)
    ensures PutBody(t.(stacks := None)) == PutBody(t)
  {
  }

  // ---- what the signature hashes read of a written transaction ----

  lemma {:induction false} PutRecsSplit(rs: seq<Rec>, i: nat)
    requires i <= |rs|
    ensures PutRecs(rs) == PutRecs(rs[..i]) + PutRecs(rs[i..])
    decreases |rs|
  {
    hide PutRec;
    if i == |rs| {
      assert rs[..i] == rs && rs[i..] == [];
    } else {
      var n := |rs| - 1;
      PutRecsSplit(rs[..n], i);
      assert rs[..n][..i] == rs[..i] && rs[..n][i..] == rs[i..][..n - i] && rs[i..][n - i] == rs[n];
    }
  }

  /** Input i of a written transaction begins where those before it end. */
  lemma InputPlace(t: Tx, rest: seq<byte>, i: nat)
    requires Proper(t) && i <= |t.ins|
    ensures InputAt(Put(t) + rest, ShapePut(t), i) == ShapePut(t).ins + |PutRecs(t.ins[..i])|
  {
    hide Records, PutCs, PutRecs, PutStacks;
    var seg := t.stacks.Some?;
    var a := t.version + (if seg then [0, 1] else []) + PutCs(|t.ins|);
    var w := if seg then PutStacks(t.stacks.value) else [];
    var after := PutCs(|t.outs|) + PutRecs(t.outs) + w + t.locktime + rest;
    PutRecsSplit(t.ins, i);
    assert Put(t) + rest == a + PutRecs(t.ins[..i]) + (PutRecs(t.ins[i..]) + after);
    RecordsPut(a, t.ins[..i], PutRecs(t.ins[i..]) + after, 36, 4);
  }

  /** The bytes of a written transaction from a place on are those of input i. */
  lemma InputBytes(t: Tx, rest: seq<byte>, i: nat)
    requires Proper(t) && i < |t.ins|
    ensures var x := ShapePut(t).ins + |PutRecs(t.ins[..i])|;
      Slice(Put(t) + rest, x, x + |PutRec(t.ins[i])|) == PutRec(t.ins[i]) && |PutRecs(t.ins[..i + 1])| == |PutRecs(t.ins[..i])| + |PutRec(t.ins[i])|
  {
    hide PutCs, PutRecs, PutStacks, PutRec;
    var seg := t.stacks.Some?;
    var a := t.version + (if seg then [0, 1] else []) + PutCs(|t.ins|);
    var w := if seg then PutStacks(t.stacks.value) else [];
    var after := PutCs(|t.outs|) + PutRecs(t.outs) + w + t.locktime + rest;
    var front, r := PutRecs(t.ins[..i]), PutRec(t.ins[i]);
    PutRecsSplit(t.ins, i + 1);
    PutRecsLast(t.ins[..i + 1]);
    assert t.ins[..i + 1][..i] == t.ins[..i];
    assert Put(t) + rest == (a + front) + r + (PutRecs(t.ins[i + 1..]) + after);
  }

  lemma PutRecsLast(rs: seq<Rec>)
    requires |rs| > 0
    ensures PutRecs(rs) == PutRecs(rs[..|rs| - 1]) + PutRec(rs[|rs| - 1])
  {
  }

  lemma InputSized(t: Tx, i: nat)
    requires Proper(t) && i < |t.ins|
    ensures Sized(t.ins[i], 36, 4)
  {
  }

  lemma ReadAt(b: seq<byte>, s: Shape, i: nat, x: nat, r: Rec)
    requires InputAt(b, s, i) == x && InputAt(b, s, i + 1) == x + |PutRec(r)|
    requires Slice(b, x, x + 36) == r.pre && Slice(b, x + |PutRec(r)| - 4, x + |PutRec(r)|) == r.post
    ensures Outpoint(b, s, i) == r.pre && Sequence(b, s, i) == r.post
  {
    hide InputAt, PutRec, Slice;
  }

  lemma {:induction false} InputIsWritten(t: Tx, rest: seq<byte>, i: nat)
    requires Proper(t) && i < |t.ins|
    ensures Outpoint(Put(t) + rest, ShapePut(t), i) == t.ins[i].pre && Sequence(Put(t) + rest, ShapePut(t), i) == t.ins[i].post
  {
    hide *;
    var b, s, r := Put(t) + rest, ShapePut(t), t.ins[i];
    var x := s.ins + |PutRecs(t.ins[..i])|;
    InputSized(t, i);
    InputBytes(t, rest, i);
    InputPlace(t, rest, i); InputPlace(t, rest, i + 1);
    Edges(b, x, r);
    ReadAt(b, s, i, x, r);
  }

  /** Version, outpoints, sequences and locktime are read as they were written. */
  lemma ViewIsWritten(t: Tx, rest: seq<byte>)
    requires Proper(t)
    ensures var v := ViewOf(Put(t) + rest, ShapePut(t));
      && v.version == t.version && v.locktime == t.locktime && |v.outpoints| == |v.sequences| == |t.ins|
      && forall i: nat :: i < |t.ins| ==> v.outpoints[i] == t.ins[i].pre && v.sequences[i] == t.ins[i].post
  {
    hide ShapePut, Put, Outpoint, Sequence, Proper, Slice;
    EndsWritten(t, rest);
    forall i: nat | i < |t.ins|
      ensures Outpoint(Put(t) + rest, ShapePut(t), i) == t.ins[i].pre && Sequence(Put(t) + rest, ShapePut(t), i) == t.ins[i].post
    {
      InputIsWritten(t, rest, i);
    }
  }

  lemma Edges(b: seq<byte>, x: nat, r: Rec)
    requires Sized(r, 36, 4) && Slice(b, x, x + |PutRec(r)|) == PutRec(r)
    ensures Slice(b, x, x + 36) == r.pre && Slice(b, x + |PutRec(r)| - 4, x + |PutRec(r)|) == r.post
  {
    var n := |PutRec(r)|;
    assert n >= 41;
    assert b[x..x + n][..36] == b[x..x + 36] && b[x..x + n][n - 4..] == b[x + n - 4..x + n];
  }

  lemma EndsWritten(t: Tx, rest: seq<byte>)
    requires Proper(t)
    ensures var b, s := Put(t) + rest, ShapePut(t); Slice(b, 0, 4) == t.version && Slice(b, s.lock, s.lock + 4) == t.locktime && s.nin == |t.ins|
  {
    BodyLength(t); PlacesPut(t);
    hide PutBody, PutStacks, ShapePut;
    NumberPut(t);
    var b, s, seg := Put(t) + rest, ShapePut(t), t.stacks.Some?;
    var a := t.version + if seg then [0, 1] else [];
    var w := if seg then PutStacks(t.stacks.value) else [];
    assert b == a + PutBody(t) + w + t.locktime + rest;
  }

  lemma NumberPut(t: Tx)
    ensures ShapePut(t).nin == |t.ins| && ShapePut(t).nout == |t.outs|
  {
  }
}
