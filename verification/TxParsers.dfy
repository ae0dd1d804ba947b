/** The bounded single-pass parsers and the witness stripper, as loops over a cursor. */
module TxParsers {
  import opened Bytes
  import opened TxLayout
  import opened WitnessStrip

  /** What the parsers accept: a transaction whose offsets fit 32 bits and the table. */
  function Accepted(b: seq<byte>, aware: bool): Option<Shape> {
    match ShapeOf(b, aware)
    case None => None
    case Some(s) => if |b| <= 0xffff_ffff && s.nin + 1 + s.nout + 1 <= OFF_ENTRIES then Some(s) else None
  }

  /** Whatever the witness-aware parser accepts, the other accepts once it is stripped. */
  lemma StrippedAccepted(b: seq<byte>, s: Shape)
    requires Accepted(b, true) == Some(s)
    ensures Accepted(Stripped(b, s), false) == Some(StrippedShape(s))
  {
    hide ShapeOf, Stripped;
    StripKeepsShape(b, s, false);
  }

  /** A run of records, walked past. */
  method Skip(b: seq<byte>, q: nat, n: nat, pre: nat, post: nat) returns (r: Option<nat>)
    ensures r == Records(b, q, n, pre, post)
  {
    hide RecordEnd;
    var at, i := q, 0;
    while i < n
      invariant 0 <= i <= n && Records(b, q, i, pre, post) == Some(at)
    {
      var e := RecordEnd(b, at, pre, post);
      if e.None? {
        StaysNone(b, q, n, i + 1, pre, post);
        return None;
      }
      at, i := e.value, i + 1;
    }
    return Some(at);
  }

  lemma {:induction false} StaysNone(b: seq<byte>, q: nat, n: nat, i: nat, pre: nat, post: nat)
    requires i <= n && Records(b, q, i, pre, post).None?
    ensures Records(b, q, n, pre, post).None?
  {
    if i < n { StaysNone(b, q, n - 1, i, pre, post); }
  }

  /** A run of records, each one's offset written to the table, and the end's after them. */
  method Walk(b: seq<byte>, q: nat, n: nat, pre: nat, post: nat, off: array<nat>, base: nat) returns (r: Option<nat>)
    requires base + n < off.Length
    modifies off
    ensures r == Records(b, q, n, pre, post)
    ensures r.Some? ==> forall i: nat :: i <= n ==> off[base + i] == Offset(b, q, i, pre, post)
    ensures forall i: nat :: i < base ==> off[i] == old(off[i])
  {
    hide RecordEnd;
    var at, i := q, 0;
    while i < n
      invariant 0 <= i <= n && Records(b, q, i, pre, post) == Some(at)
      invariant forall j: nat :: j < i ==> off[base + j] == Offset(b, q, j, pre, post)
      invariant forall j: nat :: j < base ==> off[j] == old(off[j])
    {
      off[base + i] := at;
      var e := RecordEnd(b, at, pre, post);
      if e.None? {
        StaysNone(b, q, n, i + 1, pre, post);
        return None;
      }
      at, i := e.value, i + 1;
    }
    off[base + n] := at;
    return Some(at);
  }

  /** The witness stacks, one for each input. */
  method SkipStacks(b: seq<byte>, q: nat, n: nat) returns (r: Option<nat>)
    ensures r == Stacks(b, q, n)
  {
    hide ReadCs, Records;
    var at, i := q, 0;
    while i < n
      invariant 0 <= i <= n && Stacks(b, q, i) == Some(at)
    {
      var count := ReadCs(b, at);
      if count.None? {
        StacksStayNone(b, q, n, i + 1);
        return None;
      }
      var e := Skip(b, count.value.1, count.value.0, 0, 0);
      if e.None? {
        StacksStayNone(b, q, n, i + 1);
        return None;
      }
      at, i := e.value, i + 1;
    }
    return Some(at);
  }

  lemma {:induction false} StacksStayNone(b: seq<byte>, q: nat, n: nat, i: nat)
    requires i <= n && Stacks(b, q, i).None?
    ensures Stacks(b, q, n).None?
  {
    hide StackEnd;
    if i < n { StacksStayNone(b, q, n - 1, i); }
  }

  /** The table holds every input's and every output's offset. */
  ghost predicate Recorded(off: seq<nat>, b: seq<byte>, s: Shape) {
    && s.nin + 1 + s.nout < |off|
    && (forall i: nat :: i <= s.nin ==> off[i] == InputAt(b, s, i))
    && (forall i: nat :: i <= s.nout ==> off[s.nin + 1 + i] == OutputAt(b, s, i))
  }

  /** Inputs and outputs from the input count on. */
  method ParseBody(b: seq<byte>, p: nat, off: array<nat>) returns (r: Option<Shape>)
    requires off.Length == OFF_ENTRIES
    modifies off
    ensures r.Some? ==> BodyOf(b, p) == r && r.value.nin + 1 + r.value.nout + 1 <= OFF_ENTRIES && Recorded(off[..], b, r.value)
    ensures r.None? && BodyOf(b, p).Some? ==> BodyOf(b, p).value.nin + 1 + BodyOf(b, p).value.nout + 1 > OFF_ENTRIES
  {
    hide ReadCs, Records, OFF_ENTRIES;
    var count := ReadCs(b, p);
    if count.None? || count.value.0 == 0 || count.value.0 + 1 > OFF_ENTRIES { return None; }
    var nin, ins := count.value.0, count.value.1;
    var outs := Walk(b, ins, nin, 36, 4, off, 0);
    if outs.None? { return None; }
    var outCount := ReadCs(b, outs.value);
    if outCount.None? { return None; }
    var nout, body := outCount.value.0, outCount.value.1;
    if nin + 1 + nout + 1 > OFF_ENTRIES { return None; }
    ghost var first := off[..];
    var end := Walk(b, body, nout, 8, 0, off, nin + 1);
    if end.None? { return None; }
    r := Some(Shape(p == 6, nin, ins, outs.value, nout, body, end.value, end.value));
    assert forall i: nat :: i <= nin ==> off[i] == first[i];
  }

  /** The parser that knows of witnesses. */
  method ParseSegwit(b: seq<byte>, off: array<nat>) returns (r: Option<Shape>)
    requires off.Length == OFF_ENTRIES
    modifies off
    ensures r == Accepted(b, true)
    ensures r.Some? ==> Recorded(off[..], b, r.value)
  {
    hide BodyOf, Stacks, OFF_ENTRIES, InputAt, OutputAt;
    if |b| < 10 || |b| > 0xffff_ffff { return None; }
    var p := if b[4] == 0 && b[5] == 1 then 6 else 4;
    r := ParseBody(b, p, off);
    if r.None? { return; }
    BodyOrder(b, p);
    var s := r.value;
    var lock := Some(s.end);
    if p == 6 { lock := SkipStacks(b, s.end, s.nin); }
    if lock.None? || lock.value > |b| || |b| - lock.value < 4 { return None; }
    r := Some(s.(lock := lock.value));
    SameTable(off[..], b, s, r.value);
  }

  lemma SameTable(off: seq<nat>, b: seq<byte>, s: Shape, t: Shape)
    requires Recorded(off, b, s) && t == s.(lock := t.lock)
    ensures Recorded(off, b, t)
  {
    hide Offset;
    assert forall i: nat :: InputAt(b, t, i) == InputAt(b, s, i);
    assert forall i: nat :: OutputAt(b, t, i) == OutputAt(b, s, i);
  }

  /** The parser of stripped transactions. */
  method ParseStripped(b: seq<byte>, off: array<nat>) returns (r: Option<Shape>)
    requires off.Length == OFF_ENTRIES
    modifies off
    ensures r == Accepted(b, false)
    ensures r.Some? ==> Recorded(off[..], b, r.value)
  {
    hide BodyOf, Stacks, OFF_ENTRIES, InputAt, OutputAt;
    if |b| < 10 || |b| > 0xffff_ffff { return None; }
    r := ParseBody(b, 4, off);
    if r.None? { return; }
    BodyOrder(b, 4);
    if |b| - r.value.end < 4 { return None; }
  }

  /** Bytes added after the first d of a buffer, when there is room. */
  method Append(out: array<byte>, d: nat, s: seq<byte>) returns (ok: bool)
    requires d <= out.Length
    modifies out
    ensures ok == (d + |s| <= out.Length)
    ensures ok ==> out[..d + |s|] == old(out[..d]) + s
  {
    ok := d + |s| <= out.Length;
    if !ok { return; }
    for i := 0 to |s|
      invariant out[..d + i] == old(out[..d]) + s[..i]
    {
      out[d + i] := s[i];
    }
  }

  /** One input written out again after what is in the buffer: the same bytes, since its length was shortest. */
  method CopyInput(b: seq<byte>, it: nat, out: array<byte>, d: nat) returns (ok: bool, e: nat)
    requires d <= out.Length && RecordEnd(b, it, 36, 4).Some?
    modifies out
    ensures RecordEnd(b, it, 36, 4) == Some(e) && it <= e <= |b|
    ensures ok == (d + (e - it) <= out.Length)
    ensures ok ==> out[..d + (e - it)] == old(out[..d]) + b[it..e]
  {
    hide RecordEnd, ReadCs, PutCs, Slice;
    ghost var m, r := RecordFields(b, it, 36, 4);
    var (sl, q) := ReadCs(b, it + 36).value;
    SliceIs(b, it + 36, q);
    e := q + sl + 4;
    Joined(b, it, it + 36, q, q + sl, e);
    var len := PutCs(sl);
    ghost var had := out[..d];
    var p0, p2, p3 := b[it..it + 36], b[q..q + sl], b[q + sl..e];
    Regrouped(had, p0, len, p2, p3);
    ok := Append(out, d, p0);
    if !ok { return; }
    if d + 36 + |len| + sl + 4 > out.Length { return false, e; }
    AppendThree(out, d + 36, len, p2, p3);
  }

  method AppendThree(out: array<byte>, d: nat, a: seq<byte>, b: seq<byte>, c: seq<byte>)
    requires d + |a| + |b| + |c| <= out.Length
    modifies out
    ensures out[..d + |a| + |b| + |c|] == old(out[..d]) + a + b + c
  {
    var ok := Append(out, d, a);
    ok := Append(out, d + |a|, b);
    ok := Append(out, d + |a| + |b|, c);
  }

  lemma Regrouped(h: seq<byte>, a: seq<byte>, b: seq<byte>, c: seq<byte>, d: seq<byte>)
    ensures h + a + b + c + d == h + (a + b + c + d)
  {
    assert h + a + b == h + (a + b);
    assert h + (a + b) + c == h + (a + b + c);
  }

  /** The inputs written out again after what is in the buffer. */
  method CopyInputs(b: seq<byte>, ins: nat, n: nat, out: array<byte>, at: nat) returns (ok: bool, d: nat)
    requires ins <= |b| && at <= out.Length && Records(b, ins, n, 36, 4).Some?
    modifies out
    ensures ins <= Offset(b, ins, n, 36, 4) <= |b|
    ensures ok == (at + (Offset(b, ins, n, 36, 4) - ins) <= out.Length)
    ensures ok ==> d == at + (Offset(b, ins, n, 36, 4) - ins) && out[..d] == old(out[..at]) + b[ins..Offset(b, ins, n, 36, 4)]
  {
    hide Records, RecordEnd, Offset;
    ghost var end := Offset(b, ins, n, 36, 4);
    OffsetsInOrder(b, ins, n, 36, 4, n);
    OffsetStart(b, ins, 36, 4);
    var it := ins;
    d := at;
    assert out[..d] == old(out[..at]) + b[ins..it];
    for i := 0 to n
      invariant it == Offset(b, ins, i, 36, 4) && ins <= it <= end
      invariant d == at + (it - ins) <= out.Length && out[..d] == old(out[..at]) + b[ins..it]
    {
      OffsetsInOrder(b, ins, n, 36, 4, i);
      OffsetsInOrder(b, ins, n, 36, 4, i + 1);
      OffsetNext(b, ins, i, 36, 4);
      var e;
      ok, e := CopyInput(b, it, out, d);
      if !ok { return; }
      assert b[ins..it] + b[it..e] == b[ins..e];
      d, it := d + (e - it), e;
    }
    ok := true;
  }

  lemma OffsetStart(b: seq<byte>, q: nat, pre: nat, post: nat)
    ensures Offset(b, q, 0, pre, post) == q
  {
  }

  lemma OffsetNext(b: seq<byte>, q: nat, i: nat, pre: nat, post: nat)
    requires Records(b, q, i + 1, pre, post).Some?
    ensures RecordEnd(b, Offset(b, q, i, pre, post), pre, post) == Some(Offset(b, q, i + 1, pre, post))
  {
  }

  lemma SliceIs(b: seq<byte>, lo: nat, hi: nat)
    requires lo <= hi <= |b|
    ensures Slice(b, lo, hi) == b[lo..hi]
  {
  }

  lemma Joined(b: seq<byte>, p: nat, q: nat, r: nat, s: nat, e: nat)
    requires p <= q <= r <= s <= e <= |b|
    ensures b[p..e] == b[p..q] + b[q..r] + b[r..s] + b[s..e]
  {
    assert b[p..r] == b[p..q] + b[q..r];
    assert b[p..s] == b[p..r] + b[r..s];
    assert b[p..e] == b[p..s] + b[s..e];
  }

  /** The stripped transaction and its length; zero when the input is malformed or the buffer too small. */
  method StripWitness(b: seq<byte>, out: array<byte>) returns (r: nat)
    modifies out
    ensures ShapeOf(b, true).None? ==> r == 0
    ensures ShapeOf(b, true).Some? ==> var c := Stripped(b, ShapeOf(b, true).value);
      r == (if |c| <= out.Length then |c| else 0) && (|c| <= out.Length ==> out[..r] == c)
  {
    hide Records, RecordEnd, ReadCs, PutCs, Slice, Stacks, Same;
    if |b| < 10 { return 0; }
    var segwit := b[4] == 0 && b[5] == 1;
    var p := if segwit then 6 else 4;
    var count := ReadCs(b, p);
    if count.None? || count.value.0 == 0 { return 0; }
    var nin, ins := count.value.0, count.value.1;
    var outs := Skip(b, ins, nin, 36, 4);
    if outs.None? { return 0; }
    var outCount := ReadCs(b, outs.value);
    if outCount.None? { return 0; }
    var end := Skip(b, outCount.value.1, outCount.value.0, 8, 0);
    if end.None? { return 0; }
    var lock := end;
    if segwit {
      lock := SkipStacks(b, end.value, nin);
      if lock.None? { return 0; }
    }
    if lock.value > |b| || |b| - lock.value < 4 { return 0; }
    r := Rebuild(b, p, nin, ins, outs.value, end.value, lock.value, out);
  }

  /** The parts put together: version, inputs, outputs verbatim, locktime. */
  method Rebuild(b: seq<byte>, p: nat, nin: nat, ins: nat, outs: nat, end: nat, lock: nat, out: array<byte>) returns (r: nat)
    requires ShapeOf(b, true).Some? && p == (if ShapeOf(b, true).value.segwit then 6 else 4)
    requires var s := ShapeOf(b, true).value; nin == s.nin && ins == s.ins && outs == s.outs && end == s.end && lock == s.lock
    modifies out
    ensures var c := Stripped(b, ShapeOf(b, true).value);
      r == (if |c| <= out.Length then |c| else 0) && (|c| <= out.Length ==> out[..r] == c)
  {
    hide Records, RecordEnd, ReadCs, PutCs, Slice, ShapeOf, Same, Stripped, BodyOf;
    ghost var c := Parts(b, p, nin, ins, outs, end, lock);
    var count := PutCs(nin);
    var ok := Append(out, 0, b[..4]);
    if !ok { return 0; }
    assert out[..4] == b[..4];
    ok := Append(out, 4, count);
    if !ok { return 0; }
    assert out[..4 + |count|] == b[..4] + count;
    var d;
    ok, d := CopyInputs(b, ins, nin, out, 4 + |count|);
    if !ok { return 0; }
    assert out[..d] == b[..4] + count + b[ins..outs];
    ok := Append(out, d, b[outs..end]);
    if !ok { return 0; }
    assert out[..d + (end - outs)] == b[..4] + count + b[ins..outs] + b[outs..end];
    ok := Append(out, d + (end - outs), b[lock..lock + 4]);
    if !ok { return 0; }
    r := d + (end - outs) + 4;
  }

  /** What the rebuilt parts add up to. */
  lemma Parts(b: seq<byte>, p: nat, nin: nat, ins: nat, outs: nat, end: nat, lock: nat) returns (c: seq<byte>)
    requires ShapeOf(b, true).Some? && p == (if ShapeOf(b, true).value.segwit then 6 else 4)
    requires var s := ShapeOf(b, true).value; nin == s.nin && ins == s.ins && outs == s.outs && end == s.end && lock == s.lock
    ensures c == Stripped(b, ShapeOf(b, true).value) && 4 <= |b| && ins <= outs <= end <= |b| && lock + 4 <= |b|
    ensures Records(b, ins, nin, 36, 4).Some? && Offset(b, ins, nin, 36, 4) == outs
    ensures c == b[..4] + PutCs(nin) + b[ins..outs] + b[outs..end] + b[lock..lock + 4]
  {
    hide Records, RecordEnd, ReadCs, PutCs, ShapeOf, BodyOf;
    ShapeOrder(b, true);
    BodyOrder(b, p);
    ReadCsCanonical(b, p);
    OffsetEnd(b, ins, nin, 36, 4);
    c := Stripped(b, ShapeOf(b, true).value);
    assert b[p..end] == b[p..ins] + b[ins..outs] + b[outs..end];
  }
}
