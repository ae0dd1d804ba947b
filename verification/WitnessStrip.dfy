/** What a transaction reads as before and after its witness is stripped. */
module WitnessStrip {
  import opened Bytes
  import opened TxLayout

  /** The place of record i of a run, as a walk records it. */
  function Offset(b: seq<byte>, q: nat, i: nat, pre: nat, post: nat): nat {
    match Records(b, q, i, pre, post)
    case None => 0
    case Some(r) => r
  }

  function InputAt(b: seq<byte>, s: Shape, i: nat): nat {
    Offset(b, s.ins, i, 36, 4)
  }

  function OutputAt(b: seq<byte>, s: Shape, i: nat): nat {
    Offset(b, s.body, i, 8, 0)
  }

  /** Everything the signature hashes read: outpoints at the inputs' offsets, sequences before the next ones. */
  datatype View = View(version: seq<byte>, outpoints: seq<seq<byte>>, sequences: seq<seq<byte>>, locktime: seq<byte>)

  function ViewOf(b: seq<byte>, s: Shape): View {
    View(Slice(b, 0, 4), Outpoints(b, s), Sequences(b, s), Slice(b, s.lock, s.lock + 4))
  }

  function Outpoints(b: seq<byte>, s: Shape): (r: seq<seq<byte>>)
    ensures |r| == s.nin && forall i: nat :: i < s.nin ==> r[i] == Outpoint(b, s, i)
  {
    seq(s.nin, i requires 0 <= i => Outpoint(b, s, i))
  }

  function Sequences(b: seq<byte>, s: Shape): (r: seq<seq<byte>>)
    ensures |r| == s.nin && forall i: nat :: i < s.nin ==> r[i] == Sequence(b, s, i)
  {
    seq(s.nin, i requires 0 <= i => Sequence(b, s, i))
  }

  function Outpoint(b: seq<byte>, s: Shape, i: nat): seq<byte> {
    Slice(b, InputAt(b, s, i), InputAt(b, s, i) + 36)
  }

  function Sequence(b: seq<byte>, s: Shape, i: nat): seq<byte> {
    Slice(b, InputAt(b, s, i + 1) - 4, InputAt(b, s, i + 1))
  }

  /** The bytes of outputs lo up to hi, in place. */
  function OutputRange(b: seq<byte>, s: Shape, lo: nat, hi: nat): seq<byte> {
    Slice(b, OutputAt(b, s, lo), OutputAt(b, s, hi))
  }

  /** The shape a stripped transaction has. */
  function StrippedShape(s: Shape): Shape {
    Shape(false, s.nin, Back(s, s.ins), Back(s, s.outs), s.nout, Back(s, s.body), Back(s, s.end), Back(s, s.end))
  }

  function Back(s: Shape, x: nat): nat {
    if s.segwit && x >= 2 then x - 2 else x
  }

  /** Every offset of a run is there, in order, each record taking at least its fixed bytes and one more. */
  lemma {:induction false} OffsetsInOrder(b: seq<byte>, q: nat, n: nat, pre: nat, post: nat, i: nat)
    requires q <= |b| && Records(b, q, n, pre, post).Some? && i <= n
    ensures Records(b, q, i, pre, post).Some? && q <= Offset(b, q, i, pre, post) <= Offset(b, q, n, pre, post) <= |b|
    ensures i < n ==> Records(b, q, i + 1, pre, post).Some? && RecordEnd(b, Offset(b, q, i, pre, post), pre, post).Some?
    ensures i < n ==> Offset(b, q, i, pre, post) + pre + 1 + post <= Offset(b, q, i + 1, pre, post) <= |b|
    decreases n - i
  {
    hide ReadCs;
    RecordsGrow(b, q, n, pre, post);
    RecordsGrow(b, q, i, pre, post);
    if i < n {
      OffsetsInOrder(b, q, n, pre, post, i + 1);
      ReadCsCanonical(b, Offset(b, q, i, pre, post) + pre);
    }
  }

  /** Every offset of a run moved is moved with it. */
  lemma {:induction false} OffsetsMove(b: seq<byte>, q: nat, c: seq<byte>, r: nat, n: nat, i: nat, pre: nat, post: nat)
    requires q <= |b| && i <= n && Records(b, q, n, pre, post).Some? && q <= Offset(b, q, n, pre, post)
    requires Same(b, q, c, r, Offset(b, q, n, pre, post) - q)
    ensures q <= Offset(b, q, i, pre, post) && Offset(c, r, i, pre, post) == r + (Offset(b, q, i, pre, post) - q)
  {
    hide RecordEnd, Records;
    OffsetsInOrder(b, q, n, pre, post, i);
    SamePart(b, q, c, r, Offset(b, q, n, pre, post) - q, 0, Offset(b, q, i, pre, post) - q);
    RecordsMove(b, q, c, r, i, pre, post);
  }

  lemma SameSlice(b: seq<byte>, p: nat, c: seq<byte>, r: nat, n: nat, lo: nat, hi: nat)
    requires Same(b, p, c, r, n) && p <= lo <= hi <= p + n
    ensures Slice(c, r + (lo - p), r + (hi - p)) == Slice(b, lo, hi)
  {
    SamePart(b, p, c, r, n, lo - p, hi - lo);
  }

  lemma FirstByte(n: nat)
    requires n > 0
    ensures PutCs(n)[0] != 0
  {
  }

  /** The bytes of a stripped transaction, place by place. */
  lemma StrippedBytes(b: seq<byte>, s: Shape)
    requires ShapeOf(b, true) == Some(s)
    ensures var p, c := if s.segwit then 6 else 4, Stripped(b, s);
      && p <= s.end && s.lock + 4 <= |b| && p == CountAt(b, true)
      && |c| == s.end - p + 8 <= |b| && c[..4] == b[..4] && Same(b, p, c, 4, s.end - p)
      && c[s.end - p + 4..] == b[s.lock..s.lock + 4]
  {
    hide ShapeOf, BodyOf, ReadCs, Records;
    ShapeOrder(b, true);
  }

  /** Both parsers, aware of witnesses or not, walk a stripped transaction as the original without its witness. */
  lemma StripKeepsShape(b: seq<byte>, s: Shape, aware: bool)
    requires ShapeOf(b, true) == Some(s)
    ensures |Stripped(b, s)| <= |b| && ShapeOf(Stripped(b, s), aware) == Some(StrippedShape(s))
  {
    hide BodyOf, ReadCs, Records, Stripped;
    ShapeOrder(b, true);
    StrippedBytes(b, s);
    var p := if s.segwit then 6 else 4;
    var c := Stripped(b, s);
    BodyMoves(b, p, c, 4);
    BodyOrder(b, p);
    ReadCsCanonical(b, p);
    FirstByte(s.nin);
    SamePart(b, p, c, 4, s.end - p, 0, s.ins - p);
    assert c[4] == c[4..4 + (s.ins - p)][0] == b[p..s.ins][0] == PutCs(s.nin)[0];
  }

  /** The runs of inputs and of outputs, moved as a whole. */
  lemma RunsMove(b: seq<byte>, s: Shape)
    requires ShapeOf(b, true) == Some(s)
    ensures var c, t := Stripped(b, s), StrippedShape(s);
      && s.ins <= s.outs <= |b| && Records(b, s.ins, s.nin, 36, 4) == Some(s.outs) && Same(b, s.ins, c, t.ins, s.outs - s.ins)
      && s.body <= s.end <= |b| && Records(b, s.body, s.nout, 8, 0) == Some(s.end) && Same(b, s.body, c, t.body, s.end - s.body)
  {
    hide ShapeOf, BodyOf, Records, Stripped, Same, ReadCs;
    ShapeOrder(b, true);
    StrippedBytes(b, s);
    var p, c := if s.segwit then 6 else 4, Stripped(b, s);
    BodyOrder(b, p);
    SamePart(b, p, c, 4, s.end - p, s.ins - p, s.outs - s.ins);
    SamePart(b, p, c, 4, s.end - p, s.body - p, s.end - s.body);
  }

  /** A slice between two offsets of a run, before and after the move. */
  lemma RunSlice(b: seq<byte>, q: nat, c: seq<byte>, r: nat, n: nat, e: nat, pre: nat, post: nat, i: nat)
    requires q <= e <= |b| && Records(b, q, n, pre, post) == Some(e) && Same(b, q, c, r, e - q) && i <= n
    ensures q <= Offset(b, q, i, pre, post) <= e && Offset(c, r, i, pre, post) == r + (Offset(b, q, i, pre, post) - q)
  {
    hide Records, Offset, Same, RecordEnd;
    OffsetEnd(b, q, n, pre, post);
    OffsetsInOrder(b, q, n, pre, post, i);
    OffsetsMove(b, q, c, r, n, i, pre, post);
  }

  /** Where an input lies before and after, and the bytes read there. */
  lemma InputMoves(b: seq<byte>, s: Shape, i: nat)
    requires ShapeOf(b, true) == Some(s) && i < s.nin
    ensures var c, t := Stripped(b, s), StrippedShape(s);
      Outpoint(c, t, i) == Outpoint(b, s, i) && Sequence(c, t, i) == Sequence(b, s, i)
  {
    hide ShapeOf, Records, Stripped, Slice, Offset, Same, RecordEnd, StrippedShape;
    RunsMove(b, s);
    var c, t := Stripped(b, s), StrippedShape(s);
    RunSlice(b, s.ins, c, t.ins, s.nin, s.outs, 36, 4, i);
    RunSlice(b, s.ins, c, t.ins, s.nin, s.outs, 36, 4, i + 1);
    OffsetsInOrder(b, s.ins, s.nin, 36, 4, i);
    var o, e := InputAt(b, s, i), InputAt(b, s, i + 1);
    SameSlice(b, s.ins, c, t.ins, s.outs - s.ins, o, o + 36);
    SameSlice(b, s.ins, c, t.ins, s.outs - s.ins, e - 4, e);
  }

  lemma OffsetEnd(b: seq<byte>, q: nat, n: nat, pre: nat, post: nat)
    ensures Records(b, q, n, pre, post).Some? ==> Offset(b, q, n, pre, post) == Records(b, q, n, pre, post).value
  {
  }

  /** After stripping, both signature hashes read the same version, outpoints, sequences and locktime. */
  lemma StripKeepsView(b: seq<byte>, s: Shape)
    requires ShapeOf(b, true) == Some(s)
    ensures ViewOf(Stripped(b, s), StrippedShape(s)) == ViewOf(b, s)
  {
    hide ShapeOf, Stripped, StrippedShape, Outpoint, Sequence, Slice;
    var c, t := Stripped(b, s), StrippedShape(s);
    EndsKept(b, s);
    SameInputCount(s);
    forall i: nat | i < s.nin ensures Outpoints(c, t)[i] == Outpoints(b, s)[i] && Sequences(c, t)[i] == Sequences(b, s)[i] {
      InputMoves(b, s, i);
    }
    assert Outpoints(c, t) == Outpoints(b, s) && Sequences(c, t) == Sequences(b, s);
  }

  lemma SameInputCount(s: Shape)
    ensures StrippedShape(s).nin == s.nin
  {
  }

  lemma EndsKept(b: seq<byte>, s: Shape)
    requires ShapeOf(b, true) == Some(s)
    ensures var c, t := Stripped(b, s), StrippedShape(s);
      Slice(c, 0, 4) == Slice(b, 0, 4) && Slice(c, t.lock, t.lock + 4) == Slice(b, s.lock, s.lock + 4)
  {
    hide ShapeOf, Stripped;
    ShapeOrder(b, true);
    StrippedBytes(b, s);
  }

  /** After stripping, every run of outputs is the same bytes. */
  lemma StripKeepsOutputs(b: seq<byte>, s: Shape, lo: nat, hi: nat)
    requires ShapeOf(b, true) == Some(s) && lo <= hi <= s.nout
    ensures OutputRange(Stripped(b, s), StrippedShape(s), lo, hi) == OutputRange(b, s, lo, hi)
  {
    hide ShapeOf, Records, Stripped, Slice, Offset, Same, StrippedShape;
    RunsMove(b, s);
    var c, t := Stripped(b, s), StrippedShape(s);
    RunSlice(b, s.body, c, t.body, s.nout, s.end, 8, 0, lo);
    RunSlice(b, s.body, c, t.body, s.nout, s.end, 8, 0, hi);
    OffsetsRise(b, s.body, s.nout, 8, 0, lo, hi);
    SameSlice(b, s.body, c, t.body, s.end - s.body, OutputAt(b, s, lo), OutputAt(b, s, hi));
  }

  lemma {:induction false} OffsetsRise(b: seq<byte>, q: nat, n: nat, pre: nat, post: nat, lo: nat, hi: nat)
    requires q <= |b| && Records(b, q, n, pre, post).Some? && lo <= hi <= n
    ensures Offset(b, q, lo, pre, post) <= Offset(b, q, hi, pre, post)
    decreases hi - lo
  {
    hide Records, Offset;
    if lo < hi {
      OffsetsInOrder(b, q, n, pre, post, lo);
      OffsetsRise(b, q, n, pre, post, lo + 1, hi);
    }
  }

  /** Stripping again changes nothing. */
  lemma StripTwice(b: seq<byte>, s: Shape)
    requires ShapeOf(b, true) == Some(s)
    ensures Stripped(Stripped(b, s), StrippedShape(s)) == Stripped(b, s)
  {
    hide ShapeOf, BodyOf;
    ShapeOrder(b, true);
    StrippedBytes(b, s);
  }

  /** A record's fields written out again: fixed bytes, the shortest length, the string, fixed bytes. */
  function Reserialized(b: seq<byte>, q: nat, pre: nat, post: nat): seq<byte> {
    match ReadCs(b, q + pre)
    case None => []
    case Some((n, r)) => Slice(b, q, q + pre) + PutCs(n) + Slice(b, r, r + n) + Slice(b, r + n, r + n + post)
  }

  lemma RecordFields(b: seq<byte>, q: nat, pre: nat, post: nat) returns (n: nat, r: nat)
    requires RecordEnd(b, q, pre, post).Some?
    ensures ReadCs(b, q + pre) == Some((n, r)) && q + pre < r && r + n + post <= |b| && Slice(b, q + pre, r) == PutCs(n)
    ensures RecordEnd(b, q, pre, post) == Some(r + n + post)
  {
    hide ReadCs, PutCs;
    ReadCsCanonical(b, q + pre);
    var v := ReadCs(b, q + pre).value;
    n, r := v.0, v.1;
  }

  /** A record in place is the same bytes as its fields written out again. */
  lemma RecordCanonical(b: seq<byte>, q: nat, pre: nat, post: nat)
    requires RecordEnd(b, q, pre, post).Some?
    ensures Reserialized(b, q, pre, post) == Slice(b, q, RecordEnd(b, q, pre, post).value)
  {
    hide ReadCs, PutCs, RecordEnd, Slice;
    var n, r := RecordFields(b, q, pre, post);
    FourParts(b, q, q + pre, r, r + n, r + n + post);
  }

  lemma FourParts(b: seq<byte>, p: nat, q: nat, r: nat, s: nat, e: nat)
    requires p <= q <= r <= s <= e <= |b|
    ensures Slice(b, p, q) + Slice(b, q, r) + Slice(b, r, s) + Slice(b, s, e) == Slice(b, p, e)
  {
    hide Slice;
    TwoParts(b, p, q, r); TwoParts(b, p, r, s); TwoParts(b, p, s, e);
  }

  lemma TwoParts(b: seq<byte>, p: nat, q: nat, r: nat)
    requires p <= q <= r <= |b|
    ensures Slice(b, p, q) + Slice(b, q, r) == Slice(b, p, r)
  {
  }

  /** Outputs lo up to hi, each written out again. */
  function ReserializedOutputs(b: seq<byte>, s: Shape, lo: nat, hi: nat): seq<byte>
    decreases hi
  {
    if hi <= lo then [] else ReserializedOutputs(b, s, lo, hi - 1) + Reserialized(b, OutputAt(b, s, hi - 1), 8, 0)
  }

  /** The outputs in place are what writing each of them out again would give. */
  lemma {:induction false} OutputsCanonical(b: seq<byte>, s: Shape, lo: nat, hi: nat)
    requires s.body <= |b| && Records(b, s.body, s.nout, 8, 0).Some? && lo <= hi <= s.nout
    ensures OutputRange(b, s, lo, hi) == ReserializedOutputs(b, s, lo, hi)
  {
    hide RecordEnd, Reserialized;
    OffsetsInOrder(b, s.body, s.nout, 8, 0, lo);
    if lo < hi {
      OffsetsInOrder(b, s.body, s.nout, 8, 0, hi - 1);
      OffsetsRise(b, s.body, s.nout, 8, 0, lo, hi - 1);
      OutputsCanonical(b, s, lo, hi - 1);
      RecordCanonical(b, OutputAt(b, s, hi - 1), 8, 0);
    }
  }
}
