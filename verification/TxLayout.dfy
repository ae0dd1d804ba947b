/** Where the parts of a serialized transaction lie, and what stripping its witness leaves of them. */
module TxLayout {
  import opened Bytes
  import opened Words

  const OFF_ENTRIES: nat := 600000

  /** The shortest encoding of a compact size. */
  function PutCs(n: nat): (r: seq<byte>)
    ensures 1 <= |r| <= 9
  {
    if n < 0xfd then [n]
    else if n <= 0xffff then [0xfd] + LittleEndian(n, 2)
    else if n <= 0xffff_ffff then [0xfe] + LittleEndian(n, 4)
    else [0xff] + LittleEndian(n, 8)
  }

  /** Reads a compact size at a place: its value and the place after it; refused past the end or when not shortest. */
  function ReadCs(b: seq<byte>, p: nat): Option<(nat, nat)> {
    if p >= |b| then None
    else if b[p] < 0xfd then Some((b[p], p + 1))
    else
      var extra := if b[p] == 0xfd then 2 else if b[p] == 0xfe then 4 else 8;
      if |b| - (p + 1) < extra then None
      else
        var v := FromLittleEndian(b[p + 1..p + 1 + extra]);
        var min := if b[p] == 0xfd then 0xfd else if b[p] == 0xfe then 0x1_0000 else 0x1_0000_0000;
        if v < min then None else Some((v, p + 1 + extra))
  }

  lemma Widths()
    ensures Pow256(2) == 0x1_0000 && Pow256(4) == W32 && Pow256(8) == W64
  {
    assert Pow256(8) == W32 * Pow256(4);
  }

  /** An accepted compact size is the shortest encoding of its value. */
  lemma ReadCsCanonical(b: seq<byte>, p: nat)
    requires ReadCs(b, p).Some?
    ensures var (v, q) := ReadCs(b, p).value; p < q <= |b| && v < W64 && b[p..q] == PutCs(v)
  {
    hide LittleEndian, FromLittleEndian, Pow256;
    var (v, q) := ReadCs(b, p).value;
    Widths();
    if b[p] >= 0xfd {
      var w := b[p + 1..q];
      FromLittleEndianRoundTrip(w);
      assert b[p..q] == [b[p]] + w;
    }
  }

  /** Reading depends on the bytes read alone. */
  lemma ReadCsLocal(b: seq<byte>, p: nat, c: seq<byte>, r: nat)
    requires ReadCs(b, p).Some?
    requires var (_, q) := ReadCs(b, p).value; r + (q - p) <= |c| && p <= q <= |b| && c[r..r + (q - p)] == b[p..q]
    ensures var (v, q) := ReadCs(b, p).value; ReadCs(c, r) == Some((v, r + (q - p)))
  {
    hide FromLittleEndian;
    var (v, q) := ReadCs(b, p).value;
    assert c[r] == c[r..r + (q - p)][0] == b[p..q][0] == b[p];
    if b[p] >= 0xfd {
      assert c[r + 1..r + (q - p)] == c[r..r + (q - p)][1..];
      assert b[p + 1..q] == b[p..q][1..];
    }
  }

  /** One record: pre fixed bytes, a sized string, post fixed bytes. The place after it. */
  function RecordEnd(b: seq<byte>, q: nat, pre: nat, post: nat): Option<nat> {
    if q > |b| || |b| - q < pre then None
    else match ReadCs(b, q + pre)
      case None => None
      case Some((n, r)) => if r > |b| || |b| - r < n || |b| - r - n < post then None else Some(r + n + post)
  }

  /** The place after n records. */
  function Records(b: seq<byte>, q: nat, n: nat, pre: nat, post: nat): Option<nat> {
    if n == 0 then Some(q)
    else match Records(b, q, n - 1, pre, post)
      case None => None
      case Some(r) => RecordEnd(b, r, pre, post)
  }

  /** One witness stack: a count and so many strings. */
  function StackEnd(b: seq<byte>, q: nat): Option<nat> {
    match ReadCs(b, q)
    case None => None
    case Some((n, r)) => Records(b, r, n, 0, 0)
  }

  function Stacks(b: seq<byte>, q: nat, n: nat): Option<nat> {
    if n == 0 then Some(q)
    else match Stacks(b, q, n - 1)
      case None => None
      case Some(r) => StackEnd(b, r)
  }

  lemma RecordGrows(b: seq<byte>, q: nat, pre: nat, post: nat)
    requires RecordEnd(b, q, pre, post).Some?
    ensures q < RecordEnd(b, q, pre, post).value <= |b|
  {
    ReadCsCanonical(b, q + pre);
  }

  lemma {:induction false} RecordsGrow(b: seq<byte>, q: nat, n: nat, pre: nat, post: nat)
    requires Records(b, q, n, pre, post).Some? && q <= |b|
    ensures q + n <= Records(b, q, n, pre, post).value <= |b|
    ensures forall k: nat :: k < n ==> Records(b, q, k, pre, post).Some?
  {
    if n > 0 {
      RecordsGrow(b, q, n - 1, pre, post);
      RecordGrows(b, Records(b, q, n - 1, pre, post).value, pre, post);
    }
  }

  lemma StackGrows(b: seq<byte>, q: nat)
    requires StackEnd(b, q).Some? && q <= |b|
    ensures q <= StackEnd(b, q).value <= |b|
  {
    hide ReadCs, Records;
    ReadCsCanonical(b, q);
    var (n, r) := ReadCs(b, q).value;
    RecordsGrow(b, r, n, 0, 0);
  }

  lemma {:induction false} StacksGrow(b: seq<byte>, q: nat, n: nat)
    requires Stacks(b, q, n).Some? && q <= |b|
    ensures q <= Stacks(b, q, n).value <= |b|
  {
    hide StackEnd;
    if n > 0 {
      StacksGrow(b, q, n - 1);
      StackGrows(b, Stacks(b, q, n - 1).value);
    }
  }

  /** The bytes of c from r are those of b from p, n of them. */
  ghost predicate Same(b: seq<byte>, p: nat, c: seq<byte>, r: nat, n: nat) {
    p + n <= |b| && r + n <= |c| && b[p..p + n] == c[r..r + n]
  }

  lemma Subslice(s: seq<byte>, p: nat, n: nat, i: nat, k: nat)
    requires p + n <= |s| && i + k <= n
    ensures s[p..p + n][i..i + k] == s[p + i..p + i + k]
  {
    var x, y := s[p..p + n][i..i + k], s[p + i..p + i + k];
    assert |x| == |y| == k;
    forall j: nat | j < k ensures x[j] == y[j] {
      assert x[j] == s[p..p + n][i + j] == s[p + (i + j)];
      assert y[j] == s[p + i + j];
    }
  }

  lemma SamePart(b: seq<byte>, p: nat, c: seq<byte>, r: nat, n: nat, i: nat, k: nat)
    requires Same(b, p, c, r, n) && i + k <= n
    ensures Same(b, p + i, c, r + i, k)
  {
    Subslice(b, p, n, i, k);
    Subslice(c, r, n, i, k);
  }

  /** A record moved is the same record. */
  lemma RecordMoves(b: seq<byte>, q: nat, c: seq<byte>, r: nat, pre: nat, post: nat)
    requires RecordEnd(b, q, pre, post).Some? && Same(b, q, c, r, RecordEnd(b, q, pre, post).value - q)
    ensures RecordEnd(c, r, pre, post) == Some(r + (RecordEnd(b, q, pre, post).value - q))
  {
    hide ReadCs;
    var e := RecordEnd(b, q, pre, post).value;
    ReadCsCanonical(b, q + pre);
    var (n, x) := ReadCs(b, q + pre).value;
    SamePart(b, q, c, r, e - q, pre, x - (q + pre));
    ReadCsLocal(b, q + pre, c, r + pre);
  }

  lemma {:induction false} RecordsMove(b: seq<byte>, q: nat, c: seq<byte>, r: nat, n: nat, pre: nat, post: nat)
    requires q <= |b| && Records(b, q, n, pre, post).Some? && q <= Records(b, q, n, pre, post).value
    requires Same(b, q, c, r, Records(b, q, n, pre, post).value - q)
    ensures Records(c, r, n, pre, post) == Some(r + (Records(b, q, n, pre, post).value - q))
  {
    hide RecordEnd;
    if n > 0 {
      var x, e := Records(b, q, n - 1, pre, post).value, Records(b, q, n, pre, post).value;
      RecordsGrow(b, q, n - 1, pre, post);
      RecordGrows(b, x, pre, post);
      SamePart(b, q, c, r, e - q, 0, x - q);
      RecordsMove(b, q, c, r, n - 1, pre, post);
      SamePart(b, q, c, r, e - q, x - q, e - x);
      RecordMoves(b, x, c, r + (x - q), pre, post);
    }
  }

  /** A transaction's parts: where the inputs, the output count, the outputs, their end and the locktime lie. */
  datatype Shape = Shape(segwit: bool, nin: nat, ins: nat, outs: nat, nout: nat, body: nat, end: nat, lock: nat)

  /** Where the input count lies: past the marker and flag, for a reader that knows of them. */
  function CountAt(b: seq<byte>, aware: bool): nat
    requires |b| >= 10
  {
    if aware && b[4] == 0 && b[5] == 1 then 6 else 4
  }

  /** The walk over inputs and outputs. */
  function BodyOf(b: seq<byte>, p: nat): Option<Shape> {
    match ReadCs(b, p)
    case None => None
    case Some((nin, ins)) =>
      if nin == 0 then None
      else match Records(b, ins, nin, 36, 4)
        case None => None
        case Some(outs) =>
          match ReadCs(b, outs)
          case None => None
          case Some((nout, body)) =>
            match Records(b, body, nout, 8, 0)
            case None => None
            case Some(end) => Some(Shape(p == 6, nin, ins, outs, nout, body, end, end))
  }

  /** The whole walk: inputs, outputs, witness stacks where there are some, and room for a locktime. */
  function ShapeOf(b: seq<byte>, aware: bool): Option<Shape> {
    if |b| < 10 then None
    else match BodyOf(b, CountAt(b, aware))
      case None => None
      case Some(s) =>
        match if s.segwit then Stacks(b, s.end, s.nin) else Some(s.end)
        case None => None
        case Some(lock) => if lock > |b| || |b| - lock < 4 then None else Some(s.(lock := lock))
  }

  /** The bytes from lo up to hi, where there are such. */
  function Slice(b: seq<byte>, lo: int, hi: int): seq<byte> {
    if 0 <= lo <= hi <= |b| then b[lo..hi] else []
  }

  /** The transaction without its witness. */
  function Stripped(b: seq<byte>, s: Shape): seq<byte> {
    Slice(b, 0, 4) + Slice(b, if s.segwit then 6 else 4, s.end) + Slice(b, s.lock, s.lock + 4)
  }

  /** The order of a body's parts. */
  lemma BodyOrder(b: seq<byte>, p: nat)
    requires BodyOf(b, p).Some?
    ensures var s := BodyOf(b, p).value;
      && p < s.ins && s.ins + s.nin <= s.outs < s.body && s.body + s.nout <= s.end <= |b| && s.nin > 0
      && Records(b, s.ins, s.nin, 36, 4) == Some(s.outs) && Records(b, s.body, s.nout, 8, 0) == Some(s.end)
      && s.segwit == (p == 6) && s.lock == s.end
      && ReadCs(b, p) == Some((s.nin, s.ins)) && ReadCs(b, s.outs) == Some((s.nout, s.body))
  {
    hide ReadCs, Records;
    var s := BodyOf(b, p).value;
    ReadCsCanonical(b, p);
    RecordsGrow(b, s.ins, s.nin, 36, 4);
    ReadCsCanonical(b, s.outs);
    RecordsGrow(b, s.body, s.nout, 8, 0);
  }

  lemma ShapeOrder(b: seq<byte>, aware: bool)
    requires ShapeOf(b, aware).Some?
    ensures |b| >= 10 && BodyOf(b, CountAt(b, aware)).Some?
    ensures var s, t := ShapeOf(b, aware).value, BodyOf(b, CountAt(b, aware)).value;
      && s == t.(lock := s.lock) && s.end <= |b| && s.lock + 4 <= |b| && s.segwit == (CountAt(b, aware) == 6)
      && CountAt(b, aware) < s.ins <= s.outs < s.body <= s.end && (!s.segwit ==> s.lock == s.end) && s.end <= s.lock
  {
    hide Stacks, BodyOf;
    BodyOrder(b, CountAt(b, aware));
    var s := ShapeOf(b, aware).value;
    if s.segwit { StacksGrow(b, s.end, s.nin); }
  }

  /** A body moved is the same body. */
  lemma BodyMoves(b: seq<byte>, p: nat, c: seq<byte>, r: nat)
    requires BodyOf(b, p).Some? && p <= BodyOf(b, p).value.end && Same(b, p, c, r, BodyOf(b, p).value.end - p)
    ensures var s := BodyOf(b, p).value;
      && p <= s.ins <= s.outs <= s.body <= s.end
      && BodyOf(c, r) == Some(Shape(r == 6, s.nin, r + (s.ins - p), r + (s.outs - p), s.nout, r + (s.body - p),
                              r + (s.end - p), r + (s.end - p)))
  {
    hide ReadCs, Records;
    var s := BodyOf(b, p).value;
    var n := s.end - p;
    BodyOrder(b, p);
    SamePart(b, p, c, r, n, 0, s.ins - p);
    ReadCsLocal(b, p, c, r);
    SamePart(b, p, c, r, n, s.ins - p, s.outs - s.ins);
    RecordsMove(b, s.ins, c, r + (s.ins - p), s.nin, 36, 4);
    SamePart(b, p, c, r, n, s.outs - p, s.body - s.outs);
    ReadCsLocal(b, s.outs, c, r + (s.outs - p));
    SamePart(b, p, c, r, n, s.body - p, s.end - s.body);
    RecordsMove(b, s.body, c, r + (s.body - p), s.nout, 8, 0);
  }
}
