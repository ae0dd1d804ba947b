/** The difficulty a header must carry at its height, and what that makes of whole header chains. */
module PowRules {
  import opened Bytes
  import opened Words
  import opened PowTargets
  import opened PowRetarget

  const INTERVAL: int := 2016
  const SPACING: int := 600

  type Word = x: int | 0 <= x < W32

  /** The two fields of an 80-byte header the rules look at. */
  datatype Header = Header(time: Word, bits: Word)

  /** A chain's parameters. */
  datatype Rules = Rules(noRetarget: bool, allowMinDiff: bool, bip94: bool, limit: Word)

  /** Reads the header at a height, where there is one. */
  type Reader = nat -> Option<Header>

  /** The bits of the nearest block, from a height down, that is not at minimum difficulty or that starts a period. */
  function WalkBack(get: Reader, limit: Word, h: nat): Option<Word> {
    match get(h)
    case None => None
    case Some(hdr) => if h > 0 && h % INTERVAL != 0 && hdr.bits == limit then WalkBack(get, limit, h - 1) else Some(hdr.bits)
  }

  /** The bits required at a height; zero when they cannot be worked out. */
  function Expected(height: int, time: int, get: Reader, rules: Rules): nat {
    if height <= 0 || get(height - 1).None? then 0
    else
      var last := get(height - 1).value;
      if rules.noRetarget then last.bits
      else if height % INTERVAL != 0 then
        if !rules.allowMinDiff then last.bits
        else if time > last.time + 2 * SPACING then rules.limit
        else match WalkBack(get, rules.limit, height - 1)
          case None => 0
          case Some(bits) => bits
      else match get(height - INTERVAL)
        case None => 0
        case Some(first) => Compact(NextTarget(if rules.bip94 then first.bits else last.bits, last.time - first.time, rules.limit))
  }

  /** The walk back ends at the period's first block or at one that is not at minimum difficulty. */
  lemma {:induction false} WalkBackFinds(get: Reader, limit: Word, h: nat) returns (k: nat)
    requires WalkBack(get, limit, h).Some?
    ensures k <= h && h / INTERVAL == k / INTERVAL && get(k) .Some? && WalkBack(get, limit, h).value == get(k).value.bits
    ensures k == 0 || k % INTERVAL == 0 || get(k).value.bits != limit
    ensures forall j: nat :: k < j <= h ==> get(j).Some? && get(j).value.bits == limit
  {
    k := h;
    if h > 0 && h % INTERVAL != 0 && get(h).value.bits == limit {
      k := WalkBackFinds(get, limit, h - 1);
    }
  }

  /** The required bits, by the loop over ancestors. */
  method ExpectedBits(height: int, time: int, get: Reader, rules: Rules) returns (bits: nat)
    ensures bits == Expected(height, time, get, rules)
  {
    hide Compact, NextTarget;
    if height <= 0 { return 0; }
    var tip := height - 1;
    var hdr := get(tip);
    if hdr.None? { return 0; }
    var last := hdr.value;
    if rules.noRetarget { return last.bits; }
    if height % INTERVAL != 0 {
      if rules.allowMinDiff {
        if time > last.time + 2 * SPACING { return rules.limit; }
        var h := tip;
        bits := last.bits;
        while h > 0 && h % INTERVAL != 0 && bits == rules.limit
          invariant 0 <= h <= tip && get(h).Some? && bits == get(h).value.bits
          invariant WalkBack(get, rules.limit, tip) == WalkBack(get, rules.limit, h)
        {
          h := h - 1;
          var back := get(h);
          if back.None? { return 0; }
          bits := back.value.bits;
        }
        return bits;
      }
      return last.bits;
    }
    var first := get(tip - (INTERVAL - 1));
    if first.None? { return 0; }
    var base := if rules.bip94 then first.value.bits else last.bits;
    bits := RetargetBits(base, last.time - first.value.time, rules.limit);
  }

  /** One for the required bits, zero for others, minus one when they cannot be worked out. */
  method CheckBits(height: int, hdr: Header, get: Reader, rules: Rules) returns (r: int)
    ensures r == Check(height, hdr, get, rules)
  {
    if height <= 0 { return 1; }
    var want := ExpectedBits(height, hdr.time, get, rules);
    if want == 0 { return -1; }
    return if hdr.bits == want then 1 else 0;
  }

  function Check(height: int, hdr: Header, get: Reader, rules: Rules): int {
    if height <= 0 then 1
    else
      var want := Expected(height, hdr.time, get, rules);
      if want == 0 then -1 else if hdr.bits == want then 1 else 0
  }

  function Of(chain: seq<Header>): Reader {
    (h: nat) => if h < |chain| then Some(chain[h]) else None
  }

  /** Every header of the chain carries the bits required of it. */
  ghost predicate Passing(chain: seq<Header>, rules: Rules) {
    forall h: nat :: h < |chain| ==> Check(h, chain[h], Of(chain), rules) == 1
  }

  /** The first height of a period. */
  function Start(h: nat): (s: nat)
    ensures s <= h && s % INTERVAL == 0 && h - s < INTERVAL
  {
    h - h % INTERVAL
  }

  lemma Required(chain: seq<Header>, rules: Rules, h: nat)
    requires Passing(chain, rules) && 0 < h < |chain|
    ensures 0 != chain[h].bits == Expected(h, chain[h].time, Of(chain), rules)
  {
    hide Expected;
    assert Check(h, chain[h], Of(chain), rules) == 1;
  }

  /** What is required of a header on a chain, case by case. */
  lemma ExpectedOf(chain: seq<Header>, rules: Rules, h: nat, time: int)
    requires 0 < h <= |chain| && !rules.noRetarget
    ensures var e, last := Expected(h, time, Of(chain), rules), chain[h - 1];
      if h % INTERVAL == 0 then
        var first := chain[h - INTERVAL];
        e == Compact(NextTarget(if rules.bip94 then first.bits else last.bits, last.time - first.time, rules.limit))
      else if !rules.allowMinDiff then e == last.bits
      else if time > last.time + 2 * SPACING then e == rules.limit
      else WalkBack(Of(chain), rules.limit, h - 1).Some? && e == WalkBack(Of(chain), rules.limit, h - 1).value
  {
    hide Compact, NextTarget, WalkBack;
    WalkBackThere(chain, rules.limit, h - 1);
  }

  /** The latest header before h, in its period, that is not at the limit, or the period's first. */
  ghost predicate Latest(chain: seq<Header>, limit: Word, h: nat, k: nat) {
    && k < h < |chain| && k / 2016 == (h - 1) / 2016 && (k % 2016 == 0 || chain[k].bits != limit)
    && forall j: nat :: k < j < h ==> chain[j].bits == limit
  }

  /** What a retarget from one header to another, 2015 after it, comes to before it is encoded. */
  ghost predicate Retargeted(first: Header, last: Header, base: Word, limit: Word, target: nat) {
    var span := last.time - first.time;
    var held := if span < 302400 then 302400 else if span > 4838400 then 4838400 else span;
    target == if Target(base) * held / 1209600 > Target(limit) then Target(limit) else Target(base) * held / 1209600
  }

  ghost predicate RetargetedBits(first: Header, last: Header, base: Word, limit: Word, bits: nat) {
    exists target: nat :: Retargeted(first, last, base, limit, target) && bits == Compact(target)
  }

  ghost predicate LatestBits(chain: seq<Header>, limit: Word, h: nat, bits: nat) {
    exists k: nat :: Latest(chain, limit, h, k) && bits == chain[k].bits
  }

  /** A header passes exactly when its bits are, at every 2016th height, those of the retarget over the 2015 gaps before it; else
      those of the header before it, or where minimum difficulty is allowed, the limit after more than 1200 seconds, and
      otherwise those of the latest header of the period that is not at the limit. */
  lemma HeaderLaw(chain: seq<Header>, rules: Rules, h: nat)
    requires 0 < h < |chain| && !rules.noRetarget
    ensures var hdr, last := chain[h], chain[h - 1];
      Check(h, hdr, Of(chain), rules) == 1 <==>
        && hdr.bits != 0
        && (h % 2016 == 0 ==> RetargetedBits(chain[h - 2016], last, if rules.bip94 then chain[h - 2016].bits else last.bits, rules.limit, hdr.bits))
        && (h % 2016 != 0 && !rules.allowMinDiff ==> hdr.bits == last.bits)
        && (h % 2016 != 0 && rules.allowMinDiff && hdr.time > last.time + 1200 ==> hdr.bits == rules.limit)
        && (h % 2016 != 0 && rules.allowMinDiff && hdr.time <= last.time + 1200 ==> LatestBits(chain, rules.limit, h, hdr.bits))
  {
    hide Compact, Target, WalkBack, Expected, Retargeted, Latest, NextTarget;
    ExpectedOf(chain, rules, h, chain[h].time);
    if h % 2016 == 0 {
      var first, last := chain[h - 2016], chain[h - 1];
      RetargetedIs(first, last, if rules.bip94 then first.bits else last.bits, rules.limit);
    } else if rules.allowMinDiff && chain[h].time <= chain[h - 1].time + 1200 {
      var k := WalkBackFinds(Of(chain), rules.limit, h - 1);
      LatestIs(chain, rules.limit, h, k);
    }
  }

  lemma RetargetedIs(first: Header, last: Header, base: Word, limit: Word)
    ensures forall target: nat :: Retargeted(first, last, base, limit, target) <==> target == NextTarget(base, last.time - first.time, limit)
  {
    hide Target;
    var t, c := Target(base), Clamp(last.time - first.time);
    assert t * c == c * t;
  }

  /** There is one such header. */
  lemma LatestIs(chain: seq<Header>, limit: Word, h: nat, k: nat)
    requires 0 < h < |chain| && k < h && (h - 1) / 2016 == k / 2016 && (k == 0 || k % 2016 == 0 || chain[k].bits != limit)
    requires forall j: nat :: k < j <= h - 1 ==> Of(chain)(j).Some? && Of(chain)(j).value.bits == limit
    ensures Latest(chain, limit, h, k) && forall i: nat :: Latest(chain, limit, h, i) ==> i == k
  {
    forall j: nat | k < j < h ensures chain[j].bits == limit { assert Of(chain)(j).value.bits == limit; }
    forall i: nat | Latest(chain, limit, h, i) ensures i == k {
      NotLater(chain, limit, h, i, k); NotLater(chain, limit, h, k, i);
    }
  }

  lemma NotLater(chain: seq<Header>, limit: Word, h: nat, i: nat, k: nat)
    requires Latest(chain, limit, h, i) && Latest(chain, limit, h, k)
    ensures i >= k
  {
    SamePeriod(i, k);
  }

  lemma SamePeriod(i: nat, k: nat)
    ensures i < k && i / 2016 == k / 2016 ==> k % 2016 != 0
  {
  }

  lemma {:induction false} WalkBackThere(chain: seq<Header>, limit: Word, h: nat)
    requires h < |chain|
    ensures WalkBack(Of(chain), limit, h).Some?
  {
    if h > 0 { WalkBackThere(chain, limit, h - 1); }
  }

  lemma StartOf(h: nat)
    ensures h % INTERVAL == 0 ==> Start(h) == h
    ensures h % INTERVAL != 0 ==> h > 0 && Start(h) == Start(h - 1)
    ensures forall k: nat {:trigger Start(k)} :: k / INTERVAL == h / INTERVAL ==> Start(k) == Start(h)
  {
  }

  /** Without the testnet exceptions every header of a period carries the same bits. */
  lemma {:induction false} PeriodConstant(chain: seq<Header>, rules: Rules, h: nat)
    requires Passing(chain, rules) && !rules.noRetarget && !rules.allowMinDiff && h < |chain|
    ensures chain[h].bits == chain[Start(h)].bits
  {
    hide Passing, Expected, Of, Start;
    StartOf(h);
    if h % INTERVAL != 0 {
      Required(chain, rules, h);
      ExpectedOf(chain, rules, h, chain[h].time);
      PeriodConstant(chain, rules, h - 1);
    }
  }

  /** With the minimum-difficulty exception a header carries its period's first bits or the limit's. */
  lemma {:induction false} PeriodOrLimit(chain: seq<Header>, rules: Rules, h: nat)
    requires Passing(chain, rules) && !rules.noRetarget && rules.allowMinDiff && h < |chain|
    ensures chain[h].bits == chain[Start(h)].bits || chain[h].bits == rules.limit
  {
    hide Passing, Expected, Start, WalkBack;
    StartOf(h);
    if h % INTERVAL != 0 {
      Required(chain, rules, h);
      ExpectedOf(chain, rules, h, chain[h].time);
      if chain[h].time <= chain[h - 1].time + 2 * SPACING {
        var k := WalkBackFinds(Of(chain), rules.limit, h - 1);
        PeriodOrLimit(chain, rules, k);
        StartOf(h - 1);
      }
    }
  }

  /** A retarget never passes the limit nor four times the base, also after encoding. */
  lemma RetargetBounds(base: nat, ts: int, limit: nat)
    ensures Target(Compact(NextTarget(base, ts, limit))) <= Target(limit)
    ensures Target(Compact(NextTarget(base, ts, limit))) <= 4 * Target(base)
  {
    hide Compact, Target;
    CompactNeverRaises(NextTarget(base, ts, limit));
    MulMono(Target(base), Clamp(ts), 4 * TIMESPAN);
  }

  /** On such a chain no target passes the limit, and none passes four times the previous period's. */
  lemma TargetsBounded(chain: seq<Header>, rules: Rules, h: nat)
    requires Passing(chain, rules) && !rules.noRetarget && !rules.allowMinDiff && INTERVAL <= h < |chain|
    ensures Target(chain[h].bits) <= Target(rules.limit)
    ensures Target(chain[h].bits) <= 4 * Target(chain[h - INTERVAL].bits)
  {
    hide Passing, Expected, Of, Start, Compact, Target, NextTarget;
    PeriodConstant(chain, rules, h);
    PeriodConstant(chain, rules, h - INTERVAL);
    StartBefore(h);
    var s := Start(h);
    Required(chain, rules, s);
    ExpectedOf(chain, rules, s, chain[s].time);
    var first, last := chain[s - INTERVAL], chain[s - 1];
    PeriodConstant(chain, rules, s - 1);
    PeriodConstant(chain, rules, s - INTERVAL);
    RetargetBounds(if rules.bip94 then first.bits else last.bits, last.time - first.time, rules.limit);
  }

  /** The genesis header is never checked: every target is within the limit exactly when its target is. */
  lemma WithinLimitExactly(chain: seq<Header>, rules: Rules)
    requires Passing(chain, rules) && !rules.noRetarget && !rules.allowMinDiff && |chain| > 0
    ensures (forall h: nat :: h < |chain| ==> Target(chain[h].bits) <= Target(rules.limit)) <==> Target(chain[0].bits) <= Target(rules.limit)
  {
    hide Passing, Target;
    if Target(chain[0].bits) <= Target(rules.limit) {
      forall h: nat | h < |chain| ensures Target(chain[h].bits) <= Target(rules.limit) {
        if h >= INTERVAL { TargetsBounded(chain, rules, h); } else { PeriodConstant(chain, rules, h); }
      }
    }
  }

  lemma StartBefore(h: nat)
    requires h >= INTERVAL
    ensures Start(h) >= INTERVAL && Start(h - INTERVAL) == Start(h) - INTERVAL
    ensures Start(Start(h) - 1) == Start(h) - INTERVAL == Start(Start(h) - INTERVAL)
  {
  }

  function Flipped(rules: Rules): Rules {
    rules.(bip94 := !rules.bip94)
  }

  /** Which block of the old period a retarget is based on makes no difference. */
  lemma SameEitherWay(chain: seq<Header>, rules: Rules, h: nat, time: int)
    requires Passing(chain, rules) && !rules.noRetarget && !rules.allowMinDiff && h <= |chain|
    ensures Expected(h, time, Of(chain), rules) == Expected(h, time, Of(chain), Flipped(rules))
  {
    hide Passing, Of, Start, Compact, NextTarget, WalkBack, Expected;
    if h > 0 {
      ExpectedOf(chain, rules, h, time);
      ExpectedOf(chain, Flipped(rules), h, time);
      if h % INTERVAL == 0 {
        StartBefore(h);
        StartOf(h);
        PeriodConstant(chain, rules, h - 1);
        PeriodConstant(chain, rules, h - INTERVAL);
      }
    } else {
      NothingAtGenesis(chain, rules, time);
      NothingAtGenesis(chain, Flipped(rules), time);
    }
  }

  lemma NothingAtGenesis(chain: seq<Header>, rules: Rules, time: int)
    ensures Expected(0, time, Of(chain), rules) == 0
  {
  }

  /** The same chains pass with the BIP 94 rule as without it. */
  lemma Bip94ChangesNothing(chain: seq<Header>, rules: Rules)
    requires !rules.noRetarget && !rules.allowMinDiff
    ensures Passing(chain, rules) <==> Passing(chain, Flipped(rules))
  {
    hide Expected, Of;
    if Passing(chain, rules) { PassesEitherWay(chain, rules); }
    if Passing(chain, Flipped(rules)) { PassesEitherWay(chain, Flipped(rules)); }
  }

  lemma PassesEitherWay(chain: seq<Header>, rules: Rules)
    requires Passing(chain, rules) && !rules.noRetarget && !rules.allowMinDiff
    ensures Passing(chain, Flipped(rules))
  {
    hide Expected, Of;
    forall h: nat | h < |chain|
      ensures Check(h, chain[h], Of(chain), Flipped(rules)) == 1
    {
      SameEitherWay(chain, rules, h, chain[h].time);
      assert Check(h, chain[h], Of(chain), rules) == 1;
    }
  }

  lemma CompactZero(v: nat)
    ensures Compact(v) == 0 <==> v == 0
  {
    hide Top;
    TopRange(v);
  }

  /** A new target is zero exactly when the old one times the timespan is short of one span. */
  lemma NextTargetZero(base: nat, ts: int, limit: nat)
    ensures NextTarget(base, ts, limit) == 0 <==> Clamp(ts) * Target(base) < TIMESPAN || Target(limit) == 0
  {
    hide Target, Clamp;
    var x := Times(Clamp(ts), Target(base));
    assert x == Clamp(ts) * Target(base) && x >= 0;
    assert x / TIMESPAN == 0 <==> x < TIMESPAN;
  }

  /** A passing chain cannot be extended by any header exactly when the next target would be zero. */
  lemma StuckExactly(chain: seq<Header>, rules: Rules, hdr: Header)
    requires Passing(chain, rules) && !rules.noRetarget && !rules.allowMinDiff && |chain| > 0
    ensures Check(|chain|, hdr, Of(chain), rules) == -1 <==>
      if |chain| % INTERVAL != 0 then |chain| == 1 && chain[0].bits == 0
      else
        var first, last := chain[|chain| - INTERVAL], chain[|chain| - 1];
        Clamp(last.time - first.time) * Target(last.bits) < TIMESPAN || Target(rules.limit) == 0
  {
    hide Passing, Of, Start, Compact, NextTarget, WalkBack, Expected, Target, Clamp, TIMESPAN;
    var n := |chain|;
    ExpectedOf(chain, rules, n, hdr.time);
    if n > 1 { Required(chain, rules, n - 1); }
    if n % INTERVAL == 0 {
      StartBefore(n);
      StartOf(n);
      PeriodConstant(chain, rules, n - 1);
      PeriodConstant(chain, rules, n - INTERVAL);
      var first, last := chain[n - INTERVAL], chain[n - 1];
      NextTargetZero(last.bits, last.time - first.time, rules.limit);
      CompactZero(NextTarget(last.bits, last.time - first.time, rules.limit));
    }
  }

  /** A genesis header with the easiest bits of a test network under the main network's limit: unchecked, and over it. */
  lemma GenesisOverLimit()
    ensures var rules, chain := Rules(false, false, false, 0x1d00ffff), [Header(0, 0x207fffff)];
      Passing(chain, rules) && Target(chain[0].bits) > Target(rules.limit)
  {
    hide LeftBytes, RightBytes, Expected;
    LeftOutgrows(0x7fffff, 0xffff, 29, 26);
  }

  lemma {:induction false} LeftOutgrows(a: nat, b: nat, m: nat, n: nat)
    requires a > b && m >= n
    ensures LeftBytes(a, m) > LeftBytes(b, n)
  {
    if n > 0 { LeftOutgrows(a, b, m - 1, n - 1); } else if m > 0 { LeftOutgrows(a, b, m - 1, n); }
  }

  lemma RightNone(v: nat)
    ensures RightBytes(v, 0) == v
  {
  }

  function AtOnce(n: nat): (chain: seq<Header>)
    ensures |chain| == n && forall h: nat :: h < n ==> chain[h] == Header(0, 0x0300_0001)
  {
    seq(n, _ => Header(0, 0x0300_0001))
  }

  /** A whole period of headers at target one and one time: all pass, and no header can follow. */
  lemma TinyTargetStuck(hdr: Header)
    ensures var rules := Rules(false, false, false, 0x1d00ffff);
      Passing(AtOnce(INTERVAL), rules) && Check(INTERVAL, hdr, Of(AtOnce(INTERVAL)), rules) == -1
  {
    hide LeftBytes, RightBytes, Expected, Of, NextTarget, Compact;
    var rules, chain := Rules(false, false, false, 0x1d00ffff), AtOnce(INTERVAL);
    assert RightBytes(1, 0) == 1 by { RightNone(1); }
    forall h: nat | h < |chain| ensures Check(h, chain[h], Of(chain), rules) == 1 {
      if h > 0 { ExpectedOf(chain, rules, h, 0); }
    }
    StuckExactly(chain, rules, hdr);
  }
}
