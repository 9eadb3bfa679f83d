/** The ISO 14443-B receiver of the reader, armsrc/iso14443b.c: a BPSK
    demodulator that sees two correlation pairs of every bit sent by a tag. */
module Iso14443bDemod {
  import opened Bits
  import opened Iso14443bFrame

  datatype Phase = Unsynced | PhaseRefTraining | AwaitingFallingEdge | GotFallingEdge | AwaitingStart | Receiving

  /** `out` is the part of the output buffer filled so far, `done` what the
      last call returned; once it is true no more samples are taken. */
  datatype Demod = Demod(state: Phase, bitCount: int, posCount: int, thisBit: int, shiftReg: bv16,
                         out: seq<bv8>, sumI: int, sumQ: int, done: bool)

  /** A correlation pair. */
  datatype Pair = Pair(ci: int, cq: int)

  function Abs(x: int): nat { if x < 0 then -x else x }
  function Min(x: int, y: int): int { if x < y then x else y }
  function Max(x: int, y: int): int { if x < y then y else x }

  const SUBCARRIER_DETECT_THRESHOLD := 8

  function Amplitude(p: Pair): int {
    Max(Abs(p.ci), Abs(p.cq)) + Min(Abs(p.ci), Abs(p.cq)) / 2
  }

  predicate Detected(p: Pair) { Amplitude(p) > SUBCARRIER_DETECT_THRESHOLD }

  /** The soft decision knows only the quadrant of the reference phase. */
  function Correlate(sumI: int, sumQ: int, p: Pair): int {
    (if sumI > 0 then p.ci else -p.ci) + (if sumQ > 0 then p.cq else -p.cq)
  }

  function SoftDecision(d: Demod, p: Pair): int { Correlate(d.sumI, d.sumQ, p) }

  function NextTraining(d: Demod, p: Pair): Demod {
    if d.posCount >= 8 then d.(state := AwaitingFallingEdge)
    else if Detected(p) then d.(sumI := d.sumI + p.ci, sumQ := d.sumQ + p.cq, posCount := d.posCount + 1)
    else d.(state := Unsynced)
  }

  function NextBeforeSof(d: Demod, v: int): Demod {
    if v < 0 then d.(state := GotFallingEdge, posCount := 1)
    else if d.posCount > 50 then d.(state := Unsynced, posCount := d.posCount + 1)
    else d.(posCount := d.posCount + 1)
  }

  function NextSofLow(d: Demod, v: int): Demod {
    var d1 := d.(posCount := d.posCount + 1);
    if v > 0 then
      if d1.posCount < 18 then d1.(state := Unsynced)
      else d1.(posCount := 0, bitCount := 0, out := [], state := AwaitingStart)
    else if d1.posCount > 28 then d1.(state := Unsynced)
    else d1
  }

  function NextAwaiting(d: Demod, v: int): Demod {
    var d1 := d.(posCount := d.posCount + 1);
    if v <= 0 then d1.(posCount := 1, thisBit := v, shiftReg := 0, state := Receiving)
    else if d1.posCount <= 12 then d1
    else if d1.bitCount == 0 && d1.out == [] then d1.(done := true)
    else d1.(state := Unsynced)
  }

  /** Ten bits are in: a data character, the end of the frame, or an error. */
  function TenBits(d: Demod): Demod {
    if StartAndStop(d.shiftReg) then
      d.(out := d.out + [DataBits(d.shiftReg)], bitCount := 0, state := AwaitingStart)
    else d.(state := Unsynced, done := d.shiftReg == 0)
  }

  function NextReceiving(d: Demod, v: int): Demod {
    if d.posCount == 0 then d.(thisBit := v, posCount := 1)
    else
      var d1 := d.(thisBit := d.thisBit + v, shiftReg := ShiftBit(d.shiftReg, d.thisBit + v > 0),
                   bitCount := d.bitCount + 1);
      (if d1.bitCount == 10 then TenBits(d1) else d1).(posCount := 0)
  }

  function NextPair(d: Demod, p: Pair): Demod {
    match d.state
    case Unsynced =>
      if Detected(p) then d.(state := PhaseRefTraining, sumI := p.ci, sumQ := p.cq, posCount := 1) else d
    case PhaseRefTraining => NextTraining(d, p)
    case AwaitingFallingEdge => NextBeforeSof(d, SoftDecision(d, p))
    case GotFallingEdge => NextSofLow(d, SoftDecision(d, p))
    case AwaitingStart => NextAwaiting(d, SoftDecision(d, p))
    case Receiving => NextReceiving(d, SoftDecision(d, p))
  }

  /** Pairs are taken until the end of a frame is reported. */
  function RunPairs(d: Demod, pairs: seq<Pair>): Demod
    decreases |pairs|
  {
    if d.done || pairs == [] then d else RunPairs(NextPair(d, pairs[0]), pairs[1..])
  }

  lemma {:induction false} RunPairsAppend(d: Demod, a: seq<Pair>, b: seq<Pair>)
    ensures RunPairs(d, a + b) == RunPairs(RunPairs(d, a), b)
    decreases |a|
  {
    hide NextPair;
    if a == [] {
      assert a + b == b;
    } else if !d.done {
      assert (a + b)[1..] == a[1..] + b;
      RunPairsAppend(NextPair(d, a[0]), a[1..], b);
    }
  }

  // ---------------------------------------------------------------------
  // Quadrants
  // ---------------------------------------------------------------------

  /** The quadrant of a phase. */
  datatype Quadrant = Quadrant(i: bool, q: bool)

  function Opposite(p: Pair): Pair { Pair(-p.ci, -p.cq) }

  /** A subcarrier: one coordinate, and half of the other rounded down, come to more than 8. */
  predicate Strong(p: Pair) {
    var a, b := if p.ci < 0 then -p.ci else p.ci, if p.cq < 0 then -p.cq else p.cq;
    a + b / 2 > 8 || b + a / 2 > 8
  }

  lemma StrongIs(p: Pair)
    ensures Detected(p) <==> Strong(p)
  {
  }

  /** A pair codes logic 1 when it lies in the reference quadrant, and logic 0
      when its opposite does, with a subcarrier above the threshold. */
  predicate Codes(p: Pair, one: bool, r: Quadrant) {
    var s := if one then p else Opposite(p);
    (s.ci > 0) == r.i && (s.cq > 0) == r.q && Strong(p)
  }

  /** `pairs` code the bits of `logic`, one pair for each. */
  predicate Coded(pairs: seq<Pair>, logic: seq<bool>, r: Quadrant) {
    |pairs| == |logic| && forall k | 0 <= k < |pairs| :: Codes(pairs[k], logic[k], r)
  }

  predicate Trained(d: Demod, r: Quadrant) { (d.sumI > 0) == r.i && (d.sumQ > 0) == r.q }

  /** Whatever the quadrant, the soft decision has the sign of the bit. */
  lemma SoftSign(d: Demod, p: Pair, one: bool, r: Quadrant)
    requires Trained(d, r) && Codes(p, one, r)
    ensures if one then SoftDecision(d, p) > 0 else SoftDecision(d, p) < 0
  {
  }

  lemma CodedTail(pairs: seq<Pair>, logic: seq<bool>, r: Quadrant, n: nat)
    requires Coded(pairs, logic, r) && n <= |pairs|
    ensures Coded(pairs[..n], logic[..n], r) && Coded(pairs[n..], logic[n..], r)
  {
  }

  /** Cut coded pairs where the logic is cut. */
  lemma CodedSplit(pairs: seq<Pair>, a: seq<bool>, b: seq<bool>, r: Quadrant)
    requires Coded(pairs, a + b, r)
    ensures |a| <= |pairs| && Coded(pairs[..|a|], a, r) && Coded(pairs[|a|..], b, r)
    ensures pairs == pairs[..|a|] + pairs[|a|..]
  {
    CodedTail(pairs, a + b, r, |a|);
    assert (a + b)[..|a|] == a && (a + b)[|a|..] == b;
  }

  // ---------------------------------------------------------------------
  // The phases of a frame
  // ---------------------------------------------------------------------

  lemma {:induction false} Silence(d: Demod, pairs: seq<Pair>)
    requires d.state == Unsynced && forall k | 0 <= k < |pairs| :: !Strong(pairs[k])
    ensures RunPairs(d, pairs) == d
    decreases |pairs|
  {
    if pairs != [] && !d.done {
      StrongIs(pairs[0]);
      assert NextPair(d, pairs[0]) == d;
      Silence(d, pairs[1..]);
    }
  }

  /** While training, the sums stay in the reference quadrant. */
  lemma {:induction false} Training(d: Demod, pairs: seq<Pair>, r: Quadrant)
    requires !d.done && d.state == PhaseRefTraining && Trained(d, r)
    requires 1 <= d.posCount && d.posCount + |pairs| == 8 && Coded(pairs, Level(true, |pairs|), r)
    ensures var d' := RunPairs(d, pairs);
            Trained(d', r) && d' == d.(sumI := d'.sumI, sumQ := d'.sumQ, posCount := 8)
    decreases |pairs|
  {
    hide Detected, Strong;
    if pairs != [] {
      StrongIs(pairs[0]);
      CodedTail(pairs, Level(true, |pairs|), r, 1);
      assert Level(true, |pairs|)[1..] == Level(true, |pairs| - 1);
      Training(NextPair(d, pairs[0]), pairs[1..], r);
    }
  }

  /** Nine pairs of the unmodulated subcarrier set the reference phase. */
  lemma Locked(d: Demod, pairs: seq<Pair>, r: Quadrant)
    requires !d.done && d.state == Unsynced && Coded(pairs, Level(true, 9), r)
    ensures var d' := RunPairs(d, pairs);
            !d'.done && d'.state == AwaitingFallingEdge && d'.posCount == 8 && Trained(d', r)
  {
    hide Detected, Strong;
    StrongIs(pairs[0]);
    var d1 := NextPair(d, pairs[0]);
    var rest := pairs[1..];
    CodedTail(pairs, Level(true, 9), r, 1);
    assert Level(true, 9)[1..] == Level(true, 8);
    CodedTail(rest, Level(true, 8), r, 7);
    assert Level(true, 8)[..7] == Level(true, 7);
    Training(d1, rest[..7], r);
    RunPairsAppend(d1, rest[..7], rest[7..]);
    assert rest == rest[..7] + rest[7..];
    var d2 := RunPairs(d1, rest[..7]);
    assert RunPairs(d2, rest[7..]) == NextPair(d2, rest[7]) by {
      assert rest[7..][1..] == [];
    }
  }

  /** The rest of TR1: logic 1 until the SOF begins. */
  lemma {:induction false} WaitForSof(d: Demod, pairs: seq<Pair>, r: Quadrant)
    requires !d.done && d.state == AwaitingFallingEdge && Trained(d, r)
    requires d.posCount + |pairs| <= 51 && Coded(pairs, Level(true, |pairs|), r)
    ensures RunPairs(d, pairs) == d.(posCount := d.posCount + |pairs|)
    decreases |pairs|
  {
    hide Detected, Strong, SoftDecision, Codes;
    if pairs != [] {
      CodedTail(pairs, Level(true, |pairs|), r, 1);
      assert Level(true, |pairs|)[1..] == Level(true, |pairs| - 1);
      SoftSign(d, pairs[0], true, r);
      WaitForSof(NextPair(d, pairs[0]), pairs[1..], r);
    }
  }

  lemma {:induction false} CountSof(d: Demod, pairs: seq<Pair>, r: Quadrant)
    requires !d.done && d.state == GotFallingEdge && Trained(d, r)
    requires d.posCount + |pairs| <= 28 && Coded(pairs, Level(false, |pairs|), r)
    ensures RunPairs(d, pairs) == d.(posCount := d.posCount + |pairs|)
    decreases |pairs|
  {
    hide Detected, Strong, SoftDecision, Codes;
    if pairs != [] {
      CodedTail(pairs, Level(false, |pairs|), r, 1);
      assert Level(false, |pairs|)[1..] == Level(false, |pairs| - 1);
      SoftSign(d, pairs[0], false, r);
      CountSof(NextPair(d, pairs[0]), pairs[1..], r);
    }
  }

  predicate Ready(d: Demod, r: Quadrant) {
    !d.done && d.state == AwaitingStart && d.bitCount == 0 && 0 <= d.posCount && Trained(d, r)
  }

  /** Logic 1 between characters: up to twelve pairs are borne with. */
  lemma {:induction false} Guard(d: Demod, pairs: seq<Pair>, r: Quadrant)
    requires Ready(d, r) && d.posCount + |pairs| <= 12 && Coded(pairs, Level(true, |pairs|), r)
    ensures RunPairs(d, pairs) == d.(posCount := d.posCount + |pairs|)
    decreases |pairs|
  {
    hide Detected, Strong, SoftDecision, Codes;
    if pairs != [] {
      CodedTail(pairs, Level(true, |pairs|), r, 1);
      assert Level(true, |pairs|)[1..] == Level(true, |pairs| - 1);
      SoftSign(d, pairs[0], true, r);
      Guard(NextPair(d, pairs[0]), pairs[1..], r);
    }
  }

  /** A SOF of `low` pairs of logic 0 and `high` pairs of logic 1. */
  lemma StartOfFrame(d: Demod, pairs: seq<Pair>, low: nat, high: nat, r: Quadrant)
    requires !d.done && d.state == AwaitingFallingEdge && Trained(d, r)
    requires 17 <= low <= 28 && 1 <= high <= 13 && Coded(pairs, Level(false, low) + Level(true, high), r)
    ensures var d' := RunPairs(d, pairs); Ready(d', r) && d'.out == []
  {
    hide Detected, Strong, SoftDecision, Codes, RunPairs;
    CodedSplit(pairs, Level(false, low), Level(true, high), r);
    RunPairsAppend(d, pairs[..low], pairs[low..]);
    SofBegins(d, pairs[..low], r);
    SofEnds(RunPairs(d, pairs[..low]), pairs[low..], high, r);
  }

  lemma SofBegins(d: Demod, low: seq<Pair>, r: Quadrant)
    requires !d.done && d.state == AwaitingFallingEdge && Trained(d, r)
    requires 1 <= |low| <= 28 && Coded(low, Level(false, |low|), r)
    ensures RunPairs(d, low) == d.(state := GotFallingEdge, posCount := |low|)
  {
    hide Detected, Strong, SoftDecision, Codes;
    CodedTail(low, Level(false, |low|), r, 1);
    assert Level(false, |low|)[1..] == Level(false, |low| - 1);
    SoftSign(d, low[0], false, r);
    CountSof(NextPair(d, low[0]), low[1..], r);
  }

  lemma SofEnds(d: Demod, pairs: seq<Pair>, high: nat, r: Quadrant)
    requires !d.done && d.state == GotFallingEdge && d.posCount >= 17 && Trained(d, r)
    requires 1 <= high <= 13 && Coded(pairs, Level(true, high), r)
    ensures var d' := RunPairs(d, pairs); Ready(d', r) && d'.out == []
  {
    hide Detected, Strong, SoftDecision, Codes;
    CodedTail(pairs, Level(true, high), r, 1);
    assert Level(true, high)[1..] == Level(true, high - 1);
    SoftSign(d, pairs[0], true, r);
    Guard(NextPair(d, pairs[0]), pairs[1..], r);
  }

  /** The limits are exact: fewer than 17 pairs of logic 0 are no SOF, and the 29th is too many. */
  lemma SofExact(d: Demod, low: seq<Pair>, p: Pair, r: Quadrant)
    requires !d.done && d.state == AwaitingFallingEdge && Trained(d, r)
    requires 1 <= |low| <= 28 && Coded(low, Level(false, |low|), r)
    ensures Codes(p, true, r) ==>
      var d' := RunPairs(d, low + [p]); !d'.done && d'.state == if |low| >= 17 then AwaitingStart else Unsynced
    ensures Codes(p, false, r) && |low| == 28 ==>
      var d' := RunPairs(d, low + [p]); !d'.done && d'.state == Unsynced
  {
    hide Detected, Strong, SoftDecision, Codes, RunPairs;
    SofBegins(d, low, r);
    var e := RunPairs(d, low);
    RunPairsAppend(d, low, [p]);
    OnePair(e, p);
    if Codes(p, true, r) { SoftSign(e, p, true, r); }
    if Codes(p, false, r) { SoftSign(e, p, false, r); }
  }

  lemma OnePair(d: Demod, p: Pair)
    ensures RunPairs(d, [p]) == if d.done then d else NextPair(d, p)
  {
    hide NextPair;
    assert [p][1..] == [];
  }

  /** After twelve pairs of logic 1 one more ends an empty frame, and loses any other. */
  lemma GuardExact(d: Demod, p: Pair, r: Quadrant)
    requires Ready(d, r) && d.posCount == 12 && Codes(p, true, r)
    ensures var d' := NextPair(d, p); if d.out == [] then d'.done && d'.out == [] else !d'.done && d'.state == Unsynced
  {
    hide Detected, Strong, SoftDecision, Codes;
    SoftSign(d, p, true, r);
  }

  // ---------------------------------------------------------------------
  // Characters
  // ---------------------------------------------------------------------

  lemma TwoPairs(d: Demod, pairs: seq<Pair>)
    requires |pairs| == 2 && !d.done && !NextPair(d, pairs[0]).done
    ensures RunPairs(d, pairs) == NextPair(NextPair(d, pairs[0]), pairs[1])
  {
    hide NextPair;
    var d1 := NextPair(d, pairs[0]);
    assert pairs[1..] == [pairs[1]];
    assert RunPairs(d1, pairs[1..]) == RunPairs(NextPair(d1, pairs[1]), pairs[1..][1..]);
  }

  lemma CodedTwo(pairs: seq<Pair>, bit: bool, r: Quadrant)
    requires Coded(pairs, Level(bit, 2), r)
    ensures |pairs| == 2 && Codes(pairs[0], bit, r) && Codes(pairs[1], bit, r)
  {
    assert Level(bit, 2)[0] == bit && Level(bit, 2)[1] == bit;
  }

  /** Equal but for the correlation of the last bit. */
  predicate Same(d: Demod, e: Demod) { d == e.(thisBit := d.thisBit) }

  lemma StartPairs(d: Demod, pairs: seq<Pair>, r: Quadrant)
    requires Ready(d, r) && Coded(pairs, Level(false, 2), r)
    ensures Same(RunPairs(d, pairs), d.(state := Receiving, posCount := 0, bitCount := 1, shiftReg := 0))
  {
    hide Codes, SoftDecision;
    CodedTwo(pairs, false, r);
    SoftSign(d, pairs[0], false, r);
    var d1 := NextPair(d, pairs[0]);
    SoftSign(d1, pairs[1], false, r);
    assert ShiftBit(0, false) == 0;
    TwoPairs(d, pairs);
  }

  predicate InCharacter(d: Demod, r: Quadrant) {
    !d.done && d.state == Receiving && d.posCount == 0 && 1 <= d.bitCount <= 9 && Trained(d, r)
  }

  lemma DataPairs(d: Demod, pairs: seq<Pair>, bit: bool, r: Quadrant)
    requires InCharacter(d, r) && Coded(pairs, Level(bit, 2), r)
    ensures var e := d.(bitCount := d.bitCount + 1, shiftReg := ShiftBit(d.shiftReg, bit));
            Same(RunPairs(d, pairs), if d.bitCount == 9 then TenBits(e) else e)
  {
    hide Codes, SoftDecision, ShiftBit, StartAndStop, DataBits;
    CodedTwo(pairs, bit, r);
    SoftSign(d, pairs[0], bit, r);
    var d1 := NextPair(d, pairs[0]);
    SoftSign(d1, pairs[1], bit, r);
    TwoPairs(d, pairs);
  }

  lemma {:induction false} DataIn(d: Demod, pairs: seq<Pair>, bits: seq<bool>, r: Quadrant)
    requires InCharacter(d, r) && d.bitCount + |bits| <= 9 && Coded(pairs, Stretch(bits, 2), r)
    ensures Same(RunPairs(d, pairs), d.(bitCount := d.bitCount + |bits|, shiftReg := ShiftAll(d.shiftReg, bits)))
    decreases |bits|
  {
    hide Codes, Coded, NextPair, ShiftBit, Level, RunPairs;
    if bits == [] {
      CodedNothing(d, pairs, r);
    } else {
      CodedSplit(pairs, Level(bits[0], 2), Stretch(bits[1..], 2), r);
      var head, rest := pairs[..2], pairs[2..];
      DataPairs(d, head, bits[0], r);
      RunPairsAppend(d, head, rest);
      DataIn(RunPairs(d, head), rest, bits[1..], r);
    }
  }

  lemma CodedNothing(d: Demod, pairs: seq<Pair>, r: Quadrant)
    requires Coded(pairs, [], r)
    ensures pairs == [] && RunPairs(d, pairs) == d
  {
  }

  /** Start bit and eight more: what NineBits says of the UART's register. */
  lemma NinePairs(d: Demod, pairs: seq<Pair>, bits: seq<bool>, r: Quadrant)
    requires Ready(d, r) && |bits| == 8 && Coded(pairs, Level(false, 2) + Stretch(bits, 2), r)
    ensures var d' := RunPairs(d, pairs);
            InCharacter(d', r) && d'.bitCount == 9 && d'.shiftReg == ShiftAll(0, bits) && d'.out == d.out
  {
    hide Codes, Coded, NextPair, ShiftAll, Level, Stretch, RunPairs;
    CodedSplit(pairs, Level(false, 2), Stretch(bits, 2), r);
    var head, rest := pairs[..2], pairs[2..];
    StartPairs(d, head, r);
    RunPairsAppend(d, head, rest);
    DataIn(RunPairs(d, head), rest, bits, r);
  }

  /** A whole character is received, and the next one may follow at once. */
  lemma CharacterPairs(d: Demod, pairs: seq<Pair>, b: bv8, r: Quadrant)
    requires Ready(d, r) && Coded(pairs, Stretch(Char(b), 2), r)
    ensures var d' := RunPairs(d, pairs); Ready(d', r) && d'.posCount == 0 && d'.out == d.out + [b]
  {
    hide Codes, Coded, NextPair, LsbFirst, Level, Stretch, RunPairs, ShiftAll, ShiftBit, StartAndStop, DataBits;
    var nine := Level(false, 2) + Stretch(LsbFirst(b), 2);
    StretchedChar(b, 2);
    CodedSplit(pairs, nine, Level(true, 2), r);
    var head, stop := pairs[..|nine|], pairs[|nine|..];
    NinePairs(d, head, LsbFirst(b), r);
    RunPairsAppend(d, head, stop);
    StoppedRegister(b);
    DataPairs(RunPairs(d, head), stop, true, r);
  }

  /** Characters, two pairs for a bit, each followed by a gap of extra pairs of logic 1. */
  function GappedChars(frame: seq<bv8>, gaps: seq<nat>): seq<bool>
    requires |gaps| == |frame|
  {
    if frame == [] then []
    else Stretch(Char(frame[0]), 2) + (Level(true, gaps[0]) + GappedChars(frame[1..], gaps[1..]))
  }

  predicate GapsInTime(gaps: seq<nat>) { forall i | 0 <= i < |gaps| :: gaps[i] <= 12 }

  lemma {:induction false} CharactersIn(d: Demod, pairs: seq<Pair>, frame: seq<bv8>, gaps: seq<nat>, r: Quadrant)
    requires Ready(d, r) && |gaps| == |frame| && GapsInTime(gaps) && Coded(pairs, GappedChars(frame, gaps), r)
    ensures var d' := RunPairs(d, pairs); Ready(d', r) && d'.out == d.out + frame
    decreases |frame|
  {
    hide Codes, Coded, NextPair, Char, Stretch, RunPairs, Level;
    if frame == [] {
      CodedNothing(d, pairs, r);
    } else {
      var c, g, more := Stretch(Char(frame[0]), 2), Level(true, gaps[0]), GappedChars(frame[1..], gaps[1..]);
      CodedSplit(pairs, c, g + more, r);
      CodedSplit(pairs[20..], g, more, r);
      var head, gap, rest := pairs[..20], pairs[20..][..gaps[0]], pairs[20..][gaps[0]..];
      CharacterPairs(d, head, frame[0], r);
      var d1 := RunPairs(d, head);
      RunPairsAppend(d, head, pairs[20..]);
      Guard(d1, gap, r);
      RunPairsAppend(d1, gap, rest);
      CharactersIn(RunPairs(d1, gap), rest, frame[1..], gaps[1..], r);
      assert d.out + [frame[0]] + frame[1..] == d.out + frame;
    }
  }

  lemma EndOfFrame(d: Demod, pairs: seq<Pair>, r: Quadrant)
    requires Ready(d, r) && Coded(pairs, Level(false, 20), r)
    ensures var d' := RunPairs(d, pairs); d'.done && d'.out == d.out
    ensures !RunPairs(d, pairs[..19]).done
  {
    hide Codes, Coded, NextPair, Level, Stretch, RunPairs, ShiftAll, ShiftBit, StartAndStop, DataBits;
    var zeros := Level(false, 8);
    StretchLevel(false, 8, 2);
    LevelJoin(false, 2, 16);
    LevelJoin(false, 18, 2);
    CodedSplit(pairs, Level(false, 18), Level(false, 2), r);
    var head, last := pairs[..18], pairs[18..];
    NinePairs(d, head, zeros, r);
    var n := RunPairs(d, head);
    RunPairsAppend(d, head, last);
    DataPairs(n, last, false, r);
    EmptyRegister();
    ZeroRegister();
    ZeroWindow(0);
    assert pairs[..19] == head + [last[0]];
    RunPairsAppend(d, head, [last[0]]);
    HalfBit(n, last[0], r);
  }

  lemma HalfBit(d: Demod, p: Pair, r: Quadrant)
    requires InCharacter(d, r)
    ensures !RunPairs(d, [p]).done
  {
    assert RunPairs(d, [p]) == RunPairs(NextPair(d, p), []);
  }

  // ---------------------------------------------------------------------
  // Whole frames
  // ---------------------------------------------------------------------

  lemma TagLogic(frame: seq<bv8>)
    ensures Stretch(TagBits(frame), 2)
         == (Level(true, 40) + ((Level(false, 20) + Level(true, 4)) + (Stretch(Chars(frame), 2) + Level(false, 20)))) + Level(true, 4)
  {
    hide Chars, Stretch, Level;
    var a := Level(true, 20) + Level(false, 10);
    var b := a + Level(true, 2);
    var c := b + Chars(frame);
    var d := c + Level(false, 10);
    StretchAppend(d, Level(true, 2), 2);
    StretchAppend(c, Level(false, 10), 2);
    StretchAppend(b, Chars(frame), 2);
    StretchAppend(a, Level(true, 2), 2);
    StretchAppend(Level(true, 20), Level(false, 10), 2);
    StretchLevel(true, 20, 2);
    StretchLevel(false, 10, 2);
    StretchLevel(true, 2, 2);
  }

  /** TR1: the subcarrier alone locks the receiver to the reference phase. It takes
      nine pairs, and after every 53 the receiver begins again. */
  lemma {:induction false} Synchronised(d: Demod, pairs: seq<Pair>, r: Quadrant)
    requires !d.done && d.state == Unsynced && |pairs| % 53 >= 9 && Coded(pairs, Level(true, |pairs|), r)
    ensures var d' := RunPairs(d, pairs); !d'.done && d'.state == AwaitingFallingEdge && Trained(d', r)
    decreases |pairs|
  {
    hide Codes, Coded, Level, RunPairs;
    var n := |pairs|;
    if n <= 52 {
      LockedOn(d, pairs, r);
    } else {
      LevelJoin(true, 53, n - 53);
      CodedSplit(pairs, Level(true, 53), Level(true, n - 53), r);
      RunPairsAppend(d, pairs[..53], pairs[53..]);
      GivenUp(d, pairs[..53], r);
      assert n % 53 == (n - 53) % 53;
      Synchronised(RunPairs(d, pairs[..53]), pairs[53..], r);
    }
  }

  lemma LockedOn(d: Demod, pairs: seq<Pair>, r: Quadrant)
    requires !d.done && d.state == Unsynced && 9 <= |pairs| <= 52 && Coded(pairs, Level(true, |pairs|), r)
    ensures var d' := RunPairs(d, pairs);
            !d'.done && d'.state == AwaitingFallingEdge && Trained(d', r) && d'.posCount == |pairs| - 1
  {
    hide Codes, Coded, Level, RunPairs;
    var n := |pairs|;
    LevelJoin(true, 9, n - 9);
    CodedSplit(pairs, Level(true, 9), Level(true, n - 9), r);
    Locked(d, pairs[..9], r);
    RunPairsAppend(d, pairs[..9], pairs[9..]);
    CodedLength(pairs[9..], Level(true, n - 9), r);
    WaitForSof(RunPairs(d, pairs[..9]), pairs[9..], r);
  }

  lemma GivenUp(d: Demod, pairs: seq<Pair>, r: Quadrant)
    requires !d.done && d.state == Unsynced && |pairs| == 53 && Coded(pairs, Level(true, 53), r)
    ensures var d' := RunPairs(d, pairs); !d'.done && d'.state == Unsynced
  {
    hide Codes, Level, RunPairs;
    LevelJoin(true, 52, 1);
    CodedSplit(pairs, Level(true, 52), Level(true, 1), r);
    LockedOn(d, pairs[..52], r);
    var e := RunPairs(d, pairs[..52]);
    RunPairsAppend(d, pairs[..52], pairs[52..]);
    LastOne(pairs[52..], r);
    SoftSign(e, pairs[52], true, r);
    assert pairs[52..] == [pairs[52]];
    OnePair(e, pairs[52]);
  }

  lemma LastOne(pairs: seq<Pair>, r: Quadrant)
    requires Coded(pairs, Level(true, 1), r)
    ensures |pairs| == 1 && Codes(pairs[0], true, r)
  {
    assert Level(true, 1)[0];
  }

  lemma CodedLength(pairs: seq<Pair>, logic: seq<bool>, r: Quadrant)
    requires Coded(pairs, logic, r)
    ensures |pairs| == |logic|
  {
  }

  lemma FramePairs(d: Demod, pairs: seq<Pair>, frame: seq<bv8>, gaps: seq<nat>, r: Quadrant)
    requires Ready(d, r) && d.out == [] && |gaps| == |frame| && GapsInTime(gaps)
    requires Coded(pairs, GappedChars(frame, gaps) + Level(false, 20), r)
    ensures |pairs| >= 20
    ensures var d' := RunPairs(d, pairs); d'.done && d'.out == frame
    ensures !RunPairs(d, pairs[..|pairs| - 1]).done
  {
    hide Codes, Coded, Level, RunPairs, GappedChars, GapsInTime;
    var n := |GappedChars(frame, gaps)|;
    CodedSplit(pairs, GappedChars(frame, gaps), Level(false, 20), r);
    var chars, eof := pairs[..n], pairs[n..];
    CodedLength(eof, Level(false, 20), r);
    CharactersIn(d, chars, frame, gaps, r);
    assert [] + frame == frame;
    RunPairsAppend(d, chars, eof);
    EndOfFrame(RunPairs(d, chars), eof, r);
    assert pairs[..|pairs| - 1] == chars + eof[..19];
    RunPairsAppend(d, chars, eof[..19]);
  }

  /** A frame with any timing: TR1, SOF, characters with gaps, EOF. */
  function AirLogic(tr1: nat, low: nat, high: nat, frame: seq<bv8>, gaps: seq<nat>): seq<bool>
    requires |gaps| == |frame|
  {
    Level(true, tr1) + ((Level(false, low) + Level(true, high)) + (GappedChars(frame, gaps) + Level(false, 20)))
  }

  /** The timing that the receiver bears with. */
  predicate InTime(tr1: nat, low: nat, high: nat, gaps: seq<nat>) {
    tr1 % 53 >= 9 && 17 <= low <= 28 && 1 <= high <= 13 && GapsInTime(gaps)
  }

  /** After any silence, whichever quadrant the phase lies in, however the amplitude
      varies above the threshold and whatever the timing within these limits, the
      frame is reported complete, with exactly its octets, at the last pair of its
      EOF and not before. */
  lemma AirDemodulated(d: Demod, silence: seq<Pair>, pairs: seq<Pair>, tr1: nat, low: nat, high: nat,
                       frame: seq<bv8>, gaps: seq<nat>, r: Quadrant)
    requires d.state == Unsynced && !d.done
    requires forall k | 0 <= k < |silence| :: !Strong(silence[k])
    requires |gaps| == |frame| && InTime(tr1, low, high, gaps) && Coded(pairs, AirLogic(tr1, low, high, frame, gaps), r)
    ensures |pairs| >= 1
    ensures !RunPairs(d, silence + pairs[..|pairs| - 1]).done
    ensures var d' := RunPairs(d, silence + pairs); d'.done && d'.out == frame
  {
    hide Codes, Coded, Strong, Level, RunPairs, GappedChars, GapsInTime, NextPair;
    var sof, body := Level(false, low) + Level(true, high), GappedChars(frame, gaps) + Level(false, 20);
    CodedSplit(pairs, Level(true, tr1), sof + body, r);
    CodedSplit(pairs[tr1..], sof, body, r);
    var t, s, b := pairs[..tr1], pairs[tr1..][..low + high], pairs[tr1..][low + high..];
    Silence(d, silence);
    Synchronised(d, t, r);
    var d1 := RunPairs(d, t);
    StartOfFrame(d1, s, low, high, r);
    FramePairs(RunPairs(d1, s), b, frame, gaps, r);
    InSequence(d, silence, t, s, b);
    InSequence(d, silence, t, s, b[..|b| - 1]);
    assert silence + pairs == silence + (t + (s + b));
    assert silence + pairs[..|pairs| - 1] == silence + (t + (s + b[..|b| - 1]));
  }

  /** The demodulator undoes the encoder. */
  lemma FrameDemodulated(d: Demod, silence: seq<Pair>, pairs: seq<Pair>, frame: seq<bv8>, r: Quadrant)
    requires d.state == Unsynced && !d.done
    requires forall k | 0 <= k < |silence| :: !Strong(silence[k])
    requires Coded(pairs, Stretch(TagBits(frame), 2), r)
    ensures |pairs| >= 5
    ensures !RunPairs(d, silence + pairs[..|pairs| - 5]).done
    ensures var d' := RunPairs(d, silence + pairs[..|pairs| - 4]); d'.done && d'.out == frame
    ensures var d' := RunPairs(d, silence + pairs); d'.done && d'.out == frame
  {
    hide Codes, Coded, Strong, Level, RunPairs, Chars, Stretch, TagBits, NextPair, AirLogic;
    var gaps := NoGaps(frame);
    TagLogic(frame);
    var air := AirLogic(40, 20, 4, frame, gaps);
    TagAir(frame, gaps);
    CodedSplit(pairs, air, Level(true, 4), r);
    CodedLength(pairs, Stretch(TagBits(frame), 2), r);
    var p := pairs[..|pairs| - 4];
    AirDemodulated(d, silence, p, 40, 20, 4, frame, gaps, r);
    assert p[..|p| - 1] == pairs[..|pairs| - 5];
    RunPairsAppend(d, silence + p, pairs[|pairs| - 4..]);
    assert silence + pairs == (silence + p) + pairs[|pairs| - 4..];
    RunDone(RunPairs(d, silence + p), pairs[|pairs| - 4..]);
  }

  lemma TagAir(frame: seq<bv8>, gaps: seq<nat>)
    requires |gaps| == |frame| && GappedChars(frame, gaps) == Stretch(Chars(frame), 2)
    ensures AirLogic(40, 20, 4, frame, gaps)
         == Level(true, 40) + ((Level(false, 20) + Level(true, 4)) + (Stretch(Chars(frame), 2) + Level(false, 20)))
  {
    hide Chars, Stretch, Level, GappedChars;
  }

  lemma {:induction false} NoGaps(frame: seq<bv8>) returns (gaps: seq<nat>)
    ensures |gaps| == |frame| && GapsInTime(gaps) && GappedChars(frame, gaps) == Stretch(Chars(frame), 2)
    decreases |frame|
  {
    hide Char, Level, Stretch;
    if frame == [] {
      gaps := [];
      StretchNothing(2);
    } else {
      var more := NoGaps(frame[1..]);
      gaps := [0] + more;
      assert gaps[1..] == more;
      StretchAppend(Char(frame[0]), Chars(frame[1..]), 2);
      LevelNothing();
      assert [] + GappedChars(frame[1..], more) == GappedChars(frame[1..], more);
    }
  }

  lemma LevelNothing()
    ensures Level(true, 0) == []
  {
  }

  lemma InSequence(d: Demod, w: seq<Pair>, x: seq<Pair>, y: seq<Pair>, z: seq<Pair>)
    ensures RunPairs(d, w + (x + (y + z))) == RunPairs(RunPairs(RunPairs(RunPairs(d, w), x), y), z)
  {
    hide RunPairs;
    RunPairsAppend(d, w, x + (y + z));
    RunPairsAppend(RunPairs(d, w), x, y + z);
    RunPairsAppend(RunPairs(RunPairs(d, w), x), y, z);
  }

  lemma RunDone(d: Demod, pairs: seq<Pair>)
    requires d.done
    ensures RunPairs(d, pairs) == d
  {
  }

  /** A constant reference vector above the threshold codes any logic. */
  lemma ConstantPhase(p: Pair, logic: seq<bool>)
    requires Strong(p)
    ensures Coded(seq(|logic|, k requires 0 <= k < |logic| => if logic[k] then p else Opposite(p)), logic,
                  Quadrant(p.ci > 0, p.cq > 0))
  {
  }

  // ---------------------------------------------------------------------
  // The receiver
  // ---------------------------------------------------------------------

  class Demodulator {
    var state: Phase
    var bitCount: int
    var posCount: int
    var thisBit: int
    var shiftReg: bv16
    var len: int
    var sumI: int
    var sumQ: int
    const output: array<bv8>

    ghost predicate Valid()
      reads this
    {
      0 <= len <= output.Length
    }

    /** The demodulator as a value. */
    ghost function View(done: bool): Demod
      requires Valid()
      reads this, output
    {
      Demod(state, bitCount, posCount, thisBit, shiftReg, output[..len], sumI, sumQ, done)
    }

    constructor (data: array<bv8>)
      ensures Valid() && output == data && View(false).state == Unsynced && len == 0
    {
      output := data;
      state, bitCount, posCount, thisBit, shiftReg, len, sumI, sumQ := Unsynced, 0, 0, 0, 0, 0, 0, 0;
    }

    /** One correlation pair from the tag; the result tells whether a frame has
        ended. The output buffer is not checked, so it must have room for the
        character that this pair may complete. */
    method HandleSamples(p: Pair) returns (done: bool)
      requires Valid() && |NextPair(View(false), p).out| <= output.Length
      modifies this, output
      ensures Valid() && View(done) == NextPair(old(View(false)), p)
      ensures len <= old(len) + 1
    {
      hide Detected, Correlate, NextReceiving;
      done := false;
      var v := Correlate(sumI, sumQ, p);
      match state {
        case Unsynced =>
          if Detected(p) {
            state := PhaseRefTraining;
            sumI := p.ci;
            sumQ := p.cq;
            posCount := 1;
          }
        case PhaseRefTraining =>
          if posCount < 8 {
            if Detected(p) {
              sumI := sumI + p.ci;
              sumQ := sumQ + p.cq;
              posCount := posCount + 1;
            } else {
              state := Unsynced;
            }
          } else {
            state := AwaitingFallingEdge;
          }
        case AwaitingFallingEdge =>
          if v < 0 {
            state := GotFallingEdge;
            posCount := 0;
          } else if posCount > 200 / 4 {
            state := Unsynced;
          }
          posCount := posCount + 1;
        case GotFallingEdge =>
          posCount := posCount + 1;
          if v > 0 {
            if posCount < 9 * 2 {
              state := Unsynced;
            } else {
              posCount := 0;
              bitCount := 0;
              len := 0;
              state := AwaitingStart;
            }
          } else if posCount > 14 * 2 {
            state := Unsynced;
          }
        case AwaitingStart =>
          posCount := posCount + 1;
          if v > 0 {
            if posCount > 6 * 2 {
              if bitCount == 0 && len == 0 {
                done := true;
              } else {
                state := Unsynced;
              }
            }
          } else {
            posCount := 1;
            thisBit := v;
            shiftReg := 0;
            state := Receiving;
          }
        case Receiving =>
          done := HandleData(v);
      }
    }

    method HandleData(v: int) returns (done: bool)
      requires Valid() && state == Receiving && |NextReceiving(View(false), v).out| <= output.Length
      modifies this, output
      ensures Valid() && View(done) == NextReceiving(old(View(false)), v)
      ensures len <= old(len) + 1
    {
      hide ShiftBit, StartAndStop, DataBits;
      done := false;
      if posCount == 0 {
        thisBit := v;
        posCount := 1;
      } else {
        thisBit := thisBit + v;
        shiftReg := ShiftBit(shiftReg, thisBit > 0);
        bitCount := bitCount + 1;
        if bitCount == 10 {
          done := HandleCharacter();
        }
        posCount := 0;
      }
    }

    method HandleCharacter() returns (done: bool)
      requires Valid() && |TenBits(View(false)).out| <= output.Length
      modifies this, output
      ensures Valid() && View(done) == TenBits(old(View(false)))
      ensures len <= old(len) + 1
    {
      hide StartAndStop, DataBits;
      done := false;
      if StartAndStop(shiftReg) {
        output[len] := DataBits(shiftReg);
        len := len + 1;
        assert output[..len] == old(output[..len]) + [DataBits(shiftReg)];
        bitCount := 0;
        state := AwaitingStart;
      } else {
        state := Unsynced;
        if shiftReg == 0 {
          done := true;
        }
      }
    }
  
    /** Take pairs until a frame has ended. */
    method Receive(pairs: seq<Pair>) returns (done: bool)
      requires Valid()
      requires forall k | 0 <= k <= |pairs| :: |RunPairs(View(false), pairs[..k]).out| <= output.Length
      modifies this, output
      ensures Valid() && View(done) == RunPairs(old(View(false)), pairs)
    {
      hide NextPair, RunPairs;
      ghost var d := View(false);
      RunNone(d);
      done := false;
      var i := 0;
      assert pairs[..0] == [];
      while i < |pairs| && !done
        invariant i <= |pairs| && Valid() && View(done) == RunPairs(d, pairs[..i])
      {
        RunSnoc(d, pairs, i);
        done := HandleSamples(pairs[i]);
        i := i + 1;
      }
      RunPairsAppend(d, pairs[..i], pairs[i..]);
      assert pairs == pairs[..i] + pairs[i..];
      if done { RunDone(View(true), pairs[i..]); } else { RunNone(View(false)); }
    }

    lemma RunNone(d: Demod)
      ensures RunPairs(d, []) == d
    {
    }

    lemma RunSnoc(d: Demod, pairs: seq<Pair>, i: nat)
      requires i < |pairs| && !RunPairs(d, pairs[..i]).done
      ensures RunPairs(d, pairs[..i + 1]) == NextPair(RunPairs(d, pairs[..i]), pairs[i])
    {
      hide NextPair;
      RunPairsAppend(d, pairs[..i], [pairs[i]]);
      assert pairs[..i + 1] == pairs[..i] + [pairs[i]];
      var e := RunPairs(d, pairs[..i]);
      assert [pairs[i]][1..] == [];
      assert RunPairs(e, [pairs[i]]) == RunPairs(NextPair(e, pairs[i]), []);
    }

    /** A frame as the tag encodes it ends up in the output buffer, whatever the
        quadrant, if the buffer has room all along. */
    method ReceiveFrame(silence: seq<Pair>, pairs: seq<Pair>, ghost frame: seq<bv8>, ghost r: Quadrant)
      returns (done: bool)
      requires Valid() && state == Unsynced
      requires forall k | 0 <= k < |silence| :: !Strong(silence[k])
      requires Coded(pairs, Stretch(TagBits(frame), 2), r)
      requires forall k | 0 <= k <= |silence + pairs| ::
        |RunPairs(View(false), (silence + pairs)[..k]).out| <= output.Length
      modifies this, output
      ensures Valid() && done && output[..len] == frame
    {
      hide RunPairs, Coded, Strong, Stretch, TagBits;
      FrameDemodulated(View(false), silence, pairs, frame, r);
      done := Receive(silence + pairs);
    }
  }
}
