/** The ISO 14443-B receiver of the tag emulator, armsrc/iso14443b.c: a soft
    UART that sees four samples of every bit sent by a reader. */
module Iso14443bUart {
  import opened Bits
  import opened Iso14443bFrame

  datatype State = Unsyncd | GotFallingEdgeOfSof | AwaitingStartBit | ReceivingData

  /** `out` is the part of the output buffer filled so far, `done` what the
      last call returned; once it is true no more samples are taken. */
  datatype Uart = Uart(state: State, shiftReg: bv16, bitCnt: int, posCnt: int,
                       max: int, out: seq<bv8>, done: bool)

  function NextSof(u: Uart, bit: bool): Uart {
    var pos := u.posCnt + 1;
    var u1 := if pos != 2 then u.(posCnt := pos)
              else if !bit then u.(posCnt := pos, bitCnt := u.bitCnt + 1)
              else if u.bitCnt > 9 then u.(posCnt := 0, bitCnt := u.bitCnt + 1, out := [], state := AwaitingStartBit)
              else u.(posCnt := pos, bitCnt := u.bitCnt + 1, state := Unsyncd);
    var u2 := if u1.posCnt >= 4 then u1.(posCnt := 0) else u1;
    if u2.bitCnt > 12 then u2.(state := Unsyncd) else u2
  }

  function NextStart(u: Uart, bit: bool): Uart {
    if !bit then u.(posCnt := 0, bitCnt := 0, shiftReg := 0, state := ReceivingData)
    else if u.posCnt + 1 > 25 then u.(posCnt := u.posCnt + 1, state := Unsyncd)
    else u.(posCnt := u.posCnt + 1)
  }

  /** Ten bits are in: a data character, the end of the frame, or an error. */
  function CharacterIn(u: Uart): Uart {
    if StartAndStop(u.shiftReg) then
      var out := u.out + [DataBits(u.shiftReg)];
      if |out| >= u.max then u.(out := out, state := Unsyncd)
      else u.(out := out, posCnt := 0, state := AwaitingStartBit)
    else u.(state := Unsyncd, done := u.shiftReg == 0 && u.out != [])
  }

  function NextData(u: Uart, bit: bool): Uart {
    var pos := u.posCnt + 1;
    var u1 := if pos == 2 then u.(posCnt := pos, shiftReg := ShiftBit(u.shiftReg, bit), bitCnt := u.bitCnt + 1)
              else if pos >= 4 then u.(posCnt := 0)
              else u.(posCnt := pos);
    if u1.bitCnt == 10 then CharacterIn(u1) else u1
  }

  function Next(u: Uart, bit: bool): Uart {
    match u.state
    case Unsyncd => if bit then u else u.(state := GotFallingEdgeOfSof, posCnt := 0, bitCnt := 0)
    case GotFallingEdgeOfSof => NextSof(u, bit)
    case AwaitingStartBit => NextStart(u, bit)
    case ReceivingData => NextData(u, bit)
  }

  /** Samples are taken until the end of a frame is reported. */
  function Run(u: Uart, samples: seq<bool>): Uart
    decreases |samples|
  {
    if u.done || samples == [] then u else Run(Next(u, samples[0]), samples[1..])
  }

  lemma {:induction false} RunAppend(u: Uart, a: seq<bool>, b: seq<bool>)
    ensures Run(u, a + b) == Run(Run(u, a), b)
    decreases |a|
  {
    hide Next;
    if a == [] {
      assert a + b == b;
    } else if !u.done {
      assert (a + b)[1..] == a[1..] + b;
      RunAppend(Next(u, a[0]), a[1..], b);
    }
  }

  lemma Run4(u: Uart, bit: bool)
    requires !u.done && !Next(u, bit).done && !Next(Next(u, bit), bit).done
    requires !Next(Next(Next(u, bit), bit), bit).done
    ensures Run(u, Level(bit, 4)) == Next(Next(Next(Next(u, bit), bit), bit), bit)
  {
    hide Next;
    assert Level(bit, 4)[1..] == Level(bit, 3);
    assert Level(bit, 3)[1..] == Level(bit, 2);
    assert Level(bit, 2)[1..] == Level(bit, 1);
    assert Level(bit, 1)[1..] == Level(bit, 0);
    var u1 := Next(u, bit);
    var u2 := Next(u1, bit);
    var u3 := Next(u2, bit);
    var u4 := Next(u3, bit);
    assert Run(u4, Level(bit, 0)) == u4;
    assert Run(u3, Level(bit, 1)) == u4;
    assert Run(u2, Level(bit, 2)) == u4;
    assert Run(u1, Level(bit, 3)) == u4;
  }

  // ---------------------------------------------------------------------
  // One character
  // ---------------------------------------------------------------------

  /** One more bit of a character, sampled in the middle. */
  lemma DataBit(u: Uart, bit: bool)
    requires !u.done && u.state == ReceivingData && u.posCnt == 3 && 1 <= u.bitCnt < 9
    ensures Run(u, Level(bit, 4)) == u.(bitCnt := u.bitCnt + 1, shiftReg := ShiftBit(u.shiftReg, bit))
  {
    hide ShiftBit;
    Run4(u, bit);
  }

  lemma {:induction false} DataBitsIn(u: Uart, bits: seq<bool>)
    requires !u.done && u.state == ReceivingData && u.posCnt == 3 && 1 <= u.bitCnt <= 9 - |bits|
    ensures Run(u, Stretch(bits, 4)) == u.(bitCnt := u.bitCnt + |bits|, shiftReg := ShiftAll(u.shiftReg, bits))
    decreases |bits|
  {
    hide ShiftBit, Next;
    if bits != [] {
      DataBit(u, bits[0]);
      RunAppend(u, Level(bits[0], 4), Stretch(bits[1..], 4));
      DataBitsIn(u.(bitCnt := u.bitCnt + 1, shiftReg := ShiftBit(u.shiftReg, bits[0])), bits[1..]);
    }
  }

  lemma StartBit(u: Uart)
    requires !u.done && u.state == AwaitingStartBit
    ensures Run(u, Level(false, 4)) == u.(state := ReceivingData, posCnt := 3, bitCnt := 1, shiftReg := 0)
  {
    assert ShiftBit(0, false) == 0;
    Run4(u, false);
  }

  /** The state after a start bit and eight data bits. */
  function Nine(u: Uart, bits: seq<bool>): Uart {
    u.(state := ReceivingData, posCnt := 3, bitCnt := 9, shiftReg := ShiftAll(0, bits))
  }

  lemma NineBits(u: Uart, bits: seq<bool>)
    requires !u.done && u.state == AwaitingStartBit && |bits| == 8
    ensures Run(u, Level(false, 4) + Stretch(bits, 4)) == Nine(u, bits)
    ensures Low10(ShiftAll(0, bits)) && Bits10(ShiftAll(0, bits))[1..] == [false] + bits
  {
    hide Next, Run, Stretch, Bits10, ShiftAll, Low10;
    RunAppend(u, Level(false, 4), Stretch(bits, 4));
    StartBit(u);
    DataBitsIn(u.(state := ReceivingData, posCnt := 3, bitCnt := 1, shiftReg := 0), bits);
    ZeroRegister();
    ShiftAllWindow(0, bits);
    assert (Level(false, 10) + bits)[8..][1..] == [false] + bits;
  }

  /** The stop bit completes the character. */
  lemma StopBit(u: Uart, b: bv8)
    requires !u.done && |u.out| + 1 < u.max
    ensures Run(Nine(u, LsbFirst(b)), Level(true, 4))
         == u.(state := AwaitingStartBit, posCnt := 1, bitCnt := 10, out := u.out + [b],
               shiftReg := ShiftBit(ShiftAll(0, LsbFirst(b)), true))
  {
    hide ShiftBit, ShiftAll, LsbFirst, StartAndStop, DataBits;
    var n := Nine(u, LsbFirst(b));
    StoppedRegister(b);
    Run4(n, true);
  }

  /** A whole character is received, and the receiver waits for the next one. */
  lemma Character(u: Uart, b: bv8)
    requires !u.done && u.state == AwaitingStartBit && |u.out| + 1 < u.max
    ensures var u' := Run(u, Stretch(Char(b), 4));
            !u'.done && u'.state == AwaitingStartBit && u'.posCnt == 1 && u'.out == u.out + [b] && u'.max == u.max
  {
    hide Next, Run, LsbFirst, ShiftAll, ShiftBit, Level;
    StretchedChar(b, 4);
    NineBits(u, LsbFirst(b));
    RunAppend(u, Level(false, 4) + Stretch(LsbFirst(b), 4), Level(true, 4));
    StopBit(u, b);
  }

  // ---------------------------------------------------------------------
  // SOF, gaps and EOF
  // ---------------------------------------------------------------------

  lemma {:induction false} IdleHigh(u: Uart, n: nat)
    requires u.state == Unsyncd
    ensures Run(u, Level(true, n)) == u
  {
    if n > 0 && !u.done {
      assert Level(true, n)[1..] == Level(true, n - 1);
      IdleHigh(u, n - 1);
    }
  }

  /** `n` low bits from idle: the receiver counts them. */
  lemma {:induction false} SofLow(u: Uart, n: nat)
    requires !u.done && u.state == Unsyncd && 1 <= n <= 12
    ensures Run(u, Level(false, 4 * n)) == u.(state := GotFallingEdgeOfSof, posCnt := 3, bitCnt := n)
  {
    if n == 1 {
      Run4(u, false);
    } else {
      SofLow(u, n - 1);
      LevelJoin(false, 4 * (n - 1), 4);
      RunAppend(u, Level(false, 4 * (n - 1)), Level(false, 4));
      Run4(u.(state := GotFallingEdgeOfSof, posCnt := 3, bitCnt := n - 1), false);
    }
  }

  /** The first high bit after `n` low ones decides whether they were a SOF. */
  lemma SofHigh(u: Uart, n: nat)
    requires !u.done && n <= 11
    ensures Run(u.(state := GotFallingEdgeOfSof, posCnt := 3, bitCnt := n), Level(true, 4))
         == if n > 9 then u.(state := AwaitingStartBit, posCnt := 1, bitCnt := n + 1, out := [])
            else u.(state := Unsyncd, posCnt := 2, bitCnt := n + 1)
  {
    Run4(u.(state := GotFallingEdgeOfSof, posCnt := 3, bitCnt := n), true);
  }

  /** A gap of up to 25 samples is tolerated, a longer one loses the frame. */
  lemma {:induction false} Gap(u: Uart, n: nat)
    requires !u.done && u.state == AwaitingStartBit && 0 <= u.posCnt <= 25
    ensures Run(u, Level(true, n)) == if u.posCnt + n <= 25 then u.(posCnt := u.posCnt + n)
                                      else u.(state := Unsyncd, posCnt := 26)
    decreases n
  {
    if n > 0 {
      assert Level(true, n)[1..] == Level(true, n - 1);
      var u1 := Next(u, true);
      if u1.state == AwaitingStartBit {
        Gap(u1, n - 1);
      } else {
        IdleHigh(u1, n - 1);
      }
    }
  }

  /** The low phase of a SOF in samples, up to the length at which it is given up. */
  lemma {:induction false} LowSamples(u: Uart, n: nat)
    requires !u.done && u.state == Unsyncd && 1 <= n <= 50
    ensures Run(u, Level(false, n)) == u.(state := GotFallingEdgeOfSof, posCnt := (n - 1) % 4, bitCnt := (n + 1) / 4)
  {
    hide Run, Next;
    if n == 1 {
      RunOne(u, false);
      FirstLow(u);
    } else {
      var v := u.(state := GotFallingEdgeOfSof, posCnt := (n - 2) % 4, bitCnt := n / 4);
      LowSamples(u, n - 1);
      LevelJoin(false, n - 1, 1);
      RunAppend(u, Level(false, n - 1), Level(false, 1));
      RunOne(v, false);
      NextLow(v, n);
    }
  }

  lemma FirstLow(u: Uart)
    requires u.state == Unsyncd
    ensures Next(u, false) == u.(state := GotFallingEdgeOfSof, posCnt := 0, bitCnt := 0)
  {
  }

  lemma NextLow(u: Uart, n: nat)
    requires u.state == GotFallingEdgeOfSof && 2 <= n <= 50 && u.posCnt == (n - 2) % 4 && u.bitCnt == n / 4
    ensures Next(u, false) == u.(posCnt := (n - 1) % 4, bitCnt := (n + 1) / 4)
  {
  }

  lemma RunOne(u: Uart, bit: bool)
    ensures Run(u, Level(bit, 1)) == if u.done then u else Next(u, bit)
  {
    hide Next;
    assert Level(bit, 1)[1..] == [];
    RunNothing(Next(u, bit));
  }

  /** How far a low phase of n samples has got: it is given up after every 51. */
  predicate Counted(u: Uart, n: nat) {
    var m := n % 51;
    !u.done &&
    if m == 0 then u.state == Unsyncd
    else u.state == GotFallingEdgeOfSof && u.posCnt == (m - 1) % 4 && u.bitCnt == (m + 1) / 4
  }

  lemma {:induction false} LowPhase(u: Uart, n: nat)
    requires Lost(u)
    ensures var u' := Run(u, Level(false, n)); Counted(u', n) && u'.max == u.max
    decreases n
  {
    hide Next, Run, Counted;
    CountedFew(u, n);
    if n == 0 {
      assert Level(false, 0) == [];
      RunNothing(u);
    } else if n <= 50 {
      LowSamples(u, n);
    } else {
      LevelJoin(false, 51, n - 51);
      RunAppend(u, Level(false, 51), Level(false, n - 51));
      GivenUp(u);
      LowPhase(Run(u, Level(false, 51)), n - 51);
      CountedOn(Run(u, Level(false, n)), n);
    }
  }

  lemma CountedFew(u: Uart, n: nat)
    requires Lost(u)
    ensures Counted(u, 0)
    ensures 1 <= n <= 50 ==>
      Counted(u.(state := GotFallingEdgeOfSof, posCnt := (n - 1) % 4, bitCnt := (n + 1) / 4), n)
  {
  }

  lemma CountedOn(u: Uart, n: nat)
    requires n > 50 && Counted(u, n - 51)
    ensures Counted(u, n)
  {
    OnceMore(n);
  }

  lemma OnceMore(n: nat)
    requires n > 50
    ensures n % 51 == (n - 51) % 51
  {
  }

  lemma GivenUp(u: Uart)
    requires Lost(u)
    ensures var u' := Run(u, Level(false, 51)); Lost(u') && u'.max == u.max
  {
    hide Run;
    LowSamples(u, 50);
    LevelJoin(false, 50, 1);
    RunAppend(u, Level(false, 50), Level(false, 1));
    RunOne(Run(u, Level(false, 50)), false);
  }

  /** The high samples up to the one that is looked at. */
  function Left(posCnt: int): nat { if posCnt == 1 then 1 else if posCnt == 0 then 2 else if posCnt == 3 then 3 else 4 }

  /** The first high sample that is looked at decides whether the low phase was a SOF. */
  lemma {:induction false} HighPhase(u: Uart, n: nat)
    requires !u.done && u.state == GotFallingEdgeOfSof && 0 <= u.posCnt <= 3 && 0 <= u.bitCnt <= 12 && n >= Left(u.posCnt)
    ensures var u' := Run(u, Level(true, n));
            u'.max == u.max &&
            if 10 <= u.bitCnt <= 11 && n <= 25 + Left(u.posCnt) then Ready(u') && u'.out == [] else Lost(u')
    decreases n
  {
    assert Level(true, n)[1..] == Level(true, n - 1);
    var v := Next(u, true);
    if u.posCnt != 1 {
      HighPhase(v, n - 1);
    } else if v.state == AwaitingStartBit {
      Gap(v, n - 1);
    } else {
      IdleHigh(v, n - 1);
    }
  }

  /** EOF is reported in the middle of its tenth low bit, and not before. */
  lemma EndOfFrame(u: Uart)
    requires !u.done && u.state == AwaitingStartBit && u.out != []
    ensures !Run(u, Level(false, 38)).done
    ensures var u' := Run(u, Level(false, 39)); u'.done && u'.out == u.out
  {
    hide Next, Run, Level, Stretch, Bits10, ShiftAll;
    var zeros := Level(false, 8);
    assert Level(false, 36) == Level(false, 4) + Stretch(zeros, 4) by {
      StretchLevel(false, 8, 4);
      LevelJoin(false, 4, 32);
    }
    NineBits(u, zeros);
    TenthLow(u);
    RunAppend(u, Level(false, 36), Level(false, 2));
    RunAppend(u, Level(false, 36), Level(false, 3));
    LevelJoin(false, 36, 2);
    LevelJoin(false, 36, 3);
  }

  lemma TenthLow(u: Uart)
    requires !u.done && u.out != []
    ensures var n := Nine(u, Level(false, 8));
            && !Run(n, Level(false, 2)).done
            && Run(n, Level(false, 3)).done && Run(n, Level(false, 3)).out == u.out
  {
    hide Level, ShiftAll, ShiftBit, StartAndStop;
    var n := Nine(u, Level(false, 8));
    EmptyRegister();
    ZeroWindow(0);
    ZeroRegister();
    LowLevels();
    var n2 := Next(Next(n, false), false);
    assert Run(n, Level(false, 2)) == n2;
    assert Run(n, Level(false, 3)) == Next(n2, false);
  }

  lemma LowLevels()
    ensures Level(false, 3)[1..] == Level(false, 2) && Level(false, 2)[1..] == Level(false, 1) && Level(false, 1)[1..] == []
    ensures !Level(false, 3)[0] && !Level(false, 2)[0] && !Level(false, 1)[0]
  {
  }


  // ---------------------------------------------------------------------
  // Whole frames
  // ---------------------------------------------------------------------

  /** Characters on the air, each followed by a gap of extra high samples. */
  function CharsAir(frame: seq<bv8>, gaps: seq<nat>): seq<bool>
    requires |gaps| == |frame|
  {
    if frame == [] then [] else Stretch(Char(frame[0]), 4) + Level(true, gaps[0]) + CharsAir(frame[1..], gaps[1..])
  }

  /** Everything up to the EOF: idle, SOF with its low and high phase, characters. */
  function BeforeEof(idle: nat, low: nat, high: nat, frame: seq<bv8>, gaps: seq<nat>): seq<bool>
    requires |gaps| == |frame|
  {
    Level(true, idle) + (Level(false, low) + (Level(true, high) + CharsAir(frame, gaps)))
  }

  /** The SOFs that the receiver takes: a low phase of 39 to 46 samples, given up and
      begun again after every 51, and a high phase of 26 to 29 at most. */
  predicate SofInTime(low: nat, high: nat) {
    39 <= low % 51 <= 46 && high <= 26 + (2 - low % 51) % 4
  }

  /** The longest gap that the receiver bears with behind a character: 24 extra samples. */
  predicate GapsInTime(gaps: seq<nat>) { forall i | 0 <= i < |gaps| :: gaps[i] <= 24 }

  predicate Ready(u: Uart) { !u.done && u.state == AwaitingStartBit && 0 <= u.posCnt <= 25 }

  predicate Lost(u: Uart) { !u.done && u.state == Unsyncd }

  /** A SOF is taken for one exactly within these limits. */
  lemma StartOfFrame(u: Uart, idle: nat, low: nat, high: nat)
    requires Lost(u) && high >= 4
    ensures var u' := Run(u, Level(true, idle) + (Level(false, low) + Level(true, high)));
            u'.max == u.max && if SofInTime(low, high) then Ready(u') && u'.out == [] else Lost(u')
  {
    hide Next, Run;
    IdleHigh(u, idle);
    RunAppend(u, Level(true, idle), Level(false, low) + Level(true, high));
    RunAppend(u, Level(false, low), Level(true, high));
    LowPhase(u, low);
    var v := Run(u, Level(false, low));
    if v.state == Unsyncd { IdleHigh(v, high); } else { HighPhase(v, high); }
  }

  lemma {:induction false} Characters(u: Uart, frame: seq<bv8>, gaps: seq<nat>)
    requires Ready(u) && |gaps| == |frame| && |u.out| + |frame| < u.max
    ensures var u' := Run(u, CharsAir(frame, gaps));
            if GapsInTime(gaps) then Ready(u') && u'.out == u.out + frame else Lost(u')
    decreases |frame|
  {
    hide Next, Run, Char, Level, Stretch;
    if frame == [] {
      assert u.out + frame == u.out;
      assert Run(u, []) == u by { RunNothing(u); }
    } else {
      var head := Stretch(Char(frame[0]), 4);
      var rest := CharsAir(frame[1..], gaps[1..]);
      var g := Level(true, gaps[0]);
      RunAppend(u, head + g, rest);
      RunAppend(u, head, g);
      Character(u, frame[0]);
      Gap(Run(u, head), gaps[0]);
      var v := Run(u, head + g);
      if gaps[0] <= 24 {
        Characters(v, frame[1..], gaps[1..]);
        assert u.out + [frame[0]] + frame[1..] == u.out + frame;
        assert GapsInTime(gaps) <==> GapsInTime(gaps[1..]) by {
          assert forall i | 1 <= i < |gaps| :: gaps[i] == gaps[1..][i - 1];
        }
      } else {
        LostCharacters(v, frame[1..], gaps[1..]);
      }
    }
  }

  lemma RunNothing(u: Uart)
    ensures Run(u, []) == u
  {
  }

  /** Out of sync inside a frame: idle, or counting at most `k` low bits. */
  predicate Adrift(u: Uart, k: int) {
    !u.done && (u.state == Unsyncd || (u.state == GotFallingEdgeOfSof && u.posCnt == 3 && 1 <= u.bitCnt <= k))
  }

  lemma AdriftBit(u: Uart, bit: bool, k: nat)
    requires Adrift(u, k) && k < 9
    ensures Adrift(Run(u, Level(bit, 4)), if bit then 0 else k + 1)
  {
    hide Run, Next;
    if u.state == Unsyncd {
      if bit { IdleHigh(u, 4); } else { SofLow(u, 1); }
    } else if bit {
      SofHigh(u, u.bitCnt);
      assert u == u.(state := GotFallingEdgeOfSof, posCnt := 3, bitCnt := u.bitCnt);
    } else {
      SofCount(u);
    }
  }

  lemma SofCount(u: Uart)
    requires !u.done && u.state == GotFallingEdgeOfSof && u.posCnt == 3 && 1 <= u.bitCnt < 12
    ensures Run(u, Level(false, 4)) == u.(bitCnt := u.bitCnt + 1)
  {
    Run4(u, false);
  }

  lemma {:induction false} AdriftBits(u: Uart, bits: seq<bool>, k: nat)
    requires Adrift(u, k) && k + |bits| <= 9
    ensures Adrift(Run(u, Stretch(bits, 4)), 9)
    decreases |bits|
  {
    hide Run, Next;
    if bits == [] {
      RunNothing(u);
    } else {
      RunAppend(u, Level(bits[0], 4), Stretch(bits[1..], 4));
      AdriftBit(u, bits[0], k);
      AdriftBits(Run(u, Level(bits[0], 4)), bits[1..], k + 1);
    }
  }

  /** No character can be taken for a SOF: it has at most nine low bits in a row. */
  lemma LostCharacter(u: Uart, b: bv8)
    requires Lost(u)
    ensures Lost(Run(u, Stretch(Char(b), 4)))
  {
    hide Run, Next, LsbFirst, Stretch, Level;
    var bits := [false] + LsbFirst(b);
    StretchSnoc(bits, true, 4);
    RunAppend(u, Stretch(bits, 4), Level(true, 4));
    AdriftBits(u, bits, 0);
    var v := Run(u, Stretch(bits, 4));
    if v.state == Unsyncd {
      IdleHigh(v, 4);
    } else {
      SofHigh(v, v.bitCnt);
      assert v == v.(state := GotFallingEdgeOfSof, posCnt := 3, bitCnt := v.bitCnt);
    }
  }

  lemma {:induction false} LostCharacters(u: Uart, frame: seq<bv8>, gaps: seq<nat>)
    requires Lost(u) && |gaps| == |frame|
    ensures Lost(Run(u, CharsAir(frame, gaps)))
    decreases |frame|
  {
    hide Next, Run, Char, Level, Stretch;
    if frame == [] {
      RunNothing(u);
    } else {
      var head := Stretch(Char(frame[0]), 4);
      var g := Level(true, gaps[0]);
      RunAppend(u, head + g, CharsAir(frame[1..], gaps[1..]));
      RunAppend(u, head, g);
      LostCharacter(u, frame[0]);
      IdleHigh(Run(u, head), gaps[0]);
      LostCharacters(Run(u, head + g), frame[1..], gaps[1..]);
    }
  }

  /** Where the frame has been received or lost when the EOF begins. */
  lemma UpToEof(u: Uart, idle: nat, low: nat, high: nat, frame: seq<bv8>, gaps: seq<nat>)
    requires Lost(u) && |gaps| == |frame| < u.max && high >= 4
    ensures var u' := Run(u, BeforeEof(idle, low, high, frame, gaps));
            if SofInTime(low, high) && GapsInTime(gaps) then Ready(u') && u'.out == frame else Lost(u')
  {
    hide Next, Run, CharsAir, Level;
    var sof := Level(true, idle) + (Level(false, low) + Level(true, high));
    var chars := CharsAir(frame, gaps);
    assert BeforeEof(idle, low, high, frame, gaps) == sof + chars;
    RunAppend(u, sof, chars);
    StartOfFrame(u, idle, low, high);
    var v := Run(u, sof);
    if SofInTime(low, high) {
      Characters(v, frame, gaps);
      assert [] + frame == frame;
    } else {
      LostCharacters(v, frame, gaps);
    }
  }

  /** The receiver undoes the encoder: a frame within the buffer is reported
      complete, with exactly its octets, in the middle of the last bit of its
      EOF and not before, if SOF and gaps are in time; otherwise nothing is
      reported at all. */
  lemma FrameReceived(u: Uart, idle: nat, low: nat, high: nat, frame: seq<bv8>, gaps: seq<nat>)
    requires Lost(u) && 1 <= |frame| == |gaps| < u.max && high >= 4
    ensures var before := BeforeEof(idle, low, high, frame, gaps);
            if SofInTime(low, high) && GapsInTime(gaps) then
              && !Run(u, before + Level(false, 38)).done
              && Run(u, before + Level(false, 39)).done
              && Run(u, before + Level(false, 39)).out == frame
            else
              !Run(u, before + (Level(false, 40) + Level(true, 32))).done
  {
    hide Next, Run, BeforeEof, Level;
    var before := BeforeEof(idle, low, high, frame, gaps);
    UpToEof(u, idle, low, high, frame, gaps);
    var v := Run(u, before);
    if SofInTime(low, high) && GapsInTime(gaps) {
      RunAppend(u, before, Level(false, 38));
      RunAppend(u, before, Level(false, 39));
      EndOfFrame(v);
    } else {
      var eof := Level(false, 40) + Level(true, 32);
      RunAppend(u, before, eof);
      StartOfFrame(v, 0, 40, 32);
      assert Level(true, 0) + eof == eof;
    }
  }

  /** Without extra gaps these are the samples of what the encoder lays out. */
  lemma {:induction false} EncoderSamples(frame: seq<bv8>)
    ensures BeforeEof(0, 40, 8, frame, seq(|frame|, _ => 0)) + Level(false, 40) + Level(true, 32)
         == Stretch(ReaderBits(frame), 4)
  {
    hide Level, Stretch, Chars;
    var a := Level(false, 10) + Level(true, 2);
    var b := a + Chars(frame);
    var c := b + Level(false, 10);
    StretchAppend(c, Level(true, 8), 4);
    StretchAppend(b, Level(false, 10), 4);
    StretchAppend(a, Chars(frame), 4);
    StretchAppend(Level(false, 10), Level(true, 2), 4);
    StretchLevel(false, 10, 4);
    StretchLevel(true, 2, 4);
    StretchLevel(true, 8, 4);
    NoGaps(frame);
    assert Level(true, 0) == [];
  }

  lemma {:induction false} NoGaps(frame: seq<bv8>)
    ensures CharsAir(frame, seq(|frame|, _ => 0)) == Stretch(Chars(frame), 4)
    decreases |frame|
  {
    hide Char, Level;
    if frame != [] {
      assert seq(|frame|, _ => 0)[1..] == seq(|frame| - 1, _ => 0);
      NoGaps(frame[1..]);
      StretchAppend(Char(frame[0]), Chars(frame[1..]), 4);
      assert Level(true, 0) == [];
    }
  }

  // ---------------------------------------------------------------------
  // The receiver
  // ---------------------------------------------------------------------

  class Receiver {
    var state: State
    var shiftReg: bv16
    var bitCnt: int
    var byteCnt: int
    var byteCntMax: int
    var posCnt: int
    const output: array<bv8>

    ghost predicate Valid()
      reads this
    {
      && 0 <= byteCnt <= byteCntMax <= output.Length && 0 < byteCntMax
      && (state == AwaitingStartBit || state == ReceivingData ==> byteCnt < byteCntMax)
    }

    /** The receiver as a value. */
    ghost function View(done: bool): Uart
      requires Valid()
      reads this, output
    {
      Uart(state, shiftReg, bitCnt, posCnt, byteCntMax, output[..byteCnt], done)
    }

    constructor (data: array<bv8>, max: int)
      requires 0 < max <= data.Length
      ensures Valid() && output == data && Lost(View(false)) && byteCntMax == max
    {
      output := data;
      state, shiftReg, bitCnt, byteCnt, byteCntMax, posCnt := Unsyncd, 0, 0, 0, max, 0;
    }

    /** One sample from the reader; the result tells whether a frame has ended. */
    method HandleSample(bit: bool) returns (done: bool)
      requires Valid()
      modifies this, output
      ensures Valid() && View(done) == Next(old(View(false)), bit)
    {
      hide ShiftBit, StartAndStop, DataBits;
      done := false;
      match state {
        case Unsyncd =>
          if !bit {
            state := GotFallingEdgeOfSof;
            posCnt := 0;
            bitCnt := 0;
          }
        case GotFallingEdgeOfSof =>
          posCnt := posCnt + 1;
          if posCnt == 2 {
            if bit {
              if bitCnt > 9 {
                posCnt := 0;
                byteCnt := 0;
                state := AwaitingStartBit;
              } else {
                state := Unsyncd;
              }
            }
            bitCnt := bitCnt + 1;
          }
          if posCnt >= 4 {
            posCnt := 0;
          }
          if bitCnt > 12 {
            state := Unsyncd;
          }
        case AwaitingStartBit =>
          posCnt := posCnt + 1;
          if bit {
            if posCnt > 50 / 2 {
              state := Unsyncd;
            }
          } else {
            posCnt := 0;
            bitCnt := 0;
            shiftReg := 0;
            state := ReceivingData;
          }
        case ReceivingData =>
          done := HandleDataSample(bit);
      }
    }

    method HandleDataSample(bit: bool) returns (done: bool)
      requires Valid() && state == ReceivingData
      modifies this, output
      ensures Valid() && View(done) == NextData(old(View(false)), bit)
    {
      hide ShiftBit, CharacterIn;
      done := false;
      posCnt := posCnt + 1;
      if posCnt == 2 {
        shiftReg := ShiftBit(shiftReg, bit);
        bitCnt := bitCnt + 1;
      }
      if posCnt >= 4 {
        posCnt := 0;
      }
      if bitCnt == 10 {
        done := HandleCharacter();
      }
    }

    method HandleCharacter() returns (done: bool)
      requires Valid() && state == ReceivingData
      modifies this, output
      ensures Valid() && View(done) == CharacterIn(old(View(false)))
    {
      hide StartAndStop, DataBits;
      done := false;
      if StartAndStop(shiftReg) {
        output[byteCnt] := DataBits(shiftReg);
        byteCnt := byteCnt + 1;
        assert output[..byteCnt] == old(output[..byteCnt]) + [DataBits(shiftReg)];
        if byteCnt >= byteCntMax {
          state := Unsyncd;
        } else {
          posCnt := 0;
          state := AwaitingStartBit;
        }
      } else if shiftReg == 0 {
        state := Unsyncd;
        if byteCnt != 0 {
          done := true;
        }
      } else {
        state := Unsyncd;
      }
    }

    /** Take samples until a frame has ended: the inner loop of the receiver. */
    method Receive(samples: seq<bool>) returns (done: bool)
      requires Valid()
      modifies this, output
      ensures Valid() && View(done) == Run(old(View(false)), samples)
    {
      hide Next;
      done := false;
      var i := 0;
      assert samples[0..] == samples;
      while i < |samples| && !done
        invariant i <= |samples| && Valid()
        invariant Run(View(done), samples[i..]) == Run(old(View(false)), samples)
      {
        assert samples[i..][1..] == samples[i + 1..];
        done := HandleSample(samples[i]);
        i := i + 1;
      }
    }
  }
}
