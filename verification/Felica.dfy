/** The FeliCa (ISO/IEC 18092, 212/424 kbit/s) deframer of armsrc/felica.c.

    The air interface delivers octets whose least significant bit came first;
    frame octets are most significant bit first and start at any bit offset,
    directly after the 16-bit SYNC code B2 4D.  `Deframer` is a plain bit-level
    deframer; the class `FelicaFrame` is the firmware's octet-at-a-time one. */
module Felica {
  import opened Bits

  const SYNC_16BIT: bv16 := 0xB24D
  const FELICA_MAX_FRAME_SIZE: nat := 260

  // ---------------------------------------------------------------------
  // The bit-level deframer
  // ---------------------------------------------------------------------

  /** Idle: nothing but zero octets so far.  Hunt: the bits seen since then.
      Collect: the bits seen after SYNC. */
  datatype Deframer = Idle | Hunt(seen: seq<bool>) | Collect(bits: seq<bool>)

  /** The SYNC code in the order of its bits on the air. */
  function SyncBits(): (s: seq<bool>)
    ensures |s| == 16
  {
    [true, false, true, true, false, false, true, false,
     false, true, false, false, true, true, false, true]
  }

  /** B2 4D, most significant bit first. */
  lemma SyncOctets()
    ensures SyncBits() == Unpack([0xB2, 0x4D])
  {
    hide MsbFirst;
    UnpackCons(0xB2, [0x4D]);
    UnpackOne(0x4D);
    assert [0xB2 as bv8] + [0x4D] == [0xB2, 0x4D];
    SyncHalves();
  }

  lemma SyncHalves()
    ensures SyncBits() == MsbFirst(0xB2) + MsbFirst(0x4D)
  {
  }

  predicate Synced(seen: seq<bool>) {
    |seen| >= 16 && seen[|seen| - 16..] == SyncBits()
  }

  /** The bits of a whole frame after SYNC, when its length octet is `l`: the
      `l` octets counted by the length octet and two of CRC. A length below two
      still takes one data octet. */
  function WireBits(l: bv8): nat {
    8 * ((if l as int < 2 then 2 else l as int) + 2)
  }

  predicate Complete(c: seq<bool>) {
    |c| >= 8 && |c| >= WireBits(Octet(c[..8]))
  }

  function Feed(seen: seq<bool>, bits: seq<bool>): Deframer
    decreases |bits|
  {
    if Synced(seen) then Collect(bits)
    else if bits == [] then Hunt(seen)
    else Feed(seen + [bits[0]], bits[1..])
  }

  /** One octet from the air. A zero octet loses synchronisation. */
  function Step(d: Deframer, bt: bv8): Deframer {
    match d
    case Idle => if bt == 0 then Idle else Feed([], LsbFirst(bt))
    case Hunt(seen) => if bt == 0 then Idle else Feed(seen, LsbFirst(bt))
    case Collect(c) => if Complete(c) then d else Collect(c + LsbFirst(bt))
  }

  function Run(d: Deframer, bytes: seq<bv8>): Deframer
    decreases |bytes|
  {
    if bytes == [] then d else Run(Step(d, bytes[0]), bytes[1..])
  }

  // ---------------------------------------------------------------------
  // Every frame is found, at every bit offset
  // ---------------------------------------------------------------------

  function AirBits(bytes: seq<bv8>): (bits: seq<bool>)
    ensures |bits| == 8 * |bytes|
  {
    if bytes == [] then [] else LsbFirst(bytes[0]) + AirBits(bytes[1..])
  }

  lemma RunAppend(d: Deframer, a: seq<bv8>, b: seq<bv8>)
    ensures Run(d, a + b) == Run(Run(d, a), b)
    decreases |a|
  {
    hide Step;
    if a == [] {
      assert a + b == b;
    } else {
      assert (a + b)[1..] == a[1..] + b;
      RunAppend(Step(d, a[0]), a[1..], b);
    }
  }

  lemma {:induction false} FeedSplit(seen: seq<bool>, a: seq<bool>, b: seq<bool>)
    ensures Feed(seen, a + b) == (match Feed(seen, a)
                                  case Idle => Idle
                                  case Hunt(s) => Feed(s, b)
                                  case Collect(c) => Collect(c + b))
    decreases |a|
  {
    hide Synced;
    if Synced(seen) {
    } else if a == [] {
      assert a + b == b;
    } else {
      assert (a + b)[1..] == a[1..] + b;
      FeedSplit(seen + [a[0]], a[1..], b);
    }
  }

  /** No proper prefix of SYNC after zeros looks like SYNC. */
  lemma SyncPrefix(n: nat, k: nat)
    requires k <= 16
    ensures Synced(Level(false, n) + SyncBits()[..k]) <==> k == 16
  {
    var seen := Level(false, n) + SyncBits()[..k];
    if k == 16 {
      assert seen[|seen| - 16..] == SyncBits()[..16] == SyncBits();
    } else if |seen| >= 16 {
      assert seen[|seen| - 16..][0] == seen[n + k - 16] == false;
    }
  }

  /** SYNC after a run of zeros is recognised at its last bit, and not before. */
  lemma {:induction false} FeedSync(n: nat, k: nat, more: seq<bool>)
    requires k <= 16
    ensures Feed(Level(false, n) + SyncBits()[..k], SyncBits()[k..] + more) == Collect(more)
    decreases 16 - k
  {
    hide Synced, SyncBits;
    var seen := Level(false, n) + SyncBits()[..k];
    SyncPrefix(n, k);
    if k == 16 {
      assert SyncBits()[k..] + more == more;
    } else {
      assert seen + [SyncBits()[k]] == Level(false, n) + SyncBits()[..k + 1];
      assert (SyncBits()[k..] + more)[1..] == SyncBits()[k + 1..] + more;
      FeedSync(n, k + 1, more);
    }
  }

  lemma {:induction false} FeedZeros(n: nat, m: nat, more: seq<bool>)
    ensures Feed(Level(false, n), Level(false, m) + more) == Feed(Level(false, n + m), more)
    decreases m
  {
    if m == 0 {
      assert Level(false, 0) + more == more;
    } else {
      assert !Synced(Level(false, n)) by {
        if n >= 16 { assert Level(false, n)[n - 16..][0] == false; }
      }
      assert (Level(false, m) + more)[1..] == Level(false, m - 1) + more;
      assert Level(false, n) + [false] == Level(false, n + 1);
      FeedZeros(n + 1, m - 1, more);
    }
  }

  lemma NonZeroBit(b: bv8, k: nat)
    requires k < 8 && LsbFirst(b)[k]
    ensures b != 0
  {
  }

  lemma {:induction false} AirBitsAt(bytes: seq<bv8>, i: nat, k: nat)
    requires i < |bytes| && k < 8
    ensures AirBits(bytes)[8 * i + k] == LsbFirst(bytes[i])[k]
    decreases i
  {
    hide LsbFirst;
    var rest := AirBits(bytes[1..]);
    assert AirBits(bytes) == LsbFirst(bytes[0]) + rest;
    if i > 0 {
      AirBitsAt(bytes[1..], i - 1, k);
      assert AirBits(bytes)[8 * i + k] == rest[8 * (i - 1) + k];
    }
  }

  lemma AirBitsSplit(a: seq<bv8>, b: seq<bv8>)
    ensures AirBits(a + b) == AirBits(a) + AirBits(b)
    decreases |a|
  {
    hide LsbFirst;
    if a == [] {
      assert a + b == b;
    } else {
      assert (a + b)[1..] == a[1..] + b;
      AirBitsSplit(a[1..], b);
    }
  }

  /** While no octet is zero and no match is complete, hunting octet by octet
      is hunting bit by bit. */
  lemma {:induction false} HuntIsFeed(seen: seq<bool>, bytes: seq<bv8>, c: seq<bool>)
    requires forall k | 0 <= k < |bytes| :: bytes[k] != 0
    requires Feed(seen, AirBits(bytes)) == Collect(c) && |c| < 8
    requires !Synced(seen)
    ensures Run(Hunt(seen), bytes) == Collect(c)
    decreases |bytes|
  {
    hide LsbFirst, Synced, Complete;
    if bytes != [] {
      var first := LsbFirst(bytes[0]);
      var rest := AirBits(bytes[1..]);
      FeedSplit(seen, first, rest);
      match Feed(seen, first) {
        case Hunt(s) =>
          FeedHunts(seen, first);
          HuntIsFeed(s, bytes[1..], c);
        case Collect(d) =>
          assert rest == [];
          assert bytes[1..] == [];
          assert d + rest == d;
        case Idle =>
      }
    }
  }

  lemma FeedHunts(seen: seq<bool>, bits: seq<bool>)
    ensures match Feed(seen, bits)
            case Idle => false
            case Hunt(s) => !Synced(s)
            case Collect(c) => |c| <= |bits|
    decreases |bits|
  {
    hide Synced;
    if !Synced(seen) && bits != [] { FeedHunts(seen + [bits[0]], bits[1..]); }
  }

  /** After SYNC, octets are only appended until the frame is complete, and
      then never change. */
  lemma {:induction false} CollectAll(c: seq<bool>, bytes: seq<bv8>, l: bv8)
    requires |c + AirBits(bytes)| >= WireBits(l)
    requires Octet((c + AirBits(bytes))[..8]) == l
    ensures exists d :: Run(Collect(c), bytes) == Collect(d) && Complete(d)
                        && |d| >= WireBits(l) && d <= c + AirBits(bytes)
    decreases |bytes|
  {
    hide LsbFirst, Octet;
    var all := c + AirBits(bytes);
    if Complete(c) {
      assert c[..8] == all[..8];
      StaysComplete(c, bytes);
    } else if bytes != [] {
      var c' := c + LsbFirst(bytes[0]);
      assert c' + AirBits(bytes[1..]) == all;
      CollectAll(c', bytes[1..], l);
    }
  }

  lemma StaysComplete(c: seq<bool>, bytes: seq<bv8>)
    requires Complete(c)
    ensures Run(Collect(c), bytes) == Collect(c)
    decreases |bytes|
  {
    hide Complete;
    if bytes != [] { StaysComplete(c, bytes[1..]); }
  }

  /** The air carries `z` zero bits, SYNC, the frame and then anything. */
  ghost predicate Carries(stream: seq<bv8>, z: nat, frame: seq<bv8>, tail: seq<bool>) {
    AirBits(stream) == Level(false, z) + (SyncBits() + (Unpack(frame) + tail))
  }

  /** A frame after its SYNC code: the length octet counts itself and the data,
      and two octets of CRC follow. */
  predicate WellFormed(frame: seq<bv8>) {
    |frame| >= 4 && |frame| == frame[0] as int + 2
  }

  /** The zero octets of the preamble pass unnoticed. */
  lemma {:induction false} SkipPreamble(stream: seq<bv8>, z: nat, frame: seq<bv8>, tail: seq<bool>)
    requires Carries(stream, z, frame, tail)
    ensures z / 8 <= |stream|
    ensures Run(Idle, stream) == Run(Idle, stream[z / 8..])
    ensures Carries(stream[z / 8..], z % 8, frame, tail)
    decreases z
  {
    hide LsbFirst, SyncBits;
    var all := AirBits(stream);
    if z < 8 {
      assert stream[0..] == stream;
    } else {
      assert stream != [];
      var rest := stream[1..];
      assert all[..8] == LsbFirst(stream[0]) && all[8..] == AirBits(rest);
      assert all[..8] == Level(false, 8);
      ZeroBits(stream[0]);
      assert Level(false, z)[8..] == Level(false, z - 8);
      assert all[8..] == Level(false, z - 8) + (SyncBits() + (Unpack(frame) + tail));
      SkipPreamble(rest, z - 8, frame, tail);
      assert rest[(z - 8) / 8..] == stream[z / 8..];
    }
  }

  lemma ZeroBits(b: bv8)
    requires LsbFirst(b) == Level(false, 8)
    ensures b == 0
  {
    var bits := LsbFirst(b);
    assert !bits[0] && !bits[1] && !bits[2] && !bits[3];
    assert !bits[4] && !bits[5] && !bits[6] && !bits[7];
  }

  /** None of the octets holding a part of SYNC is zero. */
  lemma SyncOctetsNonZero(head: seq<bv8>, off: nat, more: seq<bool>)
    requires off < 8 && |head| == (if off == 0 then 2 else 3)
    requires AirBits(head) == Level(false, off) + (SyncBits() + more)
    ensures forall k | 0 <= k < |head| :: head[k] != 0
  {
    hide LsbFirst;
    var all := AirBits(head);
    assert all[off + 0];
    AirBitsAt(head, 0, off);
    NonZeroBit(head[0], off);
    // bits 9 and 6 of SYNC: one of them lies in the second octet
    var k := if off == 7 then 6 else 9;
    assert all[off + k];
    AirBitsAt(head, 1, off + k - 8);
    NonZeroBit(head[1], off + k - 8);
    if off > 0 {
      assert all[off + 15];
      AirBitsAt(head, 2, off - 1);
      NonZeroBit(head[2], off - 1);
    }
  }

  lemma FoundAtOffset(head: seq<bv8>, off: nat, more: seq<bool>)
    requires off < 8 && |head| == (if off == 0 then 2 else 3)
    requires AirBits(head) == Level(false, off) + (SyncBits() + more)
    ensures Run(Idle, head) == Collect(more)
  {
    hide LsbFirst, Synced, Complete, SyncBits;
    SyncOctetsNonZero(head, off, more);
    FeedZeros(0, off, SyncBits() + more);
    FeedSync(off, 0, more);
    assert Level(false, off) + SyncBits()[..0] == Level(false, off);
    assert SyncBits()[0..] == SyncBits();
    assert Level(false, 0) == [];
    assert !Synced([]) by { SyncPrefix(0, 0); assert Level(false, 0) + SyncBits()[..0] == []; }
    HuntIsFeed([], head, more);
    assert Step(Idle, head[0]) == Step(Hunt([]), head[0]);
  }

  /** Cut the stream behind the octet in which the given prefix ends. */
  lemma SplitBehind(s: seq<bv8>, pre: seq<bool>, n: nat, payload: seq<bool>)
    requires 8 * n - 8 < |pre| <= 8 * n && |payload| >= 8
    requires AirBits(s) == pre + payload
    ensures |s| >= n
    ensures AirBits(s[..n]) == pre + payload[..8 * n - |pre|]
    ensures AirBits(s[n..]) == payload[8 * n - |pre|..]
  {
    hide LsbFirst, AirBits;
    LongEnough(s, pre, n, payload);
    var head, rest := s[..n], s[n..];
    assert s == head + rest;
    AirBitsSplit(head, rest);
    Cut(AirBits(head), AirBits(rest), pre, payload);
  }

  lemma LongEnough(s: seq<bv8>, pre: seq<bool>, n: nat, payload: seq<bool>)
    requires 8 * n - 8 < |pre| && |payload| >= 8 && AirBits(s) == pre + payload
    ensures |s| >= n
  {
    hide AirBits;
    assert 8 * |s| == |pre| + |payload|;
  }

  lemma Cut<T>(a: seq<T>, b: seq<T>, c: seq<T>, d: seq<T>)
    requires a + b == c + d && |c| <= |a|
    ensures a == c + d[..|a| - |c|] && b == d[|a| - |c|..]
  {
    assert a == (a + b)[..|a|];
    assert b == (a + b)[|a|..];
  }

  lemma FoundInOctets(s: seq<bv8>, off: nat, payload: seq<bool>, l: bv8)
    requires off < 8 && AirBits(s) == Level(false, off) + (SyncBits() + payload)
    requires |payload| >= WireBits(l) && Octet(payload[..8]) == l
    ensures exists c :: Run(Idle, s) == Collect(c) && Complete(c)
                        && |c| >= WireBits(l) && c <= payload
  {
    hide LsbFirst, Octet, AirBits, Run, Complete, SyncBits;
    var n := if off == 0 then 2 else 3;
    var pre := Level(false, off) + SyncBits();
    assert AirBits(s) == pre + payload;
    SplitBehind(s, pre, n, payload);
    var head, rest := s[..n], s[n..];
    var more := payload[..8 * n - |pre|];
    assert pre + more == Level(false, off) + (SyncBits() + more);
    FoundAtOffset(head, off, more);
    RunAppend(Idle, head, rest);
    assert s == head + rest;
    assert more + AirBits(rest) == payload;
    CollectAll(more, rest, l);
  }

  /** FeliCa frames are recovered at every bit offset, after any zero preamble:
      what is collected starts with exactly the bits of the frame. */
  lemma FrameFound(stream: seq<bv8>, z: nat, frame: seq<bv8>, tail: seq<bool>)
    requires Carries(stream, z, frame, tail) && WellFormed(frame)
    ensures exists c :: Run(Idle, stream) == Collect(c) && Complete(c)
                        && Unpack(frame) <= c
  {
    hide LsbFirst, MsbFirst, Octet, AirBits, Run, Complete, SyncBits;
    SkipPreamble(stream, z, frame, tail);
    var payload := Unpack(frame) + tail;
    assert payload[..8] == MsbFirst(frame[0]);
    OctetOfBits(frame[0]);
    FoundInOctets(stream[z / 8..], z % 8, payload, frame[0]);
  }

  /** What the deframer holds comes from the air: hunting, the last bits seen;
      collecting, the run of bits directly behind a SYNC code. */
  ghost predicate FromAir(d: Deframer, air: seq<bool>) {
    match d
    case Idle => true
    case Hunt(seen) => |seen| <= |air| && air[|air| - |seen|..] == seen
    case Collect(c) => exists p :: BehindSync(air, p, c)
  }

  ghost predicate BehindSync(air: seq<bool>, p: nat, c: seq<bool>) {
    && p + 16 <= |air| && air[p..p + 16] == SyncBits()
    && c <= air[p + 16..] && (Complete(c) || c == air[p + 16..])
  }

  lemma {:induction false} FeedFromAir(seen: seq<bool>, bits: seq<bool>, air: seq<bool>)
    requires FromAir(Hunt(seen), air)
    ensures FromAir(Feed(seen, bits), air + bits)
    decreases |bits|
  {
    hide SyncBits, Complete;
    if Synced(seen) {
      var p := |air| - 16;
      assert (air + bits)[p..p + 16] == air[p..] == seen[|seen| - 16..];
      assert BehindSync(air + bits, p, bits);
    } else if bits == [] {
      assert air + bits == air;
    } else {
      var air' := air + [bits[0]];
      assert air'[|air'| - |seen| - 1..] == seen + [bits[0]];
      FeedFromAir(seen + [bits[0]], bits[1..], air');
      assert air' + bits[1..] == air + bits;
    }
  }

  lemma StepFromAir(d: Deframer, bt: bv8, air: seq<bool>)
    requires FromAir(d, air)
    ensures FromAir(Step(d, bt), air + LsbFirst(bt))
  {
    hide LsbFirst, Complete, SyncBits;
    var bits := LsbFirst(bt);
    match d {
      case Idle =>
        assert air[|air|..] == [];
        FeedFromAir([], bits, air);
      case Hunt(seen) => FeedFromAir(seen, bits, air);
      case Collect(c) =>
        var p: nat :| BehindSync(air, p, c);
        assert (air + bits)[p..p + 16] == air[p..p + 16];
        assert (air + bits)[p + 16..] == air[p + 16..] + bits;
        assert BehindSync(air + bits, p, if Complete(c) then c else c + bits);
    }
  }

  /** Nothing is ever invented: after any octets whatsoever, the collected bits
      stand on the air directly behind a SYNC code. */
  lemma {:induction false} RunFromAir(d: Deframer, bytes: seq<bv8>, air: seq<bool>)
    requires FromAir(d, air)
    ensures FromAir(Run(d, bytes), air + AirBits(bytes))
    decreases |bytes|
  {
    hide Step, LsbFirst, FromAir;
    if bytes == [] {
      assert air + [] == air;
    } else {
      StepFromAir(d, bytes[0], air);
      RunFromAir(Step(d, bytes[0]), bytes[1..], air + LsbFirst(bytes[0]));
      assert air + LsbFirst(bytes[0]) + AirBits(bytes[1..]) == air + AirBits(bytes);
    }
  }

  // ---------------------------------------------------------------------
  // The firmware's deframer
  // ---------------------------------------------------------------------

  function HighOctet(w: bv16): bv8 { (w >> 8) as bv8 }
  function LowOctet(w: bv16): bv8 { (w & 0xFF) as bv8 }

  /** The sixteen bits of the synchronisation register, oldest first. */
  function Bits16(w: bv16): (bits: seq<bool>)
    ensures |bits| == 16
  {
    MsbFirst(HighOctet(w)) + MsbFirst(LowOctet(w))
  }

  function ShiftIn(w: bv16, bit: bv8): bv16 {
    (w << 1) + (bit as bv16)
  }

  lemma ShiftOctets(w: bv16, bt: bv8)
    ensures var y := ShiftIn(w, bt & 1);
      HighOctet(y) == Push(HighOctet(w), LowOctet(w) & 128 != 0) && LowOctet(y) == Push(LowOctet(w), bt & 1 != 0)
  {
    hide HighOctet, LowOctet, ShiftIn, Push;
    if bt & 1 != 0 {
      assert bt & 1 == 1;
      ShiftedOne(w);
    } else {
      ShiftedZero(w);
    }
  }

  lemma ShiftedOne(w: bv16)
    ensures HighOctet(ShiftIn(w, 1)) == Push(HighOctet(w), LowOctet(w) & 128 != 0)
    ensures LowOctet(ShiftIn(w, 1)) == Push(LowOctet(w), true)
  {
  }

  lemma ShiftedZero(w: bv16)
    ensures HighOctet(ShiftIn(w, 0)) == Push(HighOctet(w), LowOctet(w) & 128 != 0)
    ensures LowOctet(ShiftIn(w, 0)) == Push(LowOctet(w), false)
  {
  }

  lemma OuterBits(b: bv8)
    ensures MsbFirst(b)[0] == (b & 128 != 0) && LsbFirst(b)[0] == (b & 1 != 0)
  {
  }

  lemma ShiftInWindow(w: bv16, bt: bv8)
    ensures Bits16(ShiftIn(w, bt & 1)) == Bits16(w)[1..] + [LsbFirst(bt)[0]]
  {
    hide MsbFirst, LsbFirst, Push, ShiftIn, HighOctet, LowOctet;
    var h, l := HighOctet(w), LowOctet(w);
    ShiftOctets(w, bt);
    OuterBits(l);
    OuterBits(bt);
    PushShifts(h, l & 128 != 0);
    PushShifts(l, bt & 1 != 0);
    assert (MsbFirst(h) + MsbFirst(l))[1..] == MsbFirst(h)[1..] + ([MsbFirst(l)[0]] + MsbFirst(l)[1..]);
  }

  lemma WordOctets(w: bv16)
    ensures w == SYNC_16BIT <==> HighOctet(w) == 0xB2 && LowOctet(w) == 0x4D
  {
  }

  lemma SyncWord(w: bv16)
    ensures w == SYNC_16BIT <==> Bits16(w) == SyncBits()
  {
    hide MsbFirst, SyncBits, HighOctet, LowOctet;
    var h, l := HighOctet(w), LowOctet(w);
    WordOctets(w);
    SyncHalves();
    if Bits16(w) == SyncBits() {
      assert MsbFirst(h) == Bits16(w)[..8] == MsbFirst(0xB2);
      assert MsbFirst(l) == Bits16(w)[8..] == MsbFirst(0x4D);
      MsbFirstInjective(h, 0xB2);
      MsbFirstInjective(l, 0x4D);
    }
  }

  /** The register holds the last sixteen bits seen, zeros before the first. */
  predicate Window(w: bv16, seen: seq<bool>) {
    Bits16(w) == (Level(false, 16) + seen)[|seen|..]
  }

  lemma WindowSync(w: bv16, seen: seq<bool>)
    requires Window(w, seen)
    ensures w == SYNC_16BIT <==> Synced(seen)
  {
    hide Bits16;
    SyncWord(w);
    if |seen| >= 16 {
      assert (Level(false, 16) + seen)[|seen|..] == seen[|seen| - 16..];
    } else {
      assert !Bits16(w)[0];
    }
  }

  lemma WindowShift(w: bv16, seen: seq<bool>, bt: bv8)
    requires Window(w, seen)
    ensures Window(ShiftIn(w, bt & 1), seen + [LsbFirst(bt)[0]])
  {
    hide Bits16, LsbFirst, ShiftIn;
    ShiftInWindow(w, bt);
    var bit := LsbFirst(bt)[0];
    assert (Level(false, 16) + (seen + [bit]))[|seen| + 1..] == (Level(false, 16) + seen)[|seen|..][1..] + [bit];
  }

  /** Bit reversal of an octet. */
  function Reflect8(b: bv8): bv8 {
    ((b & 1) << 7) | ((b & 2) << 5) | ((b & 4) << 3) | ((b & 8) << 1)
    | ((b & 16) >> 1) | ((b & 32) >> 3) | ((b & 64) >> 5) | ((b & 128) >> 7)
  }

  lemma ReflectBits(b: bv8)
    ensures MsbFirst(Reflect8(b)) == LsbFirst(b)
  {
  }

  lemma WidenHigh(b: bv8)
    ensures Bits16(b as bv16)[..8] == Level(false, 8)
  {
  }

  lemma WidenLow(b: bv8)
    ensures Bits16(b as bv16)[8..] == MsbFirst(b)
  {
  }

  lemma ReflectWindow(b: bv8)
    ensures Window(Reflect8(b) as bv16, LsbFirst(b))
  {
    hide Bits16, MsbFirst, LsbFirst, Reflect8;
    ReflectBits(b);
    var w := Reflect8(b) as bv16;
    WidenHigh(Reflect8(b));
    WidenLow(Reflect8(b));
    assert Bits16(w) == Bits16(w)[..8] + Bits16(w)[8..];
    assert (Level(false, 16) + LsbFirst(b))[8..] == Level(false, 8) + LsbFirst(b);
  }

  datatype State = Unsyncd | TryingSync | GetLength | GetData | GetCrc | Full

  /** Octets of data that the deframer takes for length octet `l`. */
  function DataOctets(l: bv8): nat {
    if l as int < 2 then 1 else l as int - 1
  }

  /** The buffer holds SYNC and then the collected bits, which end `off` bits
      before an octet boundary; nothing is lost in the octet being filled, which
      held `junk` before. */
  ghost predicate Holds(buf: seq<bv8>, c: seq<bool>, off: int, octets: nat, junk: bv8) {
    && |buf| == FELICA_MAX_FRAME_SIZE && 1 + octets < |buf|
    && 0 <= off < 8 && |c| + off == 8 * octets
    && buf[0] == 0xB2 && buf[1] == 0x4D
    && (forall k | 0 <= k && 8 * k + 8 <= |c| :: MsbFirst(buf[2 + k]) == c[8 * k..8 * k + 8])
    && (off > 0 ==> octets > 0 && buf[1 + octets] == PushAll(junk, c[8 * octets - 8..]))
  }

  lemma HoldsShift(buf: seq<bv8>, buf': seq<bv8>, c: seq<bool>, off: int, octets: nat, junk: bv8, bits: seq<bool>)
    requires Holds(buf, c, off, octets, junk) && 2 + octets < |buf| && |bits| == 8
    requires buf' == buf[1 + octets := PushAll(buf[1 + octets], bits[..off])]
                        [2 + octets := PushAll(buf[2 + octets], bits[off..])]
    ensures Holds(buf', c + bits, off, octets + 1, buf[2 + octets])
    ensures |c| >= 8 ==> buf'[2] == buf[2]
  {
    hide MsbFirst, Push, PushAll;
    var c' := c + bits;
    forall k | 0 <= k && 8 * k + 8 <= |c'|
      ensures MsbFirst(buf'[2 + k]) == c'[8 * k..8 * k + 8]
    {
      HoldsShiftAt(buf, buf', c, off, octets, junk, bits, k);
    }
    HoldsShiftRest(buf, buf', c, off, octets, junk, bits);
  }

  /** What surrounds the octets: SYNC before them, and the one being filled behind them. */
  lemma HoldsShiftRest(buf: seq<bv8>, buf': seq<bv8>, c: seq<bool>, off: int, octets: nat, junk: bv8, bits: seq<bool>)
    requires Holds(buf, c, off, octets, junk) && 2 + octets < |buf| && |bits| == 8
    requires buf' == buf[1 + octets := PushAll(buf[1 + octets], bits[..off])]
                        [2 + octets := PushAll(buf[2 + octets], bits[off..])]
    ensures buf'[0] == 0xB2 && buf'[1] == 0x4D
    ensures off > 0 ==> buf'[2 + octets] == PushAll(buf[2 + octets], (c + bits)[8 * octets..])
    ensures |c| >= 8 ==> buf'[2] == buf[2]
  {
    hide MsbFirst, Push, PushAll;
    if off > 0 { assert (c + bits)[8 * octets..] == bits[off..]; }
    NothingPushed(buf[1 + octets], bits[..off]);
  }

  /** Octet k after the shift: an old one, the one that was filled up, or a new one. */
  lemma HoldsShiftAt(buf: seq<bv8>, buf': seq<bv8>, c: seq<bool>, off: int, octets: nat, junk: bv8, bits: seq<bool>, k: nat)
    requires Holds(buf, c, off, octets, junk) && 2 + octets < |buf| && |bits| == 8 && 8 * k + 8 <= |c + bits|
    requires buf' == buf[1 + octets := PushAll(buf[1 + octets], bits[..off])]
                        [2 + octets := PushAll(buf[2 + octets], bits[off..])]
    ensures MsbFirst(buf'[2 + k]) == (c + bits)[8 * k..8 * k + 8]
  {
    hide MsbFirst, Push, PushAll;
    var c' := c + bits;
    if 8 * k + 8 <= |c| {
      assert c'[8 * k..8 * k + 8] == c[8 * k..8 * k + 8];
      assert buf'[2 + k] == buf[2 + k] by { if 2 + k == 1 + octets { NothingPushed(buf[1 + octets], bits[..off]); } }
    } else if off > 0 {
      assert k == octets - 1;
      OctetFilled(junk, c[8 * octets - 8..], bits[..off]);
      assert c'[8 * k..8 * k + 8] == c[8 * octets - 8..] + bits[..off];
    } else {
      assert k == octets;
      OctetFilled(buf[2 + octets], [], bits);
      NothingPushed(buf[2 + octets], []);
      assert bits[off..] == bits;
      assert c'[8 * k..8 * k + 8] == [] + bits;
    }
  }

  lemma NothingPushed(x: bv8, bits: seq<bool>)
    ensures bits == [] ==> PushAll(x, bits) == x
  {
  }

  class FelicaFrame {
    var state: State
    var shiftReg: bv16
    var posCnt: int
    var crcOk: bool
    var remLen: int
    var len: int
    var byteOffset: int
    const framebytes: array<bv8>
    /** `check_crc(CRC_FELICA, …)`, whatever it is. */
    const checkCrc: seq<bv8> -> bool

    // the bit-level deframer that this one refines
    ghost var model: Deframer
    ghost var octets: nat       // octets of the buffer touched after SYNC
    ghost var junk: bv8         // what the octet being filled held before

    ghost predicate Aligned(c: seq<bool>)
      reads this, framebytes
    {
      posCnt == 1 + octets && Holds(framebytes[..], c, byteOffset, octets, junk)
    }

    /** Data and CRC octets taken so far. */
    ghost function Taken(): int
      reads this
    {
      octets - (if byteOffset == 0 then 1 else 2)
    }

    ghost predicate Progress(c: seq<bool>)
      reads this, framebytes
    {
      Aligned(c) &&
      if |c| < 8 then state == GetLength
      else
        var n := DataOctets(framebytes[2]);
        && len == framebytes[2] as int + 4
        && match state
           case GetData => 0 <= Taken() < n && remLen == framebytes[2] as int - 1 - Taken()
           case GetCrc => n <= Taken() < n + 2 && remLen == n + 2 - Taken()
           case Full => Taken() == n + 2 && crcOk == checkCrc(framebytes[2..len])
           case _ => false
    }

    ghost predicate Valid()
      reads this, framebytes
    {
      framebytes.Length == FELICA_MAX_FRAME_SIZE &&
      match model
      case Idle => state == Unsyncd
      case Hunt(seen) => state == TryingSync && !Synced(seen) && Window(shiftReg, seen)
      case Collect(c) => Progress(c)
    }

    constructor (data: array<bv8>, checkCrc: seq<bv8> -> bool)
      requires data.Length == FELICA_MAX_FRAME_SIZE
      ensures Valid() && model == Idle && framebytes == data && this.checkCrc == checkCrc
    {
      framebytes := data;
      this.checkCrc := checkCrc;
      state, posCnt, crcOk, byteOffset := Unsyncd, 0, false, 0;
      model := Idle;
    }

    method Reset()
      requires Valid()
      modifies this
      ensures Valid() && model == Idle
    {
      state, posCnt, crcOk, byteOffset := Unsyncd, 0, false, 0;
      model := Idle;
    }

    lemma ShrNone(bt: bv8)
      ensures Shr(bt, 0) == bt
    {
    }

    lemma ShrNext(bt: bv8, j: nat)
      ensures Shr(bt, j + 1) == ShrOne(Shr(bt, j))
    {
      hide ShrOne;
    }

    /** Push the low `count` bits of `bt` into one octet of the buffer. */
    method PushBits(pos: int, bt: bv8, count: nat) returns (rest: bv8)
      requires 0 <= pos < framebytes.Length && count <= 8
      modifies framebytes
      ensures framebytes[..] == old(framebytes[..])[pos := PushAll(old(framebytes[pos]), LsbFirst(bt)[..count])]
      ensures rest == Shr(bt, count)
    {
      hide LsbFirst, Push, PushLowBit, ShrOne, PushAll, Shr;
      ghost var bits := LsbFirst(bt);
      NothingPushed(framebytes[pos], bits[..0]);
      ShrNone(bt);
      rest := bt;
      var j := 0;
      while j < count
        invariant j <= count
        invariant framebytes[pos] == PushAll(old(framebytes[pos]), bits[..j])
        invariant forall k | 0 <= k < framebytes.Length && k != pos :: framebytes[k] == old(framebytes[k])
        invariant rest == Shr(bt, j)
      {
        ShrBits(bt, j);
        ShrNext(bt, j);
        PushLow(framebytes[pos], rest);
        PushAllAppend(old(framebytes[pos]), bits[..j], bits[j]);
        assert bits[..j] + [bits[j]] == bits[..j + 1];
        framebytes[pos] := PushLowBit(framebytes[pos], rest);
        rest := ShrOne(rest);
        j := j + 1;
      }
    }

    method ShiftInByte(bt: bv8)
      requires model.Collect? && Aligned(model.bits) && posCnt + 1 < FELICA_MAX_FRAME_SIZE
      modifies this`posCnt, this`remLen, this`model, this`octets, this`junk, framebytes
      ensures model == Collect(old(model.bits) + LsbFirst(bt)) && Aligned(model.bits)
      ensures remLen == old(remLen) - 1 && octets == old(octets) + 1
      ensures old(|model.bits|) >= 8 ==> framebytes[2] == old(framebytes[2])
    {
      hide LsbFirst, MsbFirst, PushAll, Synced, Shr, Holds;
      ghost var c, bits := model.bits, LsbFirst(bt);
      HoldsBounds(framebytes[..], c, byteOffset, octets, junk);
      ShrBits(bt, byteOffset);
      var rest := PushBits(posCnt, bt, byteOffset);
      posCnt := posCnt + 1;
      remLen := remLen - 1;
      junk := framebytes[posCnt];
      rest := PushBits(posCnt, rest, 8 - byteOffset);
      HoldsShift(old(framebytes[..]), framebytes[..], c, byteOffset, octets, old(junk), bits);
      model, octets := Collect(c + bits), octets + 1;
    }
  
    /** SYNC ended before bit `i` of the octet: start the frame with its rest. */
    method StartFrame(rest: bv8, i: int) returns (empty: bv8)
      requires 0 <= i < 8 && framebytes.Length == FELICA_MAX_FRAME_SIZE
      modifies this`state, this`byteOffset, this`posCnt, this`octets, this`junk, framebytes
      ensures state == GetLength && byteOffset == i && posCnt == 2
      ensures i > 0 ==> Aligned(LsbFirst(rest)[..8 - i])
      ensures LsbFirst(empty) == LsbFirst(rest)[8 - i..] + Level(false, 8 - i)
    {
      hide LsbFirst, MsbFirst, Push, PushLowBit, ShrOne, Synced;
      state := GetLength;
      framebytes[0] := 0xB2;
      framebytes[1] := 0x4D;
      byteOffset := i;
      octets, junk := 1, framebytes[2];
      ShrBits(rest, 8 - i);
      empty := PushBits(2, rest, 8 - i);
      posCnt := 2;
      assert LsbFirst(rest)[..8 - i][8 * octets - 8..] == LsbFirst(rest)[..8 - i];
    }

    lemma FeedNothing(seen: seq<bool>)
      ensures Feed(seen, []) == if Synced(seen) then Collect([]) else Hunt(seen)
    {
    }

    /** Hunt for SYNC inside one non-zero octet. */
    method TrySync(bt: bv8)
      requires Valid() && model.Hunt? && bt != 0
      modifies this, framebytes
      ensures Valid() && model == Step(old(model), bt)
    {
      hide LsbFirst, MsbFirst, Push, PushLowBit, ShrOne, Synced, Bits16, ShiftIn, SyncBits, Octet, Holds, Window, Level, Shr, Feed;
      ghost var seen, bits := model.seen, LsbFirst(bt);
      ghost var found := false;
      var rest := bt;
      var i := 0;
      NothingYet(seen, bits);
      while i < 8
        invariant 0 <= i <= 8 && model == Hunt(seen)
        invariant LsbFirst(rest) == if found then Level(false, 8) else bits[i..] + Level(false, i)
        invariant !found ==> state == TryingSync && Window(shiftReg, seen + bits[..i])
        invariant !found ==> Feed(seen, bits) == Feed(seen + bits[..i], bits[i..])
        invariant found ==> 0 < byteOffset < i && !Bits16(shiftReg)[15]
        invariant found ==> Feed(seen, bits) == Collect(bits[byteOffset..])
        invariant found ==> state == GetLength && Aligned(bits[byteOffset..])
      {
        if found {
          NotSyncWord(shiftReg);
        } else {
          WindowSync(shiftReg, seen + bits[..i]);
        }
        if shiftReg == SYNC_16BIT {
          ghost var before := rest;
          rest := StartFrame(rest, i);
          if i == 0 {
            break;
          }
          found := true;
          FrameStarts(seen, bits, i, before, rest);
          DrainStep(shiftReg, rest);
        } else if found {
          DrainStep(shiftReg, rest);
        } else {
          HuntStep(seen, bits, i, rest, shiftReg);
        }
        shiftReg := ShiftIn(shiftReg, rest & 1);
        rest := ShrOne(rest);
        i := i + 1;
      }
      assert bits[..8] == bits && bits[8..] == [];
      FeedNothing(seen + bits);
      if found {
        NotSyncWord(shiftReg);
      } else {
        WindowSync(shiftReg, seen + bits);
      }
      if shiftReg == SYNC_16BIT {
        state := GetLength;
        framebytes[0] := 0xB2;
        framebytes[1] := 0x4D;
        byteOffset := 0;
        posCnt := 1;
        octets := 0;
        HoldsNothing(framebytes[..], junk);
      }
      model := Step(model, bt);
    }

    /** One octet from the air. */
    method Process18092Byte(bt: bv8)
      requires Valid()
      modifies this, framebytes
      ensures Valid() && model == Step(old(model), bt)
    {
      hide LsbFirst, Synced, Holds, Window, Complete, Feed;
      match state {
        case Unsyncd =>
          if bt != 0 {
            BeginHunt(bt);
          }
        case TryingSync =>
          if bt == 0 {
            shiftReg := 0;
            state := Unsyncd;
            model := Idle;
          } else {
            TrySync(bt);
          }
        case GetLength =>
          TakeLength(bt);
        case GetData =>
          TakeData(bt);
        case GetCrc =>
          TakeCrc(bt);
        case Full =>
          FullIsComplete();
      }
    }

    /** Process octets until the frame is full or the stream ends: the receive
        loops of the reader, the sniffer and the tag emulator. */
    method Receive(stream: seq<bv8>) returns (used: nat)
      requires Valid()
      modifies this, framebytes
      ensures Valid() && used <= |stream|
      ensures model == Run(old(model), stream[..used]) == Run(old(model), stream)
      ensures state == Full || used == |stream|
    {
      hide Step, Holds, Complete;
      used := 0;
      assert stream[..0] == [];
      while used < |stream| && state != Full
        invariant used <= |stream| && Valid() && model == Run(old(model), stream[..used])
      {
        Process18092Byte(stream[used]);
        RunSnoc(old(model), stream[..used], stream[used]);
        used := used + 1;
        assert stream[..used - 1] + [stream[used - 1]] == stream[..used];
      }
      assert stream == stream[..used] + stream[used..];
      RunAppend(old(model), stream[..used], stream[used..]);
      if state == Full {
        FullIsComplete();
        StaysComplete(model.bits, stream[used..]);
      }
    }

    /** Whatever arrives, a full buffer holds the octets that stand on the air
        directly behind a SYNC code. */
    lemma FullIsGenuine(stream: seq<bv8>)
      requires Valid() && state == Full && model == Run(Idle, stream)
      ensures exists p :: BehindSync(AirBits(stream), p, model.bits)
                          && Unpack(framebytes[2..DataOctets(framebytes[2]) + 5]) <= model.bits
    {
      hide Valid, DataOctets, Holds, BehindSync, AirBits, Unpack, Run;
      FullShape();
      RunFromAir(Idle, stream, []);
      assert [] + AirBits(stream) == AirBits(stream);
      var n := DataOctets(framebytes[2]) + 3;
      HoldsFrame(framebytes[..], model.bits, byteOffset, octets, junk, n);
      assert framebytes[2..n + 2] == framebytes[..][2..n + 2];
    }

    lemma FullShape()
      requires Valid() && state == Full
      ensures framebytes.Length == FELICA_MAX_FRAME_SIZE
      ensures model.Collect? && Holds(framebytes[..], model.bits, byteOffset, octets, junk)
      ensures 8 * (DataOctets(framebytes[2]) + 3) <= |model.bits|
    {
      hide Holds, Octet, Synced, Window;
      if model.Collect? { HoldsLength(framebytes[..], model.bits, byteOffset, octets, junk); }
    }

    /** A frame on the air, behind any zero preamble and at any bit offset,
        ends up in the buffer octet by octet, with its CRC judged. */
    lemma FrameReceived(stream: seq<bv8>, z: nat, frame: seq<bv8>, tail: seq<bool>)
      requires Valid() && model == Run(Idle, stream)
      requires Carries(stream, z, frame, tail) && WellFormed(frame)
      ensures state == Full && framebytes[..|frame| + 2] == [0xB2, 0x4D] + frame
      ensures crcOk == checkCrc(frame)
    {
      hide LsbFirst, MsbFirst, Run, Synced, Octet, AirBits, Unpack, Holds, Carries, Complete;
      FrameFound(stream, z, frame, tail);
      FullWhenComplete();
      LengthFirst(frame, model.bits);
      HoldsFrame(framebytes[..], model.bits, byteOffset, octets, junk, |frame|);
      SameFrame(framebytes[..][2..|frame| + 2], frame, model.bits);
      assert framebytes[2..len] == framebytes[..][2..|frame| + 2];
    }

    lemma FullWhenComplete()
      requires Valid() && model.Collect? && Complete(model.bits)
      ensures state == Full && 8 * (DataOctets(framebytes[2]) + 3) <= |model.bits|
      ensures len == framebytes[2] as int + 4 && crcOk == checkCrc(framebytes[2..len])
      ensures Octet(model.bits[..8]) == framebytes[2]
    {
      hide Holds, Octet;
      HoldsLength(framebytes[..], model.bits, byteOffset, octets, junk);
    }

    method BeginHunt(bt: bv8)
      requires Valid() && state == Unsyncd && bt != 0
      modifies this
      ensures Valid() && model == Step(old(model), bt)
    {
      hide LsbFirst, Reflect8, Synced, Window;
      shiftReg := Reflect8(bt) as bv16;
      state := TryingSync;
      ReflectWindow(bt);
      FirstOctet(bt);
      model := Step(model, bt);
    }

    method TakeData(bt: bv8)
      requires Valid() && state == GetData
      modifies this, framebytes
      ensures Valid() && model == Step(old(model), bt)
    {
      hide LsbFirst, Synced, Holds, Window, Step;
      TakeOctet(bt);
      if remLen <= 0 {
        state := GetCrc;
        remLen := 2;
      }
    }

    method TakeCrc(bt: bv8)
      requires Valid() && state == GetCrc
      modifies this, framebytes
      ensures Valid() && model == Step(old(model), bt)
    {
      hide LsbFirst, Synced, Holds, Window, Step;
      TakeOctet(bt);
      if remLen <= 0 {
        remLen := 0;
        crcOk := checkCrc(framebytes[2..len]);
        state := Full;
      }
    }

    method TakeLength(bt: bv8)
      requires Valid() && state == GetLength
      modifies this, framebytes
      ensures Valid() && model == Step(old(model), bt)
    {
      hide LsbFirst, Synced, Holds, Window, Octet;
      HoldsLength(framebytes[..], model.bits, byteOffset, octets, junk);
      ShiftInByte(bt);
      HoldsLength(framebytes[..], model.bits, byteOffset, octets, junk);
      remLen := framebytes[2] as int - 1;
      len := framebytes[2] as int + 4;
      state := GetData;
    }

    /** Take one octet of data or CRC; only the count of those left is behind. */
    method TakeOctet(bt: bv8)
      requires Valid() && (state == GetData || state == GetCrc)
      modifies this`posCnt, this`remLen, this`model, this`octets, this`junk, framebytes
      ensures model == Step(old(model), bt) && model.Collect? && Aligned(model.bits)
      ensures |model.bits| >= 8 && framebytes[2] == old(framebytes[2])
      ensures octets == old(octets) + 1 && remLen == old(remLen) - 1
      ensures len == framebytes[2] as int + 4 <= FELICA_MAX_FRAME_SIZE
    {
      hide LsbFirst, Synced, Holds, Window, Octet;
      HoldsLength(framebytes[..], model.bits, byteOffset, octets, junk);
      ShiftInByte(bt);
    }

    lemma FullIsComplete()
      requires Valid() && state == Full
      ensures model.Collect? && Complete(model.bits)
    {
      hide Synced, Holds, Window, Octet;
      HoldsLength(framebytes[..], model.bits, byteOffset, octets, junk);
    }
  }

  /** The first eight bits never complete SYNC. */
  lemma FirstOctet(bt: bv8)
    ensures Feed([], LsbFirst(bt)) == Hunt(LsbFirst(bt)) && !Synced(LsbFirst(bt))
  {
    hide LsbFirst;
    ShortFeed([], LsbFirst(bt));
  }

  lemma {:induction false} ShortFeed(seen: seq<bool>, bits: seq<bool>)
    requires |seen| + |bits| < 16
    ensures Feed(seen, bits) == Hunt(seen + bits)
    decreases |bits|
  {
    if bits == [] {
      assert seen + bits == seen;
    } else {
      ShortFeed(seen + [bits[0]], bits[1..]);
      assert seen + [bits[0]] + bits[1..] == seen + bits;
    }
  }

  lemma RunSnoc(d: Deframer, bytes: seq<bv8>, bt: bv8)
    ensures Run(d, bytes + [bt]) == Step(Run(d, bytes), bt)
  {
    hide Step;
    RunAppend(d, bytes, [bt]);
    assert Run(Run(d, bytes), [bt]) == Run(Step(Run(d, bytes), bt), []);
  }

  lemma SliceBehind(c: seq<bool>, n: nat, lo: nat, hi: nat)
    requires n <= |c| && lo <= hi && n + hi <= |c|
    ensures c[n..][lo..hi] == c[n + lo..n + hi]
  {
  }

  lemma {:induction false} FrameBitsOf(s: seq<bv8>, c: seq<bool>)
    requires 8 * |s| <= |c|
    requires forall k | 0 <= k < |s| :: MsbFirst(s[k]) == c[8 * k..8 * k + 8]
    ensures Unpack(s) <= c
    decreases |s|
  {
    hide MsbFirst;
    if s != [] {
      var c' := c[8..];
      forall k | 0 <= k < |s| - 1 ensures MsbFirst(s[1..][k]) == c'[8 * k..8 * k + 8] {
        assert MsbFirst(s[k + 1]) == c[8 * (k + 1)..8 * (k + 1) + 8];
        SliceBehind(c, 8, 8 * k, 8 * k + 8);
      }
      FrameBitsOf(s[1..], c');
      var k := 0;
      assert MsbFirst(s[k]) == c[8 * k..8 * k + 8];
      assert c == c[..8] + c';
    }
  }

  lemma HoldsFrame(buf: seq<bv8>, c: seq<bool>, off: int, octets: nat, junk: bv8, n: nat)
    requires Holds(buf, c, off, octets, junk) && 8 * n <= |c|
    ensures n + 2 <= |buf| && Unpack(buf[2..n + 2]) <= c
    ensures buf[..n + 2] == [0xB2, 0x4D] + buf[2..n + 2]
  {
    hide MsbFirst;
    FrameBitsOf(buf[2..n + 2], c);
  }

  lemma {:induction false} SameFrame(a: seq<bv8>, b: seq<bv8>, c: seq<bool>)
    requires |a| == |b| && Unpack(a) <= c && Unpack(b) <= c
    ensures a == b
    decreases |a|
  {
    hide MsbFirst;
    if a != [] {
      assert Unpack(a)[..8] == MsbFirst(a[0]) && Unpack(b)[..8] == MsbFirst(b[0]);
      assert Unpack(a)[8..] == Unpack(a[1..]) && Unpack(b)[8..] == Unpack(b[1..]);
      MsbFirstInjective(a[0], b[0]);
      SameFrame(a[1..], b[1..], c[8..]);
    }
  }

  lemma LengthFirst(frame: seq<bv8>, c: seq<bool>)
    requires frame != [] && Unpack(frame) <= c
    ensures |c| >= 8 && Octet(c[..8]) == frame[0]
  {
    hide MsbFirst, Octet;
    assert c[..8] == MsbFirst(frame[0]);
    OctetOfBits(frame[0]);
  }

  lemma HoldsLength(buf: seq<bv8>, c: seq<bool>, off: int, octets: nat, junk: bv8)
    requires Holds(buf, c, off, octets, junk)
    ensures |buf| == FELICA_MAX_FRAME_SIZE && 0 <= off < 8 && |c| + off == 8 * octets
    ensures |c| >= 8 ==> Octet(c[..8]) == buf[2]
  {
    if |c| >= 8 {
      hide MsbFirst, Octet;
      var k := 0;
      assert MsbFirst(buf[2 + k]) == c[8 * k..8 * k + 8];
      OctetOfBits(buf[2]);
    }
  }

  lemma HoldsNothing(buf: seq<bv8>, junk: bv8)
    requires |buf| == FELICA_MAX_FRAME_SIZE && buf[0] == 0xB2 && buf[1] == 0x4D
    ensures Holds(buf, [], 0, 0, junk)
  {
  }

  lemma NotSyncWord(w: bv16)
    requires !Bits16(w)[15]
    ensures w != SYNC_16BIT
  {
    hide Bits16;
    SyncWord(w);
  }

  lemma NothingYet(seen: seq<bool>, bits: seq<bool>)
    ensures seen + bits[..0] == seen && bits[0..] + Level(false, 0) == bits && bits[0..] == bits
  {
    assert Level(false, 0) == [];
  }

  lemma HuntStep(seen: seq<bool>, bits: seq<bool>, i: nat, rest: bv8, w: bv16)
    requires i < 8 == |bits| && LsbFirst(rest) == bits[i..] + Level(false, i)
    requires Window(w, seen + bits[..i]) && !Synced(seen + bits[..i])
    ensures LsbFirst(ShrOne(rest)) == bits[i + 1..] + Level(false, i + 1)
    ensures Window(ShiftIn(w, rest & 1), seen + bits[..i + 1])
    ensures Feed(seen + bits[..i], bits[i..]) == Feed(seen + bits[..i + 1], bits[i + 1..])
  {
    hide LsbFirst, Bits16, ShiftIn, ShrOne, Synced;
    var s := seen + bits[..i];
    ShiftRight(rest);
    WindowShift(w, s, rest);
    assert Level(false, i) + [false] == Level(false, i + 1);
    assert s + [bits[i]] == seen + bits[..i + 1];
    assert bits[i..][1..] == bits[i + 1..];
  }

  lemma DrainStep(w: bv16, rest: bv8)
    requires LsbFirst(rest) == Level(false, 8)
    ensures LsbFirst(ShrOne(rest)) == Level(false, 8) && !Bits16(ShiftIn(w, rest & 1))[15]
  {
    hide LsbFirst, Bits16, ShiftIn, ShrOne;
    ShiftRight(rest);
    ShiftInWindow(w, rest);
    assert Level(false, 8)[1..] + [false] == Level(false, 8);
  }

  lemma FrameStarts(seen: seq<bool>, bits: seq<bool>, i: nat, rest: bv8, empty: bv8)
    requires 0 < i < 8 == |bits| && Synced(seen + bits[..i])
    requires LsbFirst(rest) == bits[i..] + Level(false, i)
    requires LsbFirst(empty) == LsbFirst(rest)[8 - i..] + Level(false, 8 - i)
    ensures LsbFirst(empty) == Level(false, 8) && LsbFirst(rest)[..8 - i] == bits[i..]
    ensures Feed(seen + bits[..i], bits[i..]) == Collect(bits[i..])
  {
    hide LsbFirst, Synced;
    assert LsbFirst(empty) == Level(false, 8);
  }

  lemma HoldsBounds(buf: seq<bv8>, c: seq<bool>, off: int, octets: nat, junk: bv8)
    requires Holds(buf, c, off, octets, junk)
    ensures |buf| == FELICA_MAX_FRAME_SIZE && 0 <= off < 8 && 1 + octets < |buf|
  {
  }

  /** An octet filled in two goes holds the bits of both. */
  lemma OctetFilled(junk: bv8, a: seq<bool>, b: seq<bool>)
    requires |a| + |b| == 8
    ensures MsbFirst(PushAll(PushAll(junk, a), b)) == a + b
  {
    hide MsbFirst, Push;
    PushWindow(junk, a);
    PushWindow(PushAll(junk, a), b);
    assert ((MsbFirst(junk) + a)[|a|..] + b)[|b|..] == a + b;
  }
}
