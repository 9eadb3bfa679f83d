/** Characters and frames of section 7.1 of ISO/IEC 14443-3, and the encoders of
    armsrc/iso14443b.c that lay them out in the transmit buffer. */
module Iso14443bFrame {
  import opened Bits
  import ToSend

  /** A character: start bit, eight data bits from the least significant, stop bit. */
  function Char(b: bv8): (bits: seq<bool>)
    ensures |bits| == 10
  {
    [false] + LsbFirst(b) + [true]
  }

  function Chars(cmd: seq<bv8>): (bits: seq<bool>)
    ensures |bits| == 10 * |cmd|
  {
    if cmd == [] then [] else Char(cmd[0]) + Chars(cmd[1..])
  }

  lemma {:induction false} CharsAppend(cmd: seq<bv8>, b: bv8)
    ensures Chars(cmd + [b]) == Chars(cmd) + Char(b)
    decreases |cmd|
  {
    hide Char;
    if cmd == [] {
      assert cmd + [b] == [b];
      assert Chars([b]) == Char(b) + Chars([]);
    } else {
      assert (cmd + [b])[1..] == cmd[1..] + [b];
      CharsAppend(cmd[1..], b);
    }
  }

  /** A reader's frame: SOF, characters, EOF, and ones to fill up the last octet. */
  function ReaderBits(cmd: seq<bv8>): seq<bool> {
    Level(false, 10) + Level(true, 2) + Chars(cmd) + Level(false, 10) + Level(true, 8)
  }

  /** A tag's frame: TR1, SOF, characters, EOF, and a trailing high phase. */
  function TagBits(cmd: seq<bv8>): seq<bool> {
    Level(true, 20) + Level(false, 10) + Level(true, 2) + Chars(cmd) + Level(false, 10) + Level(true, 2)
  }

  // ---------------------------------------------------------------------
  // The shift register with which both receivers collect a character
  // ---------------------------------------------------------------------

  function ShiftBit(s: bv16, bit: bool): bv16 {
    if bit then (s >> 1) | 0x200 else s >> 1
  }

  predicate StartAndStop(s: bv16) { s & 0x200 != 0 && s & 1 == 0 }

  function DataBits(s: bv16): bv8 { ((s >> 1) & 0xFF) as bv8 }

  /** The ten low bits of the shift register, the oldest first. */
  function Bits10(s: bv16): (bits: seq<bool>)
    ensures |bits| == 10
  {
    [s & 0x1 != 0, s & 0x2 != 0, s & 0x4 != 0, s & 0x8 != 0, s & 0x10 != 0,
     s & 0x20 != 0, s & 0x40 != 0, s & 0x80 != 0, s & 0x100 != 0, s & 0x200 != 0]
  }

  predicate Low10(s: bv16) { s & 0xFC00 == 0 }

  lemma ShiftBitWindow(s: bv16, bit: bool)
    requires Low10(s)
    ensures Low10(ShiftBit(s, bit)) && Bits10(ShiftBit(s, bit)) == Bits10(s)[1..] + [bit]
  {
  }

  lemma ZeroWindow(s: bv16)
    requires Low10(s)
    ensures s == 0 <==> Bits10(s) == Level(false, 10)
    ensures StartAndStop(s) <==> !Bits10(s)[0] && Bits10(s)[9]
  {
    var b := Bits10(s);
    if b == Level(false, 10) {
      assert !b[0] && !b[1] && !b[2] && !b[3] && !b[4] && !b[5] && !b[6] && !b[7] && !b[8] && !b[9];
    }
  }

  lemma DataBitsAre(s: bv16)
    ensures var b := DataBits(s);
      && (b & 1 != 0 <==> s & 0x2 != 0) && (b & 2 != 0 <==> s & 0x4 != 0)
      && (b & 4 != 0 <==> s & 0x8 != 0) && (b & 8 != 0 <==> s & 0x10 != 0)
      && (b & 16 != 0 <==> s & 0x20 != 0) && (b & 32 != 0 <==> s & 0x40 != 0)
      && (b & 64 != 0 <==> s & 0x80 != 0) && (b & 128 != 0 <==> s & 0x100 != 0)
  {
  }

  lemma DataWindow(s: bv16)
    ensures LsbFirst(DataBits(s)) == Bits10(s)[1..9]
  {
    hide DataBits;
    DataBitsAre(s);
    var bits := [s & 0x2 != 0, s & 0x4 != 0, s & 0x8 != 0, s & 0x10 != 0,
                 s & 0x20 != 0, s & 0x40 != 0, s & 0x80 != 0, s & 0x100 != 0];
    assert Bits10(s)[1..9] == bits;
    assert LsbFirst(DataBits(s)) == bits;
  }

  function ShiftAll(s: bv16, bits: seq<bool>): bv16
    decreases |bits|
  {
    if bits == [] then s else ShiftAll(ShiftBit(s, bits[0]), bits[1..])
  }

  lemma {:induction false} ShiftAllWindow(s: bv16, bits: seq<bool>)
    requires Low10(s)
    ensures Low10(ShiftAll(s, bits))
    ensures Bits10(ShiftAll(s, bits)) == (Bits10(s) + bits)[|bits|..]
    decreases |bits|
  {
    hide Bits10, ShiftBit, Low10;
    if bits != [] {
      ShiftBitWindow(s, bits[0]);
      ShiftAllWindow(ShiftBit(s, bits[0]), bits[1..]);
      assert Bits10(s)[1..] + [bits[0]] + bits[1..] == (Bits10(s) + bits)[1..];
    }
  }

  lemma ZeroRegister()
    ensures Low10(0) && Bits10(0) == Level(false, 10)
  {
  }

  lemma StoppedRegister(b: bv8)
    ensures var s := ShiftBit(ShiftAll(0, LsbFirst(b)), true);
            StartAndStop(s) && DataBits(s) == b
  {
    hide ShiftBit, ShiftAll, LsbFirst, StartAndStop, DataBits, Bits10, Low10;
    var data := LsbFirst(b);
    var s := ShiftBit(ShiftAll(0, data), true);
    ZeroRegister();
    ShiftAllWindow(0, data);
    ShiftBitWindow(ShiftAll(0, data), true);
    assert Bits10(s) == [false] + data + [true] by {
      assert (Level(false, 10) + data)[8..][1..] == [false] + data;
    }
    ZeroWindow(s);
    DataWindow(s);
    assert LsbFirst(DataBits(s)) == data;
    LsbFirstInjective(DataBits(s), b);
  }

  lemma EmptyRegister()
    ensures ShiftBit(ShiftAll(0, Level(false, 8)), false) == 0
  {
    hide ShiftBit, ShiftAll, Bits10, Low10;
    var s := ShiftAll(0, Level(false, 8));
    ZeroRegister();
    ShiftAllWindow(0, Level(false, 8));
    ShiftBitWindow(s, false);
    ZeroWindow(ShiftBit(s, false));
    assert Bits10(ShiftBit(s, false)) == Level(false, 10);
  }

  // ---------------------------------------------------------------------
  // The encoders
  // ---------------------------------------------------------------------

  /** Send the same bit `n` times. */
  method SendLevel(ts: ToSend.Buffer, b: bool, n: nat)
    requires ts.Valid() && |ts.bits| + n <= 8 * ToSend.TOSEND_BUFFER_SIZE
    modifies ts, ts.buf
    ensures ts.Valid() && ts.bits == old(ts.bits) + Level(b, n)
  {
    var i := 0;
    while i < n
      invariant i <= n && ts.Valid() && ts.bits == old(ts.bits) + Level(b, i)
    {
      ts.StuffBit(b);
      i := i + 1;
    }
  }

  /** Send one character towards the tag. */
  method SendCharacter(ts: ToSend.Buffer, b: bv8)
    requires ts.Valid() && |ts.bits| + 10 <= 8 * ToSend.TOSEND_BUFFER_SIZE
    modifies ts, ts.buf
    ensures ts.Valid() && ts.bits == old(ts.bits) + Char(b)
  {
    hide ToSend.Buffer.Valid, LsbFirst;
    ghost var data := LsbFirst(b);
    ts.StuffBit(false);
    SendData(ts, b);
    ts.StuffBit(true);
  }

  method SendData(ts: ToSend.Buffer, b: bv8)
    requires ts.Valid() && |ts.bits| + 8 <= 8 * ToSend.TOSEND_BUFFER_SIZE
    modifies ts, ts.buf
    ensures ts.Valid() && ts.bits == old(ts.bits) + LsbFirst(b)
  {
    hide ToSend.Buffer.Valid, LsbFirst;
    for k := 0 to 8
      invariant ts.Valid() && ts.bits == old(ts.bits) + LsbFirst(b)[..k]
    {
      ts.StuffBit(LsbFirst(b)[k]);
    }
  }

  /** Send one character towards the reader, every bit four times. */
  method SendCharacter4(ts: ToSend.Buffer, c: bv8)
    requires ts.Valid() && |ts.bits| + 40 <= 8 * ToSend.TOSEND_BUFFER_SIZE
    modifies ts, ts.buf
    ensures ts.Valid() && ts.bits == old(ts.bits) + Stretch(Char(c), 4)
  {
    hide LsbFirst, ShrOne, LowBit, Char, Stretch, Level, ToSend.Buffer.Valid;
    SendLevel(ts, false, 4);
    ghost var data, mid := LsbFirst(c), ts.bits;
    StretchNothing(4);
    var b := c;
    var j := 0;
    while j < 8
      invariant 0 <= j <= 8 && ts.Valid() && b == Shr(c, j)
      invariant ts.bits == mid + Stretch(data[..j], 4)
    {
      ShrBits(c, j);
      LowBitFirst(b);
      SendLevel(ts, LowBit(b), 4);
      StretchSnoc(data[..j], data[j], 4);
      assert data[..j] + [data[j]] == data[..j + 1];
      b := ShrOne(b);
      j := j + 1;
    }
    SendLevel(ts, true, 4);
    assert data[..8] == data;
    StretchedChar(c, 4);
  }

  lemma StretchedChar(c: bv8, times: nat)
    ensures Stretch(Char(c), times) == Level(false, times) + Stretch(LsbFirst(c), times) + Level(true, times)
  {
    hide LsbFirst;
    var data := LsbFirst(c);
    StretchSnoc([false] + data, true, times);
    assert ([false] + data)[1..] == data;
  }

  lemma StretchNothing(n: nat)
    ensures Stretch([], n) == []
  {
  }

  predicate LowBit(b: bv8) { b & 1 != 0 }

  lemma LowBitFirst(b: bv8)
    ensures LsbFirst(b)[0] <==> LowBit(b)
  {
  }

  lemma StretchSnoc(bits: seq<bool>, bit: bool, n: nat)
    ensures Stretch(bits + [bit], n) == Stretch(bits, n) + Level(bit, n)
  {
    StretchAppend(bits, [bit], n);
    assert Stretch([bit], n) == Level(bit, n) + Stretch([], n);
  }

  /** Lay out a command for the tag, one buffer bit for each bit. */
  method CodeAsReader(ts: ToSend.Buffer, cmd: seq<bv8>)
    requires ts.Valid() && 30 + 10 * |cmd| <= 8 * ToSend.TOSEND_BUFFER_SIZE
    modifies ts, ts.buf
    ensures 0 <= ts.max <= ts.buf.Length && ToSend.Packed(ts.buf[..ts.max], ReaderBits(cmd))
  {
    hide Char, ToSend.Buffer.Valid;
    ts.Reset();
    SendLevel(ts, false, 10);
    SendLevel(ts, true, 2);
    ghost var sof := ts.bits;
    var i := 0;
    while i < |cmd|
      invariant 0 <= i <= |cmd| && ts.Valid() && ts.bits == sof + Chars(cmd[..i])
    {
      SendCharacter(ts, cmd[i]);
      CharsAppend(cmd[..i], cmd[i]);
      assert cmd[..i] + [cmd[i]] == cmd[..i + 1];
      i := i + 1;
    }
    assert cmd[..|cmd|] == cmd;
    SendLevel(ts, false, 10);
    SendLevel(ts, true, 8);
    assert ts.bits == ReaderBits(cmd);
    PackedBuffer(ts);
    ts.max := ts.max + 1;
  }

  /** Lay out an answer for the reader, four buffer bits for each bit. */
  method CodeAsTag(ts: ToSend.Buffer, cmd: seq<bv8>)
    requires ts.Valid() && 176 + 40 * |cmd| <= 8 * ToSend.TOSEND_BUFFER_SIZE
    modifies ts, ts.buf
    ensures 0 <= ts.max <= ts.buf.Length && ToSend.Packed(ts.buf[..ts.max], Stretch(TagBits(cmd), 4))
  {
    hide Char, Stretch, Level, ToSend.Buffer.Valid, TagBits;
    ts.Reset();
    SendLevel(ts, true, 80);
    assert ts.bits == Level(true, 80);
    SendLevel(ts, false, 40);
    SendLevel(ts, true, 8);
    ghost var sof := ts.bits;
    StretchNothing(4);
    var i := 0;
    while i < |cmd|
      invariant 0 <= i <= |cmd| && ts.Valid() && ts.bits == sof + Stretch(Chars(cmd[..i]), 4)
    {
      SendCharacter4(ts, cmd[i]);
      CharsAppend(cmd[..i], cmd[i]);
      StretchAppend(Chars(cmd[..i]), Char(cmd[i]), 4);
      assert cmd[..i] + [cmd[i]] == cmd[..i + 1];
      i := i + 1;
    }
    assert cmd[..|cmd|] == cmd;
    SendLevel(ts, false, 40);
    SendLevel(ts, true, 8);
    TagBitsStretched(cmd);
    assert ts.bits == Stretch(TagBits(cmd), 4);
    PackedBuffer(ts);
    ts.max := ts.max + 1;
  }

  lemma PackedBuffer(ts: ToSend.Buffer)
    requires ts.Valid()
    ensures -1 <= ts.max < ts.buf.Length && ToSend.Packed(ts.buf[..ts.max + 1], ts.bits)
  {
  }

  lemma TagBitsStretched(cmd: seq<bv8>)
    ensures Stretch(TagBits(cmd), 4)
         == Level(true, 80) + Level(false, 40) + Level(true, 8) + Stretch(Chars(cmd), 4) + Level(false, 40) + Level(true, 8)
  {
    hide Chars, Stretch, Level;
    var a := Level(true, 20) + Level(false, 10);
    var b := a + Level(true, 2);
    var c := b + Chars(cmd);
    var d := c + Level(false, 10);
    StretchAppend(d, Level(true, 2), 4);
    StretchAppend(c, Level(false, 10), 4);
    StretchAppend(b, Chars(cmd), 4);
    StretchAppend(a, Level(true, 2), 4);
    StretchAppend(Level(true, 20), Level(false, 10), 4);
    StretchLevel(true, 20, 4);
    StretchLevel(false, 10, 4);
    StretchLevel(true, 2, 4);
  }
}
