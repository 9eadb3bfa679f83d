/** The two Hitag2 handlers of armsrc/hitag2.c as they work on their buffers:
    they update static state and octet buffers in place, and refine the frame
    level of module `Hitag2`. */
module Hitag2Devices {
  import opened Bits
  import opened Hitag2Cipher
  import opened Hitag2

  const HITAG_FRAME_LEN: nat := 20

  /** The first `n` bits of a buffer. */
  function FrameOf(buf: seq<bv8>, n: nat): Frame
    requires n <= 8 * |buf|
  {
    Unpack(buf)[..n]
  }

  /** Nothing is left behind the end of a received frame. */
  predicate ZeroPadded(buf: seq<bv8>, n: nat) {
    forall j | n <= j < 8 * |buf| :: !Unpack(buf)[j]
  }

  lemma CryptedFrame(bits: seq<bool>, x: bv64, n: nat)
    requires n <= |bits|
    ensures XorAt(bits, 0, KeyBits(x, n))[..n] == Crypt(x, bits[..n])
  {
    hide KeyBits;
  }

  /** Encrypt or decrypt the frame in a buffer. */
  method CryptFrame(x: bv64, buf: array<bv8>, n: nat) returns (x': bv64)
    requires n <= 8 * buf.Length
    modifies buf
    ensures x' == Advance(x, n) && FrameOf(buf[..], n) == Crypt(x, old(FrameOf(buf[..], n)))
    ensures ZeroPadded(old(buf[..]), n) ==> ZeroPadded(buf[..], n)
  {
    hide Advance, KeyBits, Unpack;
    x' := Transcrypt(x, buf, n / 8, n % 8);
    CryptedFrame(old(Unpack(buf[..])), x, n);
  }

  lemma FirstOctets(buf: seq<bv8>, n: nat)
    requires n <= |buf|
    ensures FrameOf(buf, 8 * n) == Unpack(buf[..n])
  {
    assert buf == buf[..n] + buf[n..];
    UnpackAppend(buf[..n], buf[n..]);
  }

  // ---------------------------------------------------------------------
  // Commands in octets
  // ---------------------------------------------------------------------

  function PageField(b0: bv8): bv8 { (b0 >> 3) & 7 }

  function ComplementField(b0: bv8, b1: bv8): bv8 { !(((b0 << 2) & 4) | ((b1 >> 6) & 3)) & 7 }

  function CommandField(b0: bv8): bv8 { b0 & 0xC6 }

  function Bits3(x: bv8): (bits: seq<bool>)
    ensures |bits| == 3
  {
    [x & 4 != 0, x & 2 != 0, x & 1 != 0]
  }

  lemma PageFieldBits(b0: bv8)
    ensures Bits3(PageField(b0)) == MsbFirst(b0)[2..5]
  {
    assert ((b0 >> 3) & 7) & 4 != 0 <==> b0 & 32 != 0;
    assert ((b0 >> 3) & 7) & 2 != 0 <==> b0 & 16 != 0;
    assert ((b0 >> 3) & 7) & 1 != 0 <==> b0 & 8 != 0;
  }

  lemma ComplementRaw(b0: bv8, b1: bv8)
    ensures (!(((b0 << 2) & 4) | ((b1 >> 6) & 3)) & 7) & 4 != 0 <==> b0 & 1 == 0
    ensures (!(((b0 << 2) & 4) | ((b1 >> 6) & 3)) & 7) & 2 != 0 <==> b1 & 128 == 0
    ensures (!(((b0 << 2) & 4) | ((b1 >> 6) & 3)) & 7) & 1 != 0 <==> b1 & 64 == 0
  {
  }

  lemma ComplementFieldBits(b0: bv8, b1: bv8)
    ensures Bits3(ComplementField(b0, b1)) == Not([MsbFirst(b0)[7]] + MsbFirst(b1)[..2])
  {
    ComplementRaw(b0, b1);
    var bits := [b0 & 1 != 0, b1 & 128 != 0, b1 & 64 != 0];
    assert [MsbFirst(b0)[7]] + MsbFirst(b1)[..2] == bits;
    assert Bits3(ComplementField(b0, b1)) == Not(bits);
  }

  lemma Bits3Injective(x: bv8, y: bv8)
    requires x & 0xF8 == 0 && y & 0xF8 == 0
    ensures x == y <==> Bits3(x) == Bits3(y)
  {
    if Bits3(x) == Bits3(y) {
      assert Bits3(x)[0] == Bits3(y)[0] && Bits3(x)[1] == Bits3(y)[1] && Bits3(x)[2] == Bits3(y)[2];
    }
  }

  lemma Number3OfBits3(x: bv8)
    requires x & 0xF8 == 0
    ensures Number3(Bits3(x)) == x as int
  {
    assert x == 0 || x == 1 || x == 2 || x == 3 || x == 4 || x == 5 || x == 6 || x == 7;
  }

  lemma FieldsFit(b0: bv8, b1: bv8)
    ensures PageField(b0) & 0xF8 == 0 && ComplementField(b0, b1) & 0xF8 == 0
  {
    assert ((b0 >> 3) & 7) & 0xF8 == 0;
    assert (!(((b0 << 2) & 4) | ((b1 >> 6) & 3)) & 7) & 0xF8 == 0;
  }

  lemma TenBits(buf: seq<bv8>)
    requires |buf| >= 2
    ensures FrameOf(buf, 10) == MsbFirst(buf[0]) + MsbFirst(buf[1])[..2]
  {
    hide MsbFirst;
    FirstOctets(buf, 2);
    assert buf[..2] == [buf[0]] + [buf[1]];
    UnpackAppend([buf[0]], [buf[1]]);
    assert Unpack([buf[0]]) == MsbFirst(buf[0]) + Unpack([]);
    assert Unpack([buf[1]]) == MsbFirst(buf[1]) + Unpack([]);
    assert FrameOf(buf, 10) == FrameOf(buf, 16)[..10];
  }

  lemma NotNot(bits: seq<bool>)
    ensures Not(Not(bits)) == bits
  {
  }

  /** The octet tests of the emulator are the frame's fields. */
  lemma PageDecoded(buf: seq<bv8>)
    requires |buf| >= 2
    ensures var f := FrameOf(buf, 10);
            && (Complemented(f) <==> ComplementField(buf[0], buf[1]) == PageField(buf[0]))
            && Number3(f[2..5]) == PageField(buf[0]) as int
  {
    hide MsbFirst, PageField, ComplementField, Number3, Bits3, Not;
    TenBits(buf);
    var f, b0, b1 := FrameOf(buf, 10), buf[0], buf[1];
    PageFieldBits(b0);
    ComplementFieldBits(b0, b1);
    FieldsFit(b0, b1);
    Bits3Injective(ComplementField(b0, b1), PageField(b0));
    Number3OfBits3(PageField(b0));
    assert f[2..5] == MsbFirst(b0)[2..5];
    assert f[7..10] == [MsbFirst(b0)[7]] + MsbFirst(b1)[..2];
    NotNot(f[2..5]);
    NotNot(f[7..10]);
  }

  lemma CommandFieldBits(b: bv8)
    ensures var m := MsbFirst(b); var bits := [m[0], m[1], m[5], m[6]];
            && (CommandField(b) == 0xC0 <==> bits == KindBits(Read))
            && (CommandField(b) == 0x44 <==> bits == KindBits(InvertedRead))
            && (CommandField(b) == 0x82 <==> bits == KindBits(Write))
  {
    assert (b & 0xC6 == 0xC0) <==> (b & 128 != 0 && b & 64 != 0 && b & 4 == 0 && b & 2 == 0);
    assert (b & 0xC6 == 0x44) <==> (b & 128 == 0 && b & 64 != 0 && b & 4 != 0 && b & 2 == 0);
    assert (b & 0xC6 == 0x82) <==> (b & 128 != 0 && b & 64 == 0 && b & 4 == 0 && b & 2 != 0);
  }

  lemma KindDecoded(buf: seq<bv8>)
    requires |buf| >= 2
    ensures var f := FrameOf(buf, 10);
            KindOf(f) == (if CommandField(buf[0]) == 0xC0 then Read
                          else if CommandField(buf[0]) == 0x44 then InvertedRead
                          else if CommandField(buf[0]) == 0x82 then Write
                          else Unknown)
  {
    hide MsbFirst, CommandField, KindBits;
    TenBits(buf);
    CommandFieldBits(buf[0]);
  }

  lemma UidRequestOctet(buf: seq<bv8>)
    requires |buf| >= 1 && ZeroPadded(buf, 5)
    ensures FrameOf(buf, 5) == UidRequest() <==> buf[0] == 0xC0
  {
    var m := MsbFirst(buf[0]);
    assert Unpack(buf)[..8] == m;
    assert !Unpack(buf)[5] && !Unpack(buf)[6] && !Unpack(buf)[7];
    assert FrameOf(buf, 5) == m[..5];
    UidOctet(buf[0]);
  }

  lemma UidOctet(b: bv8)
    requires !MsbFirst(b)[5] && !MsbFirst(b)[6] && !MsbFirst(b)[7]
    ensures MsbFirst(b)[..5] == UidRequest() <==> b == 0xC0
  {
    var m := MsbFirst(b);
    assert b == 0xC0 <==> (b & 128 != 0 && b & 64 != 0 && b & 32 == 0 && b & 16 == 0 && b & 8 == 0
                           && b & 4 == 0 && b & 2 == 0 && b & 1 == 0);
    if m[..5] == UidRequest() {
      assert m[..5][0] && m[..5][1] && !m[..5][2] && !m[..5][3] && !m[..5][4];
    }
  }

  method Copy4(tx: array<bv8>, data: seq<bv8>)
    requires tx.Length >= 4 == |data|
    modifies tx
    ensures FrameOf(tx[..], 32) == Unpack(data)
    ensures tx[..4] == data
  {
    hide Unpack;
    tx[0], tx[1], tx[2], tx[3] := data[0], data[1], data[2], data[3];
    FirstOctets(tx[..], 4);
    assert tx[..][..4] == tx[..4] == data;
  }

  function Inverted(s: seq<bv8>): (r: seq<bv8>)
    ensures |r| == |s|
  {
    seq(|s|, k requires 0 <= k < |s| => s[k] ^ 0xFF)
  }

  lemma MsbInvert(b: bv8)
    ensures MsbFirst(b ^ 0xFF) == Not(MsbFirst(b))
  {
    hide MsbFirst;
    MsbXor(b, 0xFF);
    AllOnes();
  }

  lemma AllOnes()
    ensures MsbFirst(0xFF) == Level(true, 8)
  {
  }

  lemma {:induction false} InvertedBits(s: seq<bv8>)
    ensures Unpack(Inverted(s)) == Not(Unpack(s))
    decreases |s|
  {
    hide MsbFirst;
    if s != [] {
      InvertedBits(s[1..]);
      MsbInvert(s[0]);
      assert Inverted(s)[1..] == Inverted(s[1..]);
    }
  }

  lemma EightOctets(buf: seq<bv8>)
    requires |buf| >= 8
    ensures var f := FrameOf(buf, 64);
            Pack(f[..32]) == buf[..4] && f[32..] == Unpack(buf[4..8])
  {
    hide Unpack, Pack;
    FirstOctets(buf, 8);
    assert buf[..8] == buf[..4] + buf[4..8];
    UnpackAppend(buf[..4], buf[4..8]);
    PackUnpack(buf[..4]);
  }

  /** The authenticator must be the inverted next 32 bits of key stream. */
  method Authenticate4(x: bv64, is4: seq<bv8>) returns (ok: bool, x': bv64)
    requires |is4| == 4
    ensures x' == Advance(x, 32) && (ok <==> Unpack(is4) == Not(KeyBits(x, 32)))
  {
    hide Unpack, Advance, KeyBits, Not, MsbFirst, Inverted;
    var b0, x1 := NextByte(x);
    var b1, x2 := NextByte(x1);
    var b2, x3 := NextByte(x2);
    var b3;
    b3, x' := NextByte(x3);
    var should := Inverted([b0, b1, b2, b3]);
    ok := should == is4;
    FourBytes(x, [b0, b1, b2, b3]);
    InvertedBits([b0, b1, b2, b3]);
    PackUnpack(should);
    PackUnpack(is4);
  }

  lemma FourBytes(x: bv64, b: seq<bv8>)
    requires |b| == 4
    requires MsbFirst(b[0]) == KeyBits(x, 8)
    requires MsbFirst(b[1]) == KeyBits(Advance(x, 8), 8)
    requires MsbFirst(b[2]) == KeyBits(Advance(Advance(x, 8), 8), 8)
    requires MsbFirst(b[3]) == KeyBits(Advance(Advance(Advance(x, 8), 8), 8), 8)
    ensures Unpack(b) == KeyBits(x, 32) && Advance(x, 32) == Advance(Advance(Advance(Advance(x, 8), 8), 8), 8)
  {
    hide MsbFirst, KeyBits, Advance;
    KeySplit(x, 8, 24);
    KeySplit(Advance(x, 8), 8, 16);
    KeySplit(Advance(Advance(x, 8), 8), 8, 8);
    assert b[1..][1..] == b[2..] && b[2..][1..] == b[3..] && b[3..][1..] == [];
    assert Unpack(b[3..]) == MsbFirst(b[3]) + Unpack([]);
    assert Unpack(b[2..]) == MsbFirst(b[2]) + Unpack(b[3..]);
    assert Unpack(b[1..]) == MsbFirst(b[1]) + Unpack(b[2..]);
    assert Unpack(b) == MsbFirst(b[0]) + Unpack(b[1..]);
  }

  // ---------------------------------------------------------------------
  // The tag emulator
  // ---------------------------------------------------------------------

  class TagEmulator {
    var sectors: Sectors
    var state: TagState
    var activeSector: nat
    var cryptoActive: bool
    var cs: bv64

    ghost predicate Valid()
      reads this
    {
      ValidTag(View())
    }

    ghost function View(): Tag
      reads this
    {
      Tag(sectors, state, activeSector, cryptoActive, cs)
    }

    constructor (memory: Sectors)
      ensures Valid() && View() == Tag(memory, Reset, 0, false, 0)
    {
      sectors, state, activeSector, cryptoActive, cs := memory, Reset, 0, false, 0;
    }

    /** The end of every handler that answers: encrypt once encryption is on. */
    method Reply(tx: array<bv8>, txlen: nat)
      requires txlen <= 8 * tx.Length
      modifies this`cs, tx
      ensures (View(), FrameOf(tx[..], txlen)) == Answer(old(View()), old(FrameOf(tx[..], txlen)))
    {
      hide Advance, KeyBits, Unpack, Crypt, ZeroPadded;
      if cryptoActive {
        cs := CryptFrame(cs, tx, txlen);
      }
    }

    /** Read or write command with a page number and its complement. */
    method HandlePageCommand(rx: array<bv8>, tx: array<bv8>) returns (txlen: nat)
      requires Valid() && rx != tx && rx.Length == tx.Length == HITAG_FRAME_LEN
      modifies this, tx
      ensures Valid() && txlen <= 8 * tx.Length
      ensures (View(), FrameOf(tx[..], txlen)) == TagCommand(old(View()), FrameOf(rx[..], 10))
    {
      hide Unpack, Number3, KindOf, Complemented, PageField, ComplementField, CommandField, Not, Answer;
      ghost var f := FrameOf(rx[..], 10);
      PageDecoded(rx[..]);
      KindDecoded(rx[..]);
      txlen := 0;
      var sector := ComplementField(rx[0], rx[1]);
      if sector != PageField(rx[0]) {
        return;
      }
      var n := sector as int;
      var command := CommandField(rx[0]);
      if command == 0xC0 {
        Copy4(tx, sectors[n]);
        txlen := 32;
      } else if command == 0x44 {
        Copy4(tx, Inverted(sectors[n]));
        InvertedBits(sectors[n]);
        txlen := 32;
      } else if command == 0x82 {
        tx[0], tx[1] := rx[0], rx[1];
        TenBits(rx[..]);
        TenBits(tx[..]);
        txlen := 10;
        activeSector := n;
        state := Writing;
      } else {
        return;
      }
      Reply(tx, txlen);
    }

    /** Sector contents to be written, or the reader's password. */
    method HandleData(rx: array<bv8>, tx: array<bv8>) returns (txlen: nat)
      requires Valid() && rx != tx && rx.Length == tx.Length == HITAG_FRAME_LEN
      modifies this, tx
      ensures Valid() && txlen <= 8 * tx.Length
      ensures (View(), FrameOf(tx[..], txlen)) == TagData(old(View()), FrameOf(rx[..], 32))
    {
      hide Unpack, Pack, Answer;
      FirstOctets(rx[..], 4);
      PackUnpack(rx[..4]);
      PackUnpack(sectors[1]);
      assert rx[..][..4] == rx[..4];
      txlen := 0;
      if state == Writing {
        sectors := SetSector(sectors, activeSector, rx[..4]);
        state := Reset;
        return;
      }
      if rx[..4] != sectors[1] {
        return;
      }
      Copy4(tx, sectors[3]);
      txlen := 32;
      Reply(tx, txlen);
    }

    /** Challenge and authenticator of the reader. */
    method HandleAuthentication(rx: array<bv8>, tx: array<bv8>) returns (txlen: nat)
      requires Valid() && rx != tx && rx.Length == tx.Length == HITAG_FRAME_LEN
      modifies this, tx
      ensures Valid() && txlen <= 8 * tx.Length
      ensures (View(), FrameOf(tx[..], txlen)) == TagAuthenticate(old(View()), FrameOf(rx[..], 64))
    {
      hide Unpack, Pack, Answer, Init, Word32, Word48, Advance, KeyBits, Not;
      ghost var f := FrameOf(rx[..], 64);
      EightOctets(rx[..]);
      assert rx[..][..4] == rx[..4] && rx[..][4..8] == rx[4..8];
      txlen := 0;
      cs := Initialise(Word48(KeyOctets(sectors)), Word32(sectors[0]), Word32(rx[..4]));
      var ok;
      ok, cs := Authenticate4(cs, rx[4..8]);
      if !ok {
        return;
      }
      cryptoActive := true;
      Copy4(tx, sectors[3]);
      txlen := 32;
      Reply(tx, txlen);
    }

    /** One frame from the reader; the answer is left in `tx`. */
    method HandleReaderCommand(rx: array<bv8>, rxlen: nat, tx: array<bv8>) returns (txlen: nat)
      requires Valid() && rx != tx && rx.Length == tx.Length == HITAG_FRAME_LEN
      requires rxlen <= 8 * rx.Length && ZeroPadded(rx[..], rxlen)
      modifies this, rx, tx
      ensures Valid() && txlen <= 8 * tx.Length
      ensures (View(), FrameOf(tx[..], txlen)) == TagStep(old(View()), old(FrameOf(rx[..], rxlen)))
    {
      hide Advance, KeyBits, Unpack, Crypt, TagCommand, TagData, TagAuthenticate, ZeroPadded;
      var air := rx[0];
      ghost var sent := FrameOf(rx[..], rxlen);
      if rxlen == 5 { UidRequestOctet(rx[..]); }
      if cryptoActive {
        cs := CryptFrame(cs, rx, rxlen);
      }
      txlen := 0;
      if rxlen == 5 {
        if air == 0xC0 {
          Copy4(tx, sectors[0]);
          txlen := 32;
          cryptoActive := false;
        }
      } else if rxlen == 10 {
        txlen := HandlePageCommand(rx, tx);
      } else if rxlen == 32 {
        txlen := HandleData(rx, tx);
      } else if rxlen == 64 {
        txlen := HandleAuthentication(rx, tx);
      }
    }
  }

  // ---------------------------------------------------------------------
  // The reader
  // ---------------------------------------------------------------------

  /** The two octets of a page command; `base` is C0 to read, 82 to write. */
  function CommandOctet0(base: bv8, b: bv8): bv8 { base | (b << 3) | ((b ^ 7) >> 2) }

  function CommandOctet1(b: bv8): bv8 { (b ^ 7) << 6 }

  /** The second octet as the reader expects it back. */
  function EchoOctet1(b: bv8): bv8 { ((b & 3) ^ 3) << 6 }

  lemma EchoIsCommand(b: bv8)
    ensures EchoOctet1(b) == CommandOctet1(b)
  {
    assert ((b & 3) ^ 3) << 6 == (b ^ 7) << 6;
  }

  predicate KindBase(k: Kind, base: bv8) { (k == Read && base == 0xC0) || (k == Write && base == 0x82) }

  lemma Octet0BitsLow(k: Kind, base: bv8, n: nat)
    requires n < 4 && KindBase(k, base)
    ensures MsbFirst(CommandOctet0(base, n as bv8)) == Command(k, n)[..8]
  {
    if n == 0 { assert CommandOctet0(base, 0) == base | 0x01; }
    else if n == 1 { assert CommandOctet0(base, 1) == base | 0x09; }
    else if n == 2 { assert CommandOctet0(base, 2) == base | 0x11; }
    else { assert CommandOctet0(base, 3) == base | 0x19; }
  }

  lemma Octet0Bits(k: Kind, base: bv8, n: nat)
    requires n < 8 && KindBase(k, base)
    ensures MsbFirst(CommandOctet0(base, n as bv8)) == Command(k, n)[..8]
  {
    if n < 4 { Octet0BitsLow(k, base, n); }
    else if n == 4 { assert CommandOctet0(base, 4) == base | 0x20; }
    else if n == 5 { assert CommandOctet0(base, 5) == base | 0x28; }
    else if n == 6 { assert CommandOctet0(base, 6) == base | 0x30; }
    else { assert CommandOctet0(base, 7) == base | 0x38; }
  }

  lemma Octet1Bits(k: Kind, n: nat)
    requires n < 8
    ensures MsbFirst(CommandOctet1(n as bv8)) == Command(k, n)[8..] + Level(false, 6)
  {
    hide MsbFirst, CommandOctet1;
    Octet1Is(n);
    TopTwo();
    assert Command(k, n)[8..] == Not(Page3(n))[1..];
  }

  lemma Octet1Is(n: nat)
    requires n < 8
    ensures CommandOctet1(n as bv8) ==
            if n % 4 == 0 then 0xC0 else if n % 4 == 1 then 0x80 else if n % 4 == 2 then 0x40 else 0
  {
    if n == 0 {} else if n == 1 {} else if n == 2 {} else if n == 3 {}
    else if n == 4 {} else if n == 5 {} else if n == 6 {} else {}
  }

  lemma TopTwo()
    ensures MsbFirst(0xC0) == [true, true] + Level(false, 6) && MsbFirst(0x80) == [true, false] + Level(false, 6)
    ensures MsbFirst(0x40) == [false, true] + Level(false, 6) && MsbFirst(0) == [false, false] + Level(false, 6)
  {
  }

  lemma CommandCoded(buf: seq<bv8>, k: Kind, base: bv8, n: nat)
    requires |buf| >= 2 && n < 8 && KindBase(k, base)
    requires buf[0] == CommandOctet0(base, n as bv8) && buf[1] == CommandOctet1(n as bv8)
    ensures FrameOf(buf, 10) == Command(k, n)
  {
    hide MsbFirst, CommandOctet0, CommandOctet1, Command;
    TenBits(buf);
    Octet0Bits(k, base, n);
    Octet1Bits(k, n);
    assert Command(k, n)[..8] + Command(k, n)[8..] == Command(k, n);
  }

  /** The reader's octet test for the echo is equality of frames. */
  lemma EchoDecoded(buf: seq<bv8>, n: nat)
    requires |buf| >= 2 && n < 8 && ZeroPadded(buf, 10)
    ensures FrameOf(buf, 10) == Command(Write, n)
       <==> buf[0] == CommandOctet0(0x82, n as bv8) && buf[1] == EchoOctet1(n as bv8)
  {
    hide MsbFirst, CommandOctet0, CommandOctet1, EchoOctet1, Command;
    EchoIsCommand(n as bv8);
    if buf[0] == CommandOctet0(0x82, n as bv8) && buf[1] == CommandOctet1(n as bv8) {
      CommandCoded(buf, Write, 0x82, n);
    }
    if FrameOf(buf, 10) == Command(Write, n) {
      TenBits(buf);
      Octet0Bits(Write, 0x82, n);
      Octet1Bits(Write, n);
      PaddedOctet(buf);
      var m0, m1 := MsbFirst(buf[0]), MsbFirst(buf[1]);
      assert m0 == Command(Write, n)[..8];
      assert m1 == m1[..2] + m1[2..];
      assert m1[..2] == Command(Write, n)[8..];
      MsbFirstInjective(buf[0], CommandOctet0(0x82, n as bv8));
      MsbFirstInjective(buf[1], CommandOctet1(n as bv8));
    }
  }

  lemma PaddedOctet(buf: seq<bv8>)
    requires |buf| >= 2 && ZeroPadded(buf, 10)
    ensures MsbFirst(buf[1])[2..] == Level(false, 6)
  {
    hide MsbFirst;
    forall k | 2 <= k < 8 ensures !MsbFirst(buf[1])[k] {
      UnpackAt(buf, 1, k);
    }
  }

  class CryptoReader {
    var sectors: Sectors
    var key: seq<bv8>
    var writedata: seq<bv8>
    var blocknr: nat
    var bCrypto: bool
    var bAuthenticating: bool
    var bSuccessful: bool
    var writestate: WriteState
    var cipherState: bv64

    ghost function View(): Reader
      reads this
    {
      Reader(sectors, key, writedata, blocknr, bCrypto, bAuthenticating, bSuccessful, writestate, cipherState)
    }

    ghost predicate Valid(write: bool)
      reads this
    {
      ValidReader(View(), write)
    }

    constructor (memory: Sectors, key: seq<bv8>, writedata: seq<bv8>, page: nat)
      requires |key| == 6 && |writedata| == 4 && page < 8
      ensures Valid(true) && View() == Reader(memory, key, writedata, page, false, false, false, Start, 0)
    {
      sectors, this.key, this.writedata, blocknr := memory, key, writedata, page;
      bCrypto, bAuthenticating, bSuccessful, writestate, cipherState := false, false, false, Start, 0;
    }

    method HandleWritePage(rx: array<bv8>, rxlen: nat, tx: array<bv8>) returns (txlen: nat, go: bool)
      requires |writedata| == 4 && blocknr < 8 && rx != tx && rx.Length == tx.Length == HITAG_FRAME_LEN
      requires rxlen <= 8 * rx.Length && ZeroPadded(rx[..], rxlen)
      modifies this`writestate, this`bSuccessful, tx
      ensures txlen <= 8 * tx.Length
      ensures Turn(View(), FrameOf(tx[..], txlen), go) == WritePage(old(View()), FrameOf(rx[..], rxlen))
    {
      hide Unpack, Command, CommandOctet0, CommandOctet1, EchoOctet1, ZeroPadded;
      txlen, go := 0, true;
      match writestate {
        case Start =>
          tx[0] := CommandOctet0(0x82, blocknr as bv8);
          tx[1] := CommandOctet1(blocknr as bv8);
          CommandCoded(tx[..], Write, 0x82, blocknr);
          txlen := 10;
          writestate := PageNumWritten;
        case PageNumWritten =>
          if rxlen == 10 { EchoDecoded(rx[..], blocknr); }
          if rxlen == 10 && rx[0] == CommandOctet0(0x82, blocknr as bv8) && rx[1] == EchoOctet1(blocknr as bv8) {
            Copy4(tx, writedata);
            txlen := 32;
            writestate := Prog;
          } else {
            bSuccessful := false;
            go := false;
          }
        case Prog =>
          bSuccessful := rxlen == 0;
          go := false;
      }
    }

    method HandleNoAnswer(tx: array<bv8>) returns (txlen: nat, go: bool)
      requires |key| == 6 && blocknr <= 8 && tx.Length == HITAG_FRAME_LEN
      modifies this, tx
      ensures txlen <= 8 * tx.Length && Turn(View(), FrameOf(tx[..], txlen), go) == NoAnswer(old(View()))
    {
      hide Unpack;
      txlen, go := 0, true;
      if bCrypto {
        if bAuthenticating {
          go := false;
        } else {
          if blocknr == 1 {
            sectors := SetSector(sectors, 1, key[2..6]);
          } else if blocknr == 2 {
            sectors := SetSector(sectors, 2, [0, 0, key[0], key[1]]);
          } else {
            sectors := SetSector(sectors, blocknr, [0, 0, 0, 0]);
          }
          blocknr := blocknr + 1;
          bCrypto := false;
        }
      } else {
        tx[0] := 0xC0;
        UidRequestCoded(tx[..]);
        txlen := 5;
      }
    }

    method HandleUid(rx: array<bv8>, tx: array<bv8>) returns (txlen: nat, go: bool)
      requires |key| == 6 && rx != tx && rx.Length == tx.Length == HITAG_FRAME_LEN
      modifies this, tx
      ensures txlen <= 8 * tx.Length && Turn(View(), FrameOf(tx[..], txlen), go) == GotUid(old(View()), FrameOf(rx[..], 32))
    {
      hide Unpack, Pack, Init, Word32, Word48, Advance, KeyBits, Crypt;
      FirstOctets(rx[..], 4);
      PackUnpack(rx[..4]);
      assert rx[..][..4] == rx[..4];
      cipherState := Initialise(Word48(key), Word32(rx[..4]), 0);
      SendChallenge(tx);
      txlen, go := 64, true;
      bCrypto := true;
      bAuthenticating := true;
    }

    /** 32 zero bits and 32 encrypted one bits. */
    method SendChallenge(tx: array<bv8>)
      requires tx.Length == HITAG_FRAME_LEN
      modifies this`cipherState, tx
      ensures cipherState == Advance(old(cipherState), 32)
      ensures FrameOf(tx[..], 64) == Level(false, 32) + Crypt(old(cipherState), Level(true, 32))
    {
      hide Unpack, Advance, KeyBits, Crypt, Level;
      var secret := new bv8[4](_ => 0xFF);
      assert secret[..] == [0xFF, 0xFF, 0xFF, 0xFF];
      FourOnes();
      ghost var x := cipherState;
      assert FrameOf(secret[..], 32) == Unpack(secret[..]);
      cipherState := CryptFrame(cipherState, secret, 32);
      assert FrameOf(secret[..], 32) == Unpack(secret[..]) == Crypt(x, Level(true, 32));
      tx[0], tx[1], tx[2], tx[3] := 0, 0, 0, 0;
      tx[4], tx[5], tx[6], tx[7] := secret[0], secret[1], secret[2], secret[3];
      assert tx[..][..8] == [0, 0, 0, 0] + secret[..];
      FirstOctets(tx[..], 8);
      UnpackAppend([0, 0, 0, 0], secret[..]);
      FourZeros();
    }

    method AskNextBlock(tx: array<bv8>) returns (txlen: nat, go: bool)
      requires tx.Length == HITAG_FRAME_LEN
      modifies this`bSuccessful, tx
      ensures txlen <= 8 * tx.Length && Turn(View(), FrameOf(tx[..], txlen), go) == NextBlock(old(View()))
    {
      hide Unpack, Command, CommandOctet0, CommandOctet1;
      txlen, go := 0, true;
      if blocknr > 7 {
        bSuccessful := true;
        go := false;
      } else {
        tx[0] := CommandOctet0(0xC0, blocknr as bv8);
        tx[1] := CommandOctet1(blocknr as bv8);
        CommandCoded(tx[..], Read, 0xC0, blocknr);
        txlen := 10;
      }
    }

    method HandleTagData(rx: array<bv8>, tx: array<bv8>, write: bool) returns (txlen: nat, go: bool)
      requires |writedata| == 4 && blocknr <= 8 && (write ==> blocknr < 8)
      requires rx != tx && rx.Length == tx.Length == HITAG_FRAME_LEN && ZeroPadded(rx[..], 32)
      modifies this, tx
      ensures txlen <= 8 * tx.Length
      ensures Turn(View(), FrameOf(tx[..], txlen), go) == GotData(old(View()), FrameOf(rx[..], 32), write)
    {
      hide Unpack, Pack, WritePage, NextBlock, ZeroPadded;
      if bAuthenticating {
        bAuthenticating := false;
        if write {
          txlen, go := HandleWritePage(rx, 32, tx);
          return;
        }
      } else {
        FirstOctets(rx[..], 4);
        PackUnpack(rx[..4]);
        assert rx[..][..4] == rx[..4];
        sectors := SetSector(sectors, blocknr, rx[..4]);
        blocknr := blocknr + 1;
      }
      txlen, go := AskNextBlock(tx);
    }

    /** One answer of the tag in crypto mode; the next frame is left in `tx`, and
        the result tells whether the session goes on. */
    method HandleAnswer(rx: array<bv8>, rxlen: nat, tx: array<bv8>, write: bool) returns (txlen: nat, go: bool)
      requires Valid(write) && rx != tx && rx.Length == tx.Length == HITAG_FRAME_LEN
      requires rxlen <= 8 * rx.Length && ZeroPadded(rx[..], rxlen)
      modifies this, rx, tx
      ensures txlen <= 8 * tx.Length
      ensures Turn(View(), FrameOf(tx[..], txlen), go) == ReaderStep(old(View()), old(FrameOf(rx[..], rxlen)), write)
      ensures go ==> Valid(write)
    {
      hide Advance, KeyBits, Unpack, Crypt, WritePage, NoAnswer, GotData, GotUid, ZeroPadded;
      ReaderStaysValid(View(), FrameOf(rx[..], rxlen), write);
      if bCrypto {
        cipherState := CryptFrame(cipherState, rx, rxlen);
      }
      txlen, go := HandlePlain(rx, rxlen, tx, write);
      if go && bCrypto && !bAuthenticating {
        cipherState := CryptFrame(cipherState, tx, txlen);
      }
    }

    /** What is done with an answer once it is decrypted. */
    method HandlePlain(rx: array<bv8>, rxlen: nat, tx: array<bv8>, write: bool) returns (txlen: nat, go: bool)
      requires Valid(write) && rx != tx && rx.Length == tx.Length == HITAG_FRAME_LEN
      requires rxlen <= 8 * rx.Length && ZeroPadded(rx[..], rxlen)
      modifies this, tx
      ensures txlen <= 8 * tx.Length
      ensures Turn(View(), FrameOf(tx[..], txlen), go) == ReaderPlain(old(View()), FrameOf(rx[..], rxlen), write)
    {
      hide Advance, KeyBits, Unpack, Crypt, WritePage, NoAnswer, GotData, GotUid, ZeroPadded;
      if bCrypto && !bAuthenticating && write {
        txlen, go := HandleWritePage(rx, rxlen, tx);
      } else if rxlen == 0 {
        txlen, go := HandleNoAnswer(tx);
      } else if rxlen == 32 {
        if !bCrypto {
          txlen, go := HandleUid(rx, tx);
        } else {
          txlen, go := HandleTagData(rx, tx, write);
        }
      } else {
        txlen, go := 0, false;
      }
    }
  }

  lemma UidRequestCoded(buf: seq<bv8>)
    requires |buf| >= 1 && buf[0] == 0xC0
    ensures FrameOf(buf, 5) == UidRequest()
  {
    assert Unpack(buf)[..8] == MsbFirst(0xC0);
    UidOctet(0xC0);
    assert FrameOf(buf, 5) == MsbFirst(0xC0)[..5];
  }

  lemma FourOnes()
    ensures Unpack([0xFF, 0xFF, 0xFF, 0xFF]) == Level(true, 32)
  {
    hide MsbFirst;
    AllOnes();
    UnpackAppend([0xFF, 0xFF], [0xFF, 0xFF]);
    UnpackAppend([0xFF], [0xFF]);
    assert Unpack([0xFF]) == MsbFirst(0xFF) + Unpack([]);
    LevelJoin(true, 8, 8);
    LevelJoin(true, 16, 16);
  }

  // ---------------------------------------------------------------------
  // A session over a lossless channel
  // ---------------------------------------------------------------------

  /** Carry a frame into a cleared buffer, bit by bit. */
  method Carry(tx: array<bv8>, n: nat, rx: array<bv8>)
    requires rx != tx && rx.Length == tx.Length == HITAG_FRAME_LEN && n <= 8 * tx.Length
    modifies rx
    ensures FrameOf(rx[..], n) == FrameOf(tx[..], n) && ZeroPadded(rx[..], n)
  {
    hide MsbFirst, OrBit, Unpack;
    for k := 0 to rx.Length
      invariant forall j | 0 <= j < k :: rx[j] == 0
    {
      rx[k] := 0;
    }
    Cleared(rx[..]);
    for i := 0 to n
      invariant forall j | 0 <= j < 8 * rx.Length :: Unpack(rx[..])[j] == (j < i && Unpack(tx[..])[j])
    {
      ghost var before := rx[..];
      if BitOf(tx[i / 8], i % 8) {
        rx[i / 8] := OrBit(rx[i / 8], i % 8);
        assert rx[..] == before[i / 8 := OrBit(before[i / 8], i % 8)];
        BitSet(before, i / 8, i % 8);
      }
      BitOfUnpack(tx[..], i);
    }
  }

  predicate BitOf(b: bv8, k: nat)
    requires k < 8
  {
    MsbFirst(b)[k]
  }

  lemma BitOfUnpack(buf: seq<bv8>, i: nat)
    requires i < 8 * |buf|
    ensures Unpack(buf)[i] == BitOf(buf[i / 8], i % 8)
  {
    hide MsbFirst, Unpack;
    UnpackAt(buf, i / 8, i % 8);
    assert i == 8 * (i / 8) + i % 8;
  }

  lemma Cleared(buf: seq<bv8>)
    requires forall j | 0 <= j < |buf| :: buf[j] == 0
    ensures forall j | 0 <= j < 8 * |buf| :: !Unpack(buf)[j]
  {
    hide MsbFirst;
    ZeroOctet();
    forall j | 0 <= j < 8 * |buf| ensures !Unpack(buf)[j] {
      UnpackAt(buf, j / 8, j % 8);
    }
  }

  lemma BitSet(buf: seq<bv8>, p: nat, k: nat)
    requires p < |buf| && k < 8
    ensures Unpack(buf[p := OrBit(buf[p], k)]) == Unpack(buf)[8 * p + k := true]
  {
    hide MsbFirst, OrBit;
    OrBitSets(buf[p], k);
    var buf' := buf[p := OrBit(buf[p], k)];
    forall j | 0 <= j < 8 * |buf| ensures Unpack(buf')[j] == (j == 8 * p + k || Unpack(buf)[j]) {
      UnpackAt(buf, j / 8, j % 8);
      UnpackAt(buf', j / 8, j % 8);
    }
  }

  /** The reader takes an answer and sends, the tag answers. */
  method OneExchange(reader: CryptoReader, tag: TagEmulator, rx: array<bv8>, rxlen: nat, tx: array<bv8>, write: bool)
    returns (rxlen': nat, over: bool)
    requires reader.Valid(write) && tag.Valid() && rx != tx && rx.Length == tx.Length == HITAG_FRAME_LEN
    requires rxlen <= 8 * rx.Length && ZeroPadded(rx[..], rxlen)
    modifies reader, tag, rx, tx
    ensures tag.Valid() && rxlen' <= 8 * rx.Length
    ensures !over ==> reader.Valid(write) && ZeroPadded(rx[..], rxlen')
    ensures Play(reader.View(), tag.View(), FrameOf(rx[..], rxlen'), over)
         == Exchange(Play(old(reader.View()), old(tag.View()), old(FrameOf(rx[..], rxlen)), false), write)
  {
    hide ReaderStep, TagStep, Unpack, ZeroPadded, ValidReader;
    var txlen, go := reader.HandleAnswer(rx, rxlen, tx, write);
    over := !go;
    rxlen' := 0;
    if go {
      Carry(tx, txlen, rx);
      rxlen' := tag.HandleReaderCommand(rx, txlen, tx);
      Carry(tx, rxlen', rx);
    }
  }

  /** At most `n` turns of a session: the loops of the reader and the writer,
      with the tag emulator at the other end. */
  method RunSession(reader: CryptoReader, tag: TagEmulator, write: bool, n: nat) returns (over: bool)
    requires reader.Valid(write) && tag.Valid()
    modifies reader, tag
    ensures var q := Exchanges(Play(old(reader.View()), old(tag.View()), [], false), write, n);
            reader.View() == q.r && tag.View() == q.t && over == q.over
  {
    hide Exchange, Exchanges, Unpack, ZeroPadded, ValidReader;
    var rx, tx := new bv8[HITAG_FRAME_LEN](_ => 0), new bv8[HITAG_FRAME_LEN](_ => 0);
    var rxlen: nat, i: nat := 0, 0;
    over := false;
    ghost var p := Play(reader.View(), tag.View(), [], false);
    NothingReceived(rx[..]);
    while i < n && !over
      invariant i <= n && tag.Valid() && rxlen <= 8 * rx.Length
      invariant !over ==> reader.Valid(write) && ZeroPadded(rx[..], rxlen)
      invariant p == Play(reader.View(), tag.View(), FrameOf(rx[..], rxlen), over)
      invariant Exchanges(Play(old(reader.View()), old(tag.View()), [], false), write, n) == Exchanges(p, write, n - i)
    {
      After(p, write, n - i);
      rxlen, over := OneExchange(reader, tag, rx, rxlen, tx, write);
      p := Exchange(p, write);
      i := i + 1;
    }
    SessionStops(p, write, n - i);
  }

  lemma SessionStops(p: Play, write: bool, n: nat)
    requires ValidPlay(p, write) && (p.over || n == 0)
    ensures Exchanges(p, write, n) == p
  {
  }

  lemma NothingReceived(buf: seq<bv8>)
    requires forall j | 0 <= j < |buf| :: buf[j] == 0
    ensures ZeroPadded(buf, 0) && FrameOf(buf, 0) == []
  {
    Cleared(buf);
  }

  /** Read a whole tag whose key is known. */
  method ReadTag(reader: CryptoReader, tag: TagEmulator)
    requires reader.Valid(false) && tag.Valid()
    requires Fresh(reader.View(), tag.View()) && reader.blocknr == 0
    modifies reader, tag
    ensures reader.bSuccessful && reader.cipherState == tag.cs
    ensures reader.sectors[..8] == tag.sectors[..8] && tag.sectors == old(tag.sectors)
  {
    hide Exchanges, Fresh;
    ReadSession(reader.View(), tag.View());
    var over := RunSession(reader, tag, false, 11);
  }

  /** Write one page of a tag whose key is known. */
  method WriteTag(reader: CryptoReader, tag: TagEmulator)
    requires reader.Valid(true) && tag.Valid()
    requires Fresh(reader.View(), tag.View())
    modifies reader, tag
    ensures reader.bSuccessful && reader.cipherState == tag.cs
    ensures tag.sectors == SetSector(old(tag.sectors), old(reader.blocknr), old(reader.writedata))
  {
    hide Exchanges, Fresh;
    WriteSession(reader.View(), tag.View());
    var over := RunSession(reader, tag, true, 5);
  }
}
