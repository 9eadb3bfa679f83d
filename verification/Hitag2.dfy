/** Hitag2 reader and tag emulator of armsrc/hitag2.c, as two devices that
    exchange bit frames and stay in step only by consuming the same number of
    key stream bits. */
module Hitag2 {
  import opened Bits
  import opened Hitag2Cipher

  type Frame = seq<bool>

  function Not(bits: seq<bool>): (r: seq<bool>)
    ensures |r| == |bits|
  {
    seq(|bits|, k requires 0 <= k < |bits| => !bits[k])
  }

  function Xor(a: seq<bool>, b: seq<bool>): (r: seq<bool>)
    requires |a| == |b|
    ensures |r| == |a|
  {
    seq(|a|, k requires 0 <= k < |a| => a[k] != b[k])
  }

  lemma XorTwice(a: seq<bool>, b: seq<bool>)
    requires |a| == |b|
    ensures Xor(Xor(a, b), b) == a
  {
  }

  /** Encrypt or decrypt a whole frame. */
  function Crypt(x: bv64, f: Frame): (r: Frame)
    ensures |r| == |f|
  {
    Xor(f, KeyBits(x, |f|))
  }

  /** What one device encrypts, the other one decrypts from the same state. */
  lemma CryptTwice(x: bv64, f: Frame)
    ensures Crypt(x, Crypt(x, f)) == f
  {
    XorTwice(f, KeyBits(x, |f|));
  }

  // ---------------------------------------------------------------------
  // Commands: a page number and, against errors, its complement
  // ---------------------------------------------------------------------

  /** The 5-bit request for the serial number. */
  function UidRequest(): (f: Frame)
    ensures |f| == 5
  {
    [true, true, false, false, false]
  }

  function Page3(n: nat): (bits: seq<bool>)
    requires n < 8
    ensures |bits| == 3
  {
    [n >= 4, n % 4 >= 2, n % 2 == 1]
  }

  function Number3(bits: seq<bool>): (n: nat)
    requires |bits| == 3
    ensures n < 8
  {
    (if bits[0] then 4 else 0) + (if bits[1] then 2 else 0) + (if bits[2] then 1 else 0)
  }

  lemma Number3OfPage3(n: nat)
    requires n < 8
    ensures Number3(Page3(n)) == n
  {
  }

  /** Which of the page commands. */
  datatype Kind = Read | InvertedRead | Write | Unknown

  function KindBits(k: Kind): (bits: seq<bool>)
    ensures |bits| == 4
  {
    match k
    case Read => [true, true, false, false]
    case InvertedRead => [false, true, true, false]
    case Write => [true, false, false, true]
    case Unknown => [false, false, false, false]
  }

  function KindOf(f: Frame): Kind
    requires |f| == 10
  {
    var bits := [f[0], f[1], f[5], f[6]];
    if bits == KindBits(Read) then Read
    else if bits == KindBits(InvertedRead) then InvertedRead
    else if bits == KindBits(Write) then Write
    else Unknown
  }

  /** A page command on the air. */
  function Command(k: Kind, n: nat): (f: Frame)
    requires n < 8
    ensures |f| == 10
  {
    var c := KindBits(k);
    [c[0], c[1]] + Page3(n) + [c[2], c[3]] + Not(Page3(n))
  }

  predicate Complemented(f: Frame)
    requires |f| == 10
  {
    f[7..10] == Not(f[2..5])
  }

  /** Every command is understood as what it is. */
  lemma CommandUnderstood(k: Kind, n: nat)
    requires n < 8
    ensures var f := Command(k, n);
            KindOf(f) == k && Complemented(f) && Number3(f[2..5]) == n
  {
    var f := Command(k, n);
    assert f[2..5] == Page3(n);
    assert f[7..10] == Not(Page3(n));
    Number3OfPage3(n);
  }

  // ---------------------------------------------------------------------
  // The tag emulator
  // ---------------------------------------------------------------------

  type Sectors = s: seq<seq<bv8>> | |s| == 12 && (forall k | 0 <= k < 12 :: |s[k]| == 4)
    witness seq(12, _ => [0, 0, 0, 0])

  datatype TagState = Reset | Activating | Activated | Writing

  datatype Tag = Tag(sectors: Sectors, state: TagState, active: nat, crypto: bool, cs: bv64)

  predicate ValidTag(t: Tag) { t.active < 8 }

  /** The key of a tag: two octets of sector 2 and all of sector 1. */
  function KeyOctets(s: Sectors): (k: seq<bv8>)
    ensures |k| == 6
  {
    [s[2][2], s[2][3]] + s[1]
  }

  /** Answer with a frame, encrypted once encryption is on. */
  function Answer(t: Tag, plain: Frame): (Tag, Frame) {
    if t.crypto then (t.(cs := Advance(t.cs, |plain|)), Crypt(t.cs, plain)) else (t, plain)
  }

  function TagCommand(t: Tag, f: Frame): (Tag, Frame)
    requires |f| == 10
  {
    var n := Number3(f[2..5]);
    if !Complemented(f) then (t, [])
    else match KindOf(f)
      case Read => Answer(t, Unpack(t.sectors[n]))
      case InvertedRead => Answer(t, Not(Unpack(t.sectors[n])))
      case Write => Answer(t.(active := n, state := Writing), f)
      case Unknown => (t, [])
  }

  /** Sector contents to be written, or the reader's password. */
  function TagData(t: Tag, f: Frame): (Tag, Frame)
    requires |f| == 32 && ValidTag(t)
  {
    if t.state == Writing then (t.(sectors := t.sectors[t.active := Pack(f)], state := Reset), [])
    else if f == Unpack(t.sectors[1]) then Answer(t, Unpack(t.sectors[3]))
    else (t, [])
  }

  /** Initial vector and authenticator. */
  function TagAuthenticate(t: Tag, f: Frame): (Tag, Frame)
    requires |f| == 64
  {
    var x := Init(Word48(KeyOctets(t.sectors)), Word32(t.sectors[0]), Word32(Pack(f[..32])));
    var t1 := t.(cs := Advance(x, 32));
    if f[32..] == Not(KeyBits(x, 32)) then Answer(t1.(crypto := true), Unpack(t.sectors[3])) else (t1, [])
  }

  /** One frame from the reader: the tag afterwards and its answer. */
  function TagStep(t: Tag, rx: Frame): (Tag, Frame)
    requires ValidTag(t)
  {
    var f := if t.crypto then Crypt(t.cs, rx) else rx;
    var t0 := if t.crypto then t.(cs := Advance(t.cs, |rx|)) else t;
    if |rx| == 5 then
      if rx == UidRequest() then (t0.(crypto := false), Unpack(t0.sectors[0])) else (t0, [])
    else if |rx| == 10 then TagCommand(t0, f)
    else if |rx| == 32 then TagData(t0, f)
    else if |rx| == 64 then TagAuthenticate(t0, f)
    else (t0, [])
  }

  // ---------------------------------------------------------------------
  // The reader
  // ---------------------------------------------------------------------

  datatype WriteState = Start | PageNumWritten | Prog

  datatype Reader = Reader(sectors: Sectors, key: seq<bv8>, writedata: seq<bv8>, blocknr: nat,
                           bCrypto: bool, bAuthenticating: bool, bSuccessful: bool,
                           writestate: WriteState, cs: bv64)

  /** What `hitag2_crypto` leaves: the reader, the frame to send and whether the
      session goes on. */
  datatype Turn = Turn(r: Reader, tx: Frame, go: bool)

  predicate ValidReader(r: Reader, write: bool) {
    |r.key| == 6 && |r.writedata| == 4 && r.blocknr <= (if write then 7 else 8)
    && (r.bCrypto && !r.bAuthenticating ==> r.blocknr <= 7)
  }

  function WritePage(r: Reader, f: Frame): Turn
    requires r.blocknr < 8
  {
    match r.writestate
    case Start => Turn(r.(writestate := PageNumWritten), Command(Write, r.blocknr), true)
    case PageNumWritten =>
      if f == Command(Write, r.blocknr) then Turn(r.(writestate := Prog), Unpack(r.writedata), true)
      else Turn(r.(bSuccessful := false), [], false)
    case Prog => Turn(r.(bSuccessful := |f| == 0), [], false)
  }

  /** No answer: ask for the serial number, give up, or skip a block. */
  function NoAnswer(r: Reader): Turn
    requires |r.key| == 6 && r.blocknr <= 8
  {
    if !r.bCrypto then Turn(r, UidRequest(), true)
    else if r.bAuthenticating then Turn(r, [], false)
    else
      var block: seq<bv8> := if r.blocknr == 1 then r.key[2..6]
                             else if r.blocknr == 2 then [0, 0, r.key[0], r.key[1]]
                             else [0, 0, 0, 0];
      Turn(r.(sectors := r.sectors[r.blocknr := block], blocknr := r.blocknr + 1, bCrypto := false), [], true)
  }

  /** The serial number: start the cipher with a zero vector and authenticate. */
  function GotUid(r: Reader, f: Frame): Turn
    requires |r.key| == 6 && |f| == 32
  {
    var x := Init(Word48(r.key), Word32(Pack(f)), 0);
    Turn(r.(cs := Advance(x, 32), bCrypto := true, bAuthenticating := true),
         Level(false, 32) + Crypt(x, Level(true, 32)), true)
  }

  /** Ask for the next block, or stop after the last. */
  function NextBlock(r: Reader): Turn {
    if r.blocknr > 7 then Turn(r.(bSuccessful := true), [], false)
    else Turn(r, Command(Read, r.blocknr), true)
  }

  /** Configuration or a block. */
  function GotData(r: Reader, f: Frame, write: bool): Turn
    requires |f| == 32 && r.blocknr <= 8 && (write ==> r.blocknr < 8)
  {
    if r.bAuthenticating then
      var r1 := r.(bAuthenticating := false);
      if write then WritePage(r1, f) else NextBlock(r1)
    else NextBlock(r.(sectors := r.sectors[r.blocknr := Pack(f)], blocknr := r.blocknr + 1))
  }

  function ReaderPlain(r: Reader, f: Frame, write: bool): Turn
    requires ValidReader(r, write)
  {
    if r.bCrypto && !r.bAuthenticating && write then WritePage(r, f)
    else if |f| == 0 then NoAnswer(r)
    else if |f| == 32 then if r.bCrypto then GotData(r, f, write) else GotUid(r, f)
    else Turn(r, [], false)
  }

  /** One answer of the tag: decrypt, act, encrypt. */
  function ReaderStep(r: Reader, rx: Frame, write: bool): Turn
    requires ValidReader(r, write)
  {
    var f := if r.bCrypto then Crypt(r.cs, rx) else rx;
    var r0 := if r.bCrypto then r.(cs := Advance(r.cs, |rx|)) else r;
    var turn := ReaderPlain(r0, f, write);
    if turn.go && turn.r.bCrypto && !turn.r.bAuthenticating then
      turn.(r := turn.r.(cs := Advance(turn.r.cs, |turn.tx|)), tx := Crypt(turn.r.cs, turn.tx))
    else turn
  }

  // ---------------------------------------------------------------------
  // Sessions
  // ---------------------------------------------------------------------

  lemma TagStaysValid(t: Tag, rx: Frame)
    requires ValidTag(t)
    ensures ValidTag(TagStep(t, rx).0)
  {
    hide Advance, KeyBits, Unpack, Pack, Crypt, Init, Word32, Word48, KindOf, Complemented, Not;
  }

  lemma PlainStaysValid(r: Reader, f: Frame, write: bool)
    requires ValidReader(r, write)
    ensures var turn := ReaderPlain(r, f, write); turn.go ==> ValidReader(turn.r, write)
  {
    hide Advance, KeyBits, Unpack, Pack, Crypt, Init, Word32, Word48, Command, Level;
  }

  lemma ReaderStaysValid(r: Reader, rx: Frame, write: bool)
    requires ValidReader(r, write)
    ensures var turn := ReaderStep(r, rx, write); turn.go ==> ValidReader(turn.r, write)
  {
    hide Advance, KeyBits, Crypt, ReaderPlain;
    var f := if r.bCrypto then Crypt(r.cs, rx) else rx;
    PlainStaysValid(if r.bCrypto then r.(cs := Advance(r.cs, |rx|)) else r, f, write);
  }

  /** Reader and tag, and the tag's last answer still on the air. */
  datatype Play = Play(r: Reader, t: Tag, rx: Frame, over: bool)

  predicate ValidPlay(p: Play, write: bool) { ValidTag(p.t) && (p.over || ValidReader(p.r, write)) }

  /** The reader takes the answer and sends, the tag answers. */
  function Exchange(p: Play, write: bool): (q: Play)
    requires ValidPlay(p, write) && !p.over
    ensures ValidPlay(q, write)
  {
    var turn := ReaderStep(p.r, p.rx, write);
    ReaderStaysValid(p.r, p.rx, write);
    TagStaysValid(p.t, turn.tx);
    if !turn.go then Play(turn.r, p.t, [], true)
    else
      var (t, rx) := TagStep(p.t, turn.tx);
      Play(turn.r, t, rx, false)
  }

  function Exchanges(p: Play, write: bool, n: nat): (q: Play)
    requires ValidPlay(p, write)
    ensures ValidPlay(q, write)
    decreases n
  {
    if n == 0 || p.over then p else Exchanges(Exchange(p, write), write, n - 1)
  }

  /** Both ends encrypt, and their ciphers agree once the pending answer is taken. */
  predicate InStep(p: Play) {
    p.r.bCrypto && p.t.crypto && Advance(p.r.cs, |p.rx|) == p.t.cs
  }

  /** A reader about to start, with the tag's key. */
  predicate Fresh(r: Reader, t: Tag) {
    && !r.bCrypto && !r.bAuthenticating && !r.bSuccessful && r.writestate == Start
    && r.key == [t.sectors[2][2], t.sectors[2][3]] + t.sectors[1] && |r.writedata| == 4
  }

  lemma AdvanceNothing(x: bv64)
    ensures Advance(x, 0) == x && forall f: Frame | f == [] :: Crypt(x, f) == []
  {
  }

  /** The request for the serial number always works, whatever went before. */
  lemma AskUid(r: Reader, t: Tag, write: bool)
    requires Fresh(r, t) && ValidReader(r, write) && ValidTag(t)
    ensures var p := Exchange(Play(r, t, [], false), write);
            p.r == r && p.rx == Unpack(t.sectors[0]) && !p.over
            && p.t == t.(crypto := false, cs := p.t.cs)
  {
    hide Advance, KeyBits, Unpack;
  }

  /** With the same key both sides arrive at the same cipher state. */
  lemma Authenticate(p: Play, write: bool)
    requires ValidPlay(p, write) && !p.over && Fresh(p.r, p.t) && !p.t.crypto
    requires p.rx == Unpack(p.t.sectors[0])
    ensures var q := Exchange(p, write);
            && !q.over && InStep(q) && q.r.bAuthenticating
            && q.r == p.r.(cs := q.r.cs, bCrypto := true, bAuthenticating := true)
            && q.t == p.t.(cs := q.t.cs, crypto := true)
            && q.rx == Crypt(q.r.cs, Unpack(p.t.sectors[3]))
  {
    hide Advance, KeyBits, Unpack, Init, Word32, Word48, Pack;
    var key := Word48(p.r.key);
    PackUnpack(p.t.sectors[0]);
    ZeroFrame();
    ZeroVector();
    var x := Init(key, Word32(p.t.sectors[0]), 0);
    var ones := Level(true, 32);
    var tx := Level(false, 32) + Crypt(x, ones);
    assert ReaderStep(p.r, p.rx, write) == GotUid(p.r, p.rx);
    assert tx[..32] == Level(false, 32) && tx[32..] == Crypt(x, ones);
    assert Crypt(x, ones) == Not(KeyBits(x, 32));
    assert TagStep(p.t, tx) == TagAuthenticate(p.t, tx);
  }

  lemma FourZeros()
    ensures Unpack([0, 0, 0, 0]) == Level(false, 32)
  {
    hide MsbFirst;
    ZeroOctet();
    UnpackAppend([0, 0], [0, 0]);
    UnpackAppend([0], [0]);
    UnpackOne(0);
    LevelJoin(false, 8, 8);
    LevelJoin(false, 16, 16);
  }

  lemma ZeroFrame()
    ensures Pack(Level(false, 32)) == [0, 0, 0, 0]
  {
    hide Unpack, Pack;
    FourZeros();
    PackUnpack([0, 0, 0, 0]);
  }

  /** An encrypted page command reaches the tag as it was meant. */
  lemma Served(t: Tag, k: Kind, n: nat)
    requires ValidTag(t) && t.crypto && n < 8
    ensures TagStep(t, Crypt(t.cs, Command(k, n))) == TagCommand(t.(cs := Advance(t.cs, 10)), Command(k, n))
  {
    hide Advance, KeyBits, Command, TagCommand, Crypt;
    CryptTwice(t.cs, Command(k, n));
  }

  /** Reading: the answer on the air is block `k`, and those before it are in. */
  predicate Reading(p: Play, k: nat)
    requires k < 8
  {
    && !p.over && ValidPlay(p, false) && InStep(p) && !p.r.bAuthenticating && p.r.blocknr == k
    && p.r.sectors[..k] == p.t.sectors[..k]
    && p.rx == Crypt(p.r.cs, Unpack(p.t.sectors[k]))
  }

  /** The tag serves the block that the reader asks for. */
  lemma AskBlock(r: Reader, t: Tag, n: nat)
    requires ValidTag(t) && t.crypto && r.cs == t.cs && n < 8
    ensures var (t', rx) := TagStep(t, Crypt(r.cs, Command(Read, n)));
            && rx == Crypt(Advance(r.cs, 10), Unpack(t.sectors[n]))
            && t' == t.(cs := Advance(Advance(r.cs, 10), 32))
  {
    hide Advance, KeyBits, Unpack, Command, Crypt, KindOf, Number3, Complemented;
    Served(t, Read, n);
    CommandUnderstood(Read, n);
  }

  lemma FirstBlock(p: Play)
    requires ValidPlay(p, false) && !p.over && InStep(p) && p.r.bAuthenticating && p.r.blocknr == 0
    requires |p.rx| == 32
    ensures var q := Exchange(p, false);
            Reading(q, 0) && q.t.sectors == p.t.sectors && q.r.sectors == p.r.sectors
  {
    hide Advance, KeyBits, Unpack, Command, Crypt, TagStep;
    var r1 := p.r.(cs := p.t.cs, bAuthenticating := false);
    AskBlock(r1, p.t, 0);
  }

  /** Each further exchange brings in one block, the last one ends the session. */
  lemma NextBlockRead(p: Play, k: nat)
    requires k < 8 && Reading(p, k)
    ensures var q := Exchange(p, false);
            && q.t.sectors == p.t.sectors && q.r.sectors[..k + 1] == p.t.sectors[..k + 1]
            && if k < 7 then Reading(q, k + 1) else q.over && q.r.bSuccessful && q.r.cs == q.t.cs
  {
    hide Advance, KeyBits, Unpack, Command, Crypt, TagStep, Pack;
    CryptTwice(p.r.cs, Unpack(p.t.sectors[k]));
    PackUnpack(p.t.sectors[k]);
    var sectors: Sectors := p.r.sectors[k := p.t.sectors[k]];
    assert sectors[..k + 1] == sectors[..k] + [sectors[k]];
    var r1 := p.r.(cs := p.t.cs, sectors := sectors, blocknr := k + 1);
    if k < 7 {
      AskBlock(r1, p.t, k + 1);
    }
  }

  lemma {:induction false} ReadOn(p: Play, k: nat)
    requires k < 8 && Reading(p, k)
    ensures var q := Exchanges(p, false, 8 - k);
            && q.over && q.r.bSuccessful && q.r.cs == q.t.cs && q.t.sectors == p.t.sectors
            && q.r.sectors[..8] == q.t.sectors[..8]
    ensures forall n: nat | n < 8 - k :: InStep(Exchanges(p, false, n))
    decreases 8 - k
  {
    hide Exchange, Exchanges, InStep, Reading;
    ReadingOn(p, k);
    NextBlockRead(p, k);
    var q := Exchange(p, false);
    if k < 7 {
      ReadOn(q, k + 1);
    } else {
      NoExchange(q, false);
    }
    After(p, false, 8 - k);
    forall n: nat | n < 8 - k ensures InStep(Exchanges(p, false, n)) {
      if n == 0 { NoExchange(p, false); } else { After(p, false, n); }
    }
  }

  lemma ReadingOn(p: Play, k: nat)
    requires k < 8 && Reading(p, k)
    ensures !p.over && ValidPlay(p, false) && InStep(p)
  {
  }

  lemma After(p: Play, write: bool, n: nat)
    requires ValidPlay(p, write) && !p.over && n > 0
    ensures Exchanges(p, write, n) == Exchanges(Exchange(p, write), write, n - 1)
  {
    hide Exchange;
  }

  /** Reading a whole tag: with the right key the session always ends, after
      eleven turns of the reader, successfully and with the blocks 0 to 7 of the
      tag; the ciphers agree after every exchange from the authentication on. */
  lemma ReadSession(r: Reader, t: Tag)
    requires Fresh(r, t) && r.blocknr == 0 && ValidTag(t)
    ensures var start := Play(r, t, [], false);
            && (forall n: nat | 2 <= n < 11 :: InStep(Exchanges(start, false, n)))
            && var q := Exchanges(start, false, 11);
               && q.over && q.r.bSuccessful && q.r.cs == q.t.cs
               && q.r.sectors[..8] == t.sectors[..8] && q.t.sectors == t.sectors
  {
    hide Exchange, Exchanges, InStep, Fresh, Unpack, Crypt, KeyBits, Reading;
    FreshReader(r, t);
    var start := Play(r, t, [], false);
    AskUid(r, t, false);
    var p1 := Exchange(start, false);
    FreshSectors(r, t, p1.t);
    Authenticate(p1, false);
    var p2 := Exchange(p1, false);
    FirstBlock(p2);
    var p3 := Exchange(p2, false);
    ReadOn(p3, 0);
    forall n: nat | 3 <= n ensures Exchanges(start, false, n) == Exchanges(p3, false, n - 3) {
      After(start, false, n);
      After(p1, false, n - 1);
      After(p2, false, n - 2);
    }
    assert Exchanges(start, false, 2) == p2 by {
      After(start, false, 2);
      After(p1, false, 1);
      NoExchange(p2, false);
    }
  }

  lemma NoExchange(p: Play, write: bool)
    requires ValidPlay(p, write)
    ensures Exchanges(p, write, 0) == p
  {
  }

  lemma FreshReader(r: Reader, t: Tag)
    requires Fresh(r, t)
    ensures |r.key| == 6 && |r.writedata| == 4 && !r.bCrypto && !r.bAuthenticating
  {
  }

  lemma FreshSectors(r: Reader, t: Tag, t': Tag)
    requires Fresh(r, t) && t'.sectors == t.sectors
    ensures Fresh(r, t')
  {
  }

  // ---------------------------------------------------------------------
  // Writing a page
  // ---------------------------------------------------------------------

  /** The reader's page command comes back as the tag's acknowledgement. */
  lemma AskWrite(p: Play)
    requires ValidPlay(p, true) && !p.over && InStep(p) && p.r.bAuthenticating && |p.rx| == 32
    requires p.r.writestate == Start
    ensures var q := Exchange(p, true);
            && !q.over && InStep(q) && q.rx == Crypt(q.r.cs, Command(Write, p.r.blocknr))
            && q.r == p.r.(cs := q.r.cs, bAuthenticating := false, writestate := PageNumWritten)
            && q.t == p.t.(cs := q.t.cs, active := p.r.blocknr, state := Writing)
  {
    hide Advance, KeyBits, Unpack, Command, Crypt, TagStep, KindOf, Number3, Complemented;
    Served(p.t, Write, p.r.blocknr);
    CommandUnderstood(Write, p.r.blocknr);
  }

  function SetSector(s: Sectors, n: nat, data: seq<bv8>): Sectors
    requires n < 12 && |data| == 4
  {
    s[n := data]
  }

  /** The data reach the sector that was named, and no answer follows. */
  lemma SendData(p: Play)
    requires p.t.active < 8 && |p.r.key| == 6 && |p.r.writedata| == 4 && p.r.blocknr < 8
    requires !p.over && InStep(p) && !p.r.bAuthenticating
    requires p.r.writestate == PageNumWritten && p.rx == Crypt(p.r.cs, Command(Write, p.r.blocknr))
    requires p.t.state == Writing
    ensures var c := Advance(p.t.cs, 32);
            Exchange(p, true) == Play(p.r.(cs := c, writestate := Prog),
                                      p.t.(cs := c, state := Reset, sectors := SetSector(p.t.sectors, p.t.active, p.r.writedata)),
                                      [], false)
  {
    hide Advance, KeyBits, Unpack, Command, Crypt, Pack;
    CryptTwice(p.r.cs, Command(Write, p.r.blocknr));
    CryptTwice(p.t.cs, Unpack(p.r.writedata));
    PackUnpack(p.r.writedata);
  }

  lemma Programmed(p: Play)
    requires ValidPlay(p, true) && !p.over && InStep(p) && !p.r.bAuthenticating
    requires p.r.writestate == Prog && p.rx == []
    ensures var q := Exchange(p, true);
            q.over && q.r.bSuccessful && q.t == p.t && q.r.cs == q.t.cs
  {
    hide Advance, KeyBits, Unpack, Command, Crypt;
  }

  /** Writing any page with any data: the session ends successfully, exactly
      that sector of the tag has changed, and the ciphers agree throughout. */
  lemma WriteSession(r: Reader, t: Tag)
    requires Fresh(r, t) && r.blocknr < 8 && ValidTag(t)
    ensures var start := Play(r, t, [], false);
            && (forall n: nat | 2 <= n < 5 :: InStep(Exchanges(start, true, n)))
            && var q := Exchanges(start, true, 5);
               && q.over && q.r.bSuccessful && q.r.cs == q.t.cs
               && q.t.sectors == SetSector(t.sectors, r.blocknr, r.writedata)
  {
    hide Exchange, Exchanges, Unpack, Crypt, KeyBits, Command, Advance;
    var start := Play(r, t, [], false);
    AskUid(r, t, true);
    var p1 := Exchange(start, true);
    Authenticate(p1, true);
    var p2 := Exchange(p1, true);
    AskWrite(p2);
    var p3 := Exchange(p2, true);
    SendData(p3);
    var p4 := Exchange(p3, true);
    assert InStep(p4) by { AdvanceNothing(p4.r.cs); }
    Programmed(p4);
    var p5 := Exchange(p4, true);
    forall n: nat | 2 <= n ensures Exchanges(start, true, n) == Exchanges(p2, true, n - 2) {
      After(start, true, n);
      After(p1, true, n - 1);
    }
    forall n: nat | 3 <= n ensures Exchanges(start, true, n) == Exchanges(p3, true, n - 3) { After(p2, true, n - 2); }
    forall n: nat | 4 <= n ensures Exchanges(start, true, n) == Exchanges(p4, true, n - 4) { After(p3, true, n - 3); }
    After(p4, true, 1);
    NoExchange(p2, true);
    NoExchange(p3, true);
    NoExchange(p4, true);
    NoExchange(p5, true);
  }

  /** The answer as the reader understands it. */
  function Heard(r: Reader, rx: Frame): Frame {
    if r.bCrypto then Crypt(r.cs, rx) else rx
  }

  /** The reader against arbitrary answers, one after the other. */
  function Answers(r: Reader, rxs: seq<Frame>): Turn
    requires ValidReader(r, true)
    decreases |rxs|
  {
    if rxs == [] then Turn(r, [], true)
    else
      var turn := ReaderStep(r, rxs[0], true);
      ReaderStaysValid(r, rxs[0], true);
      if turn.go then Answers(turn.r, rxs[1..]) else turn
  }

  /** Among the answers taken, one was the echo of the page command. */
  predicate EchoHeard(r: Reader, rxs: seq<Frame>)
    requires ValidReader(r, true)
    decreases |rxs|
  {
    rxs != [] && (
      || Heard(r, rxs[0]) == Command(Write, r.blocknr)
      || (var turn := ReaderStep(r, rxs[0], true);
          ReaderStaysValid(r, rxs[0], true);
          turn.go && EchoHeard(turn.r, rxs[1..])))
  }

  /** One answer: programming begins only with the echo, success only then. */
  lemma WriteTurn(r: Reader, rx: Frame)
    requires ValidReader(r, true) && !r.bSuccessful && r.writestate != Prog
    ensures var turn := ReaderStep(r, rx, true);
            && !turn.r.bSuccessful && turn.r.blocknr == r.blocknr
            && (turn.r.writestate == Prog ==> Heard(r, rx) == Command(Write, r.blocknr))
  {
    hide Advance, KeyBits, Unpack, Command, Crypt, Init, Word32, Word48, Pack, Level;
  }

  /** Whatever the other side answers, a write is reported successful only after
      the echo of the page command was received. */
  lemma {:induction false} SuccessOnlyAfterEcho(r: Reader, rxs: seq<Frame>)
    requires ValidReader(r, true) && !r.bSuccessful && r.writestate != Prog
    requires Answers(r, rxs).r.bSuccessful
    ensures EchoHeard(r, rxs)
    decreases |rxs|
  {
    hide ReaderStep, Heard, Command;
    WriteTurn(r, rxs[0]);
    ReaderStaysValid(r, rxs[0], true);
    var turn := ReaderStep(r, rxs[0], true);
    if turn.r.writestate != Prog {
      SuccessOnlyAfterEcho(turn.r, rxs[1..]);
    }
  }
}
