/**
 * The iClass simulation seen from the air (armsrc/iclass.c:94-98, 506-871): what
 * the octets of a received frame do, without the dispatcher's own terms.
 */
module IclassFrames {
  import opened Types
  import opened IclassChip
  import Bits

  /** Octets sent with their check octets behind them. */
  function Checked(env: Env, data: seq<bv8>): Answer { Data(env.code(data + env.crc(data)), data + env.crc(data)) }

  // ---- Anticollision ------------------------------------------------------------

  /** The bits of some octets, least significant bit first. */
  function AirBits(s: seq<bv8>): seq<bool>
  {
    if s == [] then [] else Bits.LsbFirst(s[0]) + AirBits(s[1..])
  }

  lemma RotatedOctet(a: bv8, b: bv8, k: nat)
    requires k < 8
    ensures Bits.LsbFirst(RotateOctet(a, b))[k] == if k < 5 then Bits.LsbFirst(a)[k + 3] else Bits.LsbFirst(b)[k - 5]
  {
    hide RotateOctet, Bits.LsbFirst;
    RotatedMasks(a, b);
    LsbEntries(a);
    LsbEntries(b);
    LsbEntries(RotateOctet(a, b));
  }

  lemma LsbEntries(x: bv8)
    ensures var s := Bits.LsbFirst(x);
      && s[0] == (x & 1 != 0) && s[1] == (x & 2 != 0) && s[2] == (x & 4 != 0) && s[3] == (x & 8 != 0)
      && s[4] == (x & 16 != 0) && s[5] == (x & 32 != 0) && s[6] == (x & 64 != 0) && s[7] == (x & 128 != 0)
  {
  }

  lemma RotatedMasks(a: bv8, b: bv8)
    ensures var r := RotateOctet(a, b);
      && (r & 1 != 0 <==> a & 8 != 0) && (r & 2 != 0 <==> a & 16 != 0) && (r & 4 != 0 <==> a & 32 != 0)
      && (r & 8 != 0 <==> a & 64 != 0) && (r & 16 != 0 <==> a & 128 != 0)
      && (r & 32 != 0 <==> b & 1 != 0) && (r & 64 != 0 <==> b & 2 != 0) && (r & 128 != 0 <==> b & 4 != 0)
  {
  }

  lemma {:induction false} AirBitsAt(s: seq<bv8>, i: nat, k: nat)
    requires i < |s| && k < 8
    ensures |AirBits(s)| == 8 * |s| && AirBits(s)[8 * i + k] == Bits.LsbFirst(s[i])[k]
    decreases |s|
  {
    hide Bits.LsbFirst;
    if |s| == 1 {
      assert s[1..] == [];
    } else {
      AirBitsAt(s[1..], if i == 0 then 0 else i - 1, k);
    }
  }

  lemma RotateAt(csn: Block, i: nat)
    requires i < 8
    ensures Rotate(csn)[i] == RotateOctet(csn[i], csn[(i + 1) % 8])
  {
    hide RotateOctet;
  }

  lemma RotatedBit(csn: Block, i: nat, k: nat)
    requires i < 8 && k < 8
    ensures |AirBits(csn)| == 64 && |AirBits(Rotate(csn))| == 64
    ensures AirBits(Rotate(csn))[8 * i + k] == AirBits(csn)[(8 * i + k + 3) % 64]
  {
    hide AirBits, Bits.LsbFirst, RotateOctet, Rotate;
    AirBitsAt(Rotate(csn), i, k);
    RotateAt(csn, i);
    RotatedOctet(csn[i], csn[(i + 1) % 8], k);
    if k < 5 {
      AirBitsAt(csn, i, k + 3);
    } else {
      AirBitsAt(csn, (i + 1) % 8, k - 5);
      assert (8 * i + k + 3) % 64 == 8 * ((i + 1) % 8) + (k - 5);
    }
  }

  /** The anticollision number is the serial number, its bits moved on by three. */
  lemma AnticollisionRotates(csn: Block)
    ensures AirBits(Rotate(csn)) == AirBits(csn)[3..] + AirBits(csn)[..3]
  {
    hide AirBits, Rotate;
    RotatedBit(csn, 0, 0);
    var a, s := AirBits(Rotate(csn)), AirBits(csn);
    forall j | 0 <= j < 64 ensures a[j] == s[(j + 3) % 64] { RotatedBit(csn, j / 8, j % 8); }
    assert forall j :: 0 <= j < 61 ==> (s[3..] + s[..3])[j] == s[j + 3];
    assert forall j :: 61 <= j < 64 ==> (s[3..] + s[..3])[j] == s[j - 61];
  }

  /**
   * From power-on: ACTALL is answered by a bare SOF, IDENTIFY by the anticollision
   * number and SELECT of that number by the serial number; the chip is then selected.
   */
  lemma SelectedFromStart(env: Env, mem: seq<bv8>, all: bv8, id: bv8, sel: bv8)
    requires |mem| == MEMORY && all & 0xf == 0xa && id & 0xf == 0xc && sel & 0xf == 0x1
    ensures var csn: Block := mem[0..8];
      var a := Turn(env, Start(env, mem), [all]);
      var b := Turn(env, a.0, [id]);
      var c := Turn(env, b.0, [sel] + Rotate(csn));
      && a.1 == Sof && b.1 == Checked(env, Rotate(csn)) && c.1 == Checked(env, csn)
      && c.0 == Start(env, mem).(power := Selected)
  {
    hide Rotate, Bit;
    var csn: Block := mem[0..8];
    assert BlockOf(mem, 0) == csn;
    assert ([sel] + Rotate(csn))[1..9] == Rotate(csn);
    var a := Start(env, mem).(power := Activated);
    assert Turn(env, Start(env, mem), [all]) == (a, Sof);
    assert Turn(env, a, [id]) == (a, Checked(env, Rotate(csn)));
  }

  /** A chip that is not selected answers ACTALL, IDENTIFY and SELECT only, and stays as it is otherwise. */
  lemma SilentUnlessSelected(env: Env, c: Chip, f: seq<bv8>)
    requires Sized(c) && c.power != Selected
    requires f == [] || !((|f| == 1 && (f[0] & 0xf == 0xa || f[0] & 0xf == 0xc)) || (|f| == 9 && f[0] & 0xf == 0x1))
    ensures Turn(env, c, f) == (c, Silence)
  {
    hide Read, Read4, ReadCheck, Check, Update, Select;
  }

  // ---- Reading -----------------------------------------------------------------------

  /** READ: the two key blocks read as eight times 0xff, every other block as its memory. */
  lemma ReadAnswered(env: Env, c: Chip, f: seq<bv8>)
    requires Sized(c) && c.power == Selected && |f| == 4 && f[0] & 0xf == 0xc
    ensures var b := f[1] as int;
      var data := if b == 3 || b == 4 then [0xff, 0xff, 0xff, 0xff, 0xff, 0xff, 0xff, 0xff] else c.mem[8 * b..8 * b + 8];
      Turn(env, c, f) == (c, Checked(env, data))
  {
    hide Turn;
    ReadTurn(env, c, f);
  }

  lemma ReadTurn(env: Env, c: Chip, f: seq<bv8>)
    requires Sized(c) && c.power == Selected && |f| == 4
    ensures f[0] & 0xf == 0xc ==> Turn(env, c, f) == (c, Read(env, c, f[1] as nat))
    ensures f[0] & 0xf == 0x6 ==> Turn(env, c, f) == (c, Read4(env, c, f[1] as nat))
  {
    ParsesRead(f);
    hide Parse, Read, Read4, ReadCheck, Check, Update, Select;
  }

  lemma ParsesRead(f: seq<bv8>)
    requires |f| == 4
    ensures f[0] & 0xf == 0xc ==> Parse(f) == ReadBlock(f[1] as nat)
    ensures f[0] & 0xf == 0x6 ==> Parse(f) == ReadFour(f[1] as nat)
  {
  }

  /** READ4: four blocks as they stand in memory, keys among them. */
  lemma ReadFourAnswered(env: Env, c: Chip, f: seq<bv8>)
    requires Sized(c) && c.power == Selected && |f| == 4 && f[0] & 0xf == 0x6
    ensures var b := f[1] as int; Turn(env, c, f) == (c, Checked(env, c.mem[8 * b..8 * b + 32]))
  {
    hide Turn;
    ReadTurn(env, c, f);
  }

  // ---- The key that is chosen ------------------------------------------------------------

  /** x8 02: the e-purse is asked for, and a key chosen with it. */
  predicate ReadsPurse(f: seq<bv8>) { |f| == 2 && f[0] & 0xf == 0x8 && f[1] == 2 }

  /** 88 02 stands for the debit key, every other first octet for the credit key. */
  lemma PurseAnswered(env: Env, c: Chip, f: seq<bv8>)
    requires Sized(c) && Coherent(env, c) && c.power == Selected && ReadsPurse(f)
    ensures var purse := c.mem[16..24]; Turn(env, c, f) == (c.(useKc := f[0] != 0x88), Data(env.code(purse), purse))
  {
    hide Read, Read4, Check, Update, Select;
    assert BlockOf(c.mem, 2) == c.mem[16..24];
  }

  lemma KeyKept(env: Env, c: Chip, g: seq<bv8>)
    requires Sized(c) && !ReadsPurse(g)
    ensures Turn(env, c, g).0.useKc == c.useKc
  {
    hide Parse, Read, Read4, SetBlock, NewKey, Locked;
    ParsesPurse(g);
  }

  lemma ParsesPurse(g: seq<bv8>)
    ensures Parse(g).ReadCheckKey? ==> ReadsPurse(g)
  {
  }

  lemma {:induction false} KeyKeptThroughout(env: Env, c: Chip, gs: seq<seq<bv8>>)
    requires Sized(c) && Coherent(env, c) && forall i :: 0 <= i < |gs| ==> !ReadsPurse(gs[i])
    ensures Coherent(env, Run(env, c, gs)) && Run(env, c, gs).useKc == c.useKc
    decreases |gs|
  {
    hide Turn, Coherent, ReadsPurse;
    if gs != [] {
      var d := Run(env, c, gs[..|gs| - 1]);
      KeyKeptThroughout(env, c, gs[..|gs| - 1]);
      TurnCoherent(env, d, gs[|gs| - 1]);
      KeyKept(env, d, gs[|gs| - 1]);
    }
  }

  lemma CheckTurn(env: Env, c: Chip, f: seq<bv8>)
    requires Sized(c) && c.power == Selected && |f| == 9 && f[0] & 0xf == 0x5
    ensures Turn(env, c, f) == Check(env, c, f[1..5])
  {
    hide Read, Read4, ReadCheck, Check, Update, Select;
  }

  lemma CheckFresh(env: Env, c: Chip, nr: seq<bv8>)
    requires Sized(c) && Coherent(env, c)
    ensures var key := if c.useKc then c.mem[32..40] else c.mem[24..32];
      var mac := env.mac2(env.mac1(c.mem[16..24], key), nr, key);
      Check(env, c, nr).1 == Data(env.code(mac), mac)
  {
    assert BlockOf(c.mem, 2) == c.mem[16..24] && BlockOf(c.mem, 3) == c.mem[24..32] && BlockOf(c.mem, 4) == c.mem[32..40];
  }

  /**
   * CHECK is answered with the MAC under the key of the last request for the e-purse,
   * computed afresh from what the memory then holds: after 88 02 the debit key of
   * block 3, after 18 02 and every other first octet the credit key of block 4.
   * Whatever else is received in between changes nothing about the choice.
   */
  lemma MacUnderChosenKey(env: Env, c: Chip, choice: seq<bv8>, gs: seq<seq<bv8>>, f: seq<bv8>)
    requires Sized(c) && Coherent(env, c) && c.power == Selected
    requires ReadsPurse(choice) && (forall i :: 0 <= i < |gs| ==> !ReadsPurse(gs[i]))
    requires |f| == 9 && f[0] & 0xf == 0x5
    ensures var d := Run(env, Turn(env, c, choice).0, gs);
      var key := if choice[0] == 0x88 then d.mem[24..32] else d.mem[32..40];
      var mac := env.mac2(env.mac1(d.mem[16..24], key), f[1..5], key);
      d.power == Selected ==> Turn(env, d, f).1 == Data(env.code(mac), mac)
  {
    hide Turn, Coherent, Check;
    var c' := Turn(env, c, choice).0;
    PurseAnswered(env, c, choice);
    TurnCoherent(env, c, choice);
    KeyKeptThroughout(env, c', gs);
    var d := Run(env, c', gs);
    CheckFresh(env, d, f[1..5]);
    if d.power == Selected { CheckTurn(env, d, f); }
  }

  /** Checks under the credit key are counted; the fourth one ends the simulation. */
  lemma CreditChecksCounted(env: Env, c: Chip, f: seq<bv8>)
    requires Sized(c) && c.power == Selected && |f| == 9 && f[0] & 0xf == 0x5
    ensures var r := Turn(env, c, f).0;
      if !c.useKc then c.attempts <= 3 ==> r == c
      else if c.attempts < 3 then r == c.(attempts := c.attempts + 1)
      else r == c.(attempts := 0, done := true)
  {
    hide Turn;
    CheckTurn(env, c, f);
  }

  // ---- Writing ------------------------------------------------------------------------------

  /** The lock octet: the top bit makes the chip writable, bit k opens block 6 + k. */
  predicate Writable(lock: bv8, b: nat)
  {
    lock >= 128 && (6 <= b <= 12 ==> lock & (1 << (b - 6)) != 0)
  }

  lemma WritableIs(lock: bv8, b: nat)
    ensures Locked(lock, b) <==> !Writable(lock, b)
  {
    assert lock & 0x80 != 0 <==> lock >= 128;
    assert (1 as bv8) << 0 == 1 && (1 as bv8) << 1 == 2 && (1 as bv8) << 2 == 4 && (1 as bv8) << 3 == 8;
    assert (1 as bv8) << 4 == 16 && (1 as bv8) << 5 == 32 && (1 as bv8) << 6 == 64;
  }

  lemma UpdateTurn(env: Env, c: Chip, f: seq<bv8>)
    requires Sized(c) && c.power == Selected && (|f| == 12 || |f| == 14) && f[0] & 0xf == 0x7
    ensures Turn(env, c, f) == Update(env, c, f[1] as nat, f[2..10])
  {
    hide Parse, Read, Read4, ReadCheck, Check, Update, Select;
    ParsesUpdate(f);
  }

  lemma ParsesUpdate(f: seq<bv8>)
    requires (|f| == 12 || |f| == 14) && f[0] & 0xf == 0x7
    ensures Parse(f) == UpdateBlock(f[1] as nat, f[2..10])
  {
  }

  /** Block b is data, or, for a key outside personalization mode, the old key changed by data; the rest is kept. */
  predicate Wrote(mem: seq<bv8>, mem': seq<bv8>, b: nat, data: Block, mixed: bool)
    requires |mem| == MEMORY && b < 256
  {
    && |mem'| == MEMORY
    && forall i :: 0 <= i < MEMORY ==>
         mem'[i] == if i / 8 != b then mem[i] else if mixed then mem[i] ^ data[i % 8] else data[i % 8]
  }

  /**
   * UPDATE: a writable block takes the eight octets of the frame, which are sent
   * back; a key is changed by them with exclusive or once personalization is over.
   * Nothing else of the memory changes, and nothing at all when the block is locked.
   */
  lemma UpdateAnswered(env: Env, c: Chip, f: seq<bv8>)
    requires Sized(c) && Coherent(env, c) && c.power == Selected
    requires (|f| == 12 || |f| == 14) && f[0] & 0xf == 0x7
    ensures var b, r := f[1] as nat, Turn(env, c, f);
      if Writable(c.lock, b)
      then r.1 == Checked(env, f[2..10]) && Wrote(c.mem, r.0.mem, b, f[2..10], (b == 3 || b == 4) && !c.personal)
      else r == (c, Silence)
  {
    hide Turn, Coherent, Locked, Writable, UpdateChip, Wrote;
    var b, data: Block := f[1] as nat, f[2..10];
    UpdateTurn(env, c, f);
    WritableIs(c.lock, b);
    UpdateMemory(env, c, b, data);
    StoredWrote(env, c, b, data);
  }

  lemma StoredWrote(env: Env, c: Chip, b: nat, data: Block)
    requires Sized(c) && Coherent(env, c) && b < 256
    ensures Wrote(c.mem, SetBlock(c.mem, b, Stored(c, b, data)), b, data, (b == 3 || b == 4) && !c.personal)
  {
    hide Stored, Coherent, SetBlock;
    var s := Stored(c, b, data);
    var r := SetBlock(c.mem, b, s);
    var mixed := (b == 3 || b == 4) && !c.personal;
    forall i | 0 <= i < MEMORY
      ensures r[i] == if i / 8 != b then c.mem[i] else if mixed then c.mem[i] ^ data[i % 8] else data[i % 8]
    {
      SetBlockAt(c.mem, b, s, i);
      StoredOctet(env, c, b, data, i % 8);
      assert i / 8 == b ==> 8 * b + i % 8 == i;
    }
  }

  lemma SetBlockAt(mem: seq<bv8>, b: nat, s: Block, i: nat)
    requires |mem| == MEMORY && b < 256 && i < MEMORY
    ensures SetBlock(mem, b, s)[i] == if i / 8 != b then mem[i] else s[i % 8]
  {
  }

  lemma StoredOctet(env: Env, c: Chip, b: nat, data: Block, k: nat)
    requires Sized(c) && Coherent(env, c) && b < 256 && k < 8
    ensures Stored(c, b, data)[k] ==
      if (b == 3 || b == 4) && !c.personal then c.mem[8 * b + k] ^ data[k] else data[k]
  {
    hide Xor;
    assert BlockOf(c.mem, b)[k] == c.mem[8 * b + k];
  }

  lemma Fixed(env: Env, c: Chip, f: seq<bv8>)
    requires Sized(c)
    ensures var r := Turn(env, c, f).0; r.lock == c.lock && r.personal == c.personal
  {
    hide Parse, Read, Read4, SetBlock, NewKey, Locked;
  }

  lemma {:induction false} FixedThroughout(env: Env, c: Chip, fs: seq<seq<bv8>>)
    requires Sized(c)
    ensures var r := Run(env, c, fs); r.lock == c.lock && r.personal == c.personal
    decreases |fs|
  {
    hide Turn;
    if fs != [] {
      FixedThroughout(env, c, fs[..|fs| - 1]);
      Fixed(env, Run(env, c, fs[..|fs| - 1]), fs[|fs| - 1]);
    }
  }

  /**
   * The same after any frames at all. What may be written is what octet 11 of the
   * memory said at the start, and whether keys are replaced what octet 15 said then,
   * even after the configuration block itself was written.
   */
  lemma UpdateInEveryRun(env: Env, mem: seq<bv8>, fs: seq<seq<bv8>>, f: seq<bv8>)
    requires |mem| == MEMORY && SinglePage(mem) && (|f| == 12 || |f| == 14) && f[0] & 0xf == 0x7
    ensures var c := Run(env, Start(env, mem), fs);
      var b, r := f[1] as nat, Turn(env, c, f);
      if c.power == Selected && Writable(mem[11], b)
      then r.1 == Checked(env, f[2..10]) && Wrote(c.mem, r.0.mem, b, f[2..10], (b == 3 || b == 4) && mem[15] < 128)
      else r == (c, Silence)
  {
    hide Turn, Run, Coherent, Writable, Wrote, Rotate;
    RunCoherent(env, mem, fs);
    FixedThroughout(env, Start(env, mem), fs);
    TopBit(mem[15]);
    var c := Run(env, Start(env, mem), fs);
    if c.power == Selected { UpdateAnswered(env, c, f); } else { SilentUnlessSelected(env, c, f); }
  }

  lemma TopBit(x: bv8)
    ensures Bit(x, 0x80) <==> x >= 128
  {
  }
}
