/**
 * The full iClass simulation of a single-page chip (armsrc/iclass.c:94-98,
 * 312-408, 506-871): a command state machine over the emulator memory, with keys,
 * e-purse, cipher states and one encoded answer cached beside it. The MAC, the
 * CRC and the ISO 15693 coding are parameters.
 */
module IclassChip {
  import opened Types

  const MEMORY: nat := 4096

  /** opt_doTagMAC_1, opt_doTagMAC_2, AddCrc and CodeIso15693AsTag. */
  datatype Env = Env(mac1: (Block, Block) -> seq<bv8>, mac2: (seq<bv8>, seq<bv8>, Block) -> seq<bv8>,
                     crc: seq<bv8> -> seq<bv8>, code: seq<bv8> -> seq<bv8>)

  datatype Power = Idle | Activated | Selected | Halted

  /** What is sent back: nothing, a bare SOF, or modulated octets and what they stand for. */
  datatype Answer = Silence | Sof | Data(sent: seq<bv8>, meaning: seq<bv8>)

  /**
   * csn, anticoll, lock and personal are fixed when the simulation starts. useKc
   * says which key the pointers cipher_state and diversified_key denote.
   */
  datatype Chip = Chip(csn: Block, anticoll: Block, lock: bv8, personal: bool,
                       mem: seq<bv8>, power: Power, epurse: Block, kd: Block, kc: Block,
                       stateKd: seq<bv8>, stateKc: seq<bv8>, answerCc: seq<bv8>,
                       useKc: bool, attempts: nat, done: bool)

  predicate Sized(c: Chip) { |c.mem| == MEMORY }

  function BlockOf(mem: seq<bv8>, b: nat): Block
    requires 8 * b + 8 <= |mem|
  {
    mem[8 * b..8 * b + 8]
  }

  function SetBlock(mem: seq<bv8>, b: nat, data: Block): (r: seq<bv8>)
    requires 8 * b + 8 <= |mem|
    ensures |r| == |mem|
  {
    mem[..8 * b] + data + mem[8 * b + 8..]
  }

  function RotateOctet(a: bv8, b: bv8): bv8 { (a >> 3) | (b << 5) }

  function Rotate(csn: Block): Block
  {
    [RotateOctet(csn[0], csn[1]), RotateOctet(csn[1], csn[2]), RotateOctet(csn[2], csn[3]), RotateOctet(csn[3], csn[4]),
     RotateOctet(csn[4], csn[5]), RotateOctet(csn[5], csn[6]), RotateOctet(csn[6], csn[7]), RotateOctet(csn[7], csn[0])]
  }

  function Bit(x: bv8, mask: bv8): bool { x & mask != 0 }

  /** The configuration block says that the chip has one page. */
  predicate SinglePage(mem: seq<bv8>)
    requires |mem| == MEMORY
  {
    Bit(mem[12], 0x10)
  }

  function Start(env: Env, mem: seq<bv8>): (c: Chip)
    requires |mem| == MEMORY
    ensures Sized(c)
  {
    var csn := BlockOf(mem, 0);
    var epurse, kd, kc := BlockOf(mem, 2), BlockOf(mem, 3), BlockOf(mem, 4);
    Chip(csn, Rotate(csn), mem[11], Bit(mem[15], 0x80), mem, Idle, epurse, kd, kc,
         env.mac1(epurse, kd), env.mac1(epurse, kc), env.code(epurse), false, 0, false)
  }

  // ---- Commands ---------------------------------------------------------------

  function LowNibble(x: bv8): bv8 { x & 0xf }
  function HighNibble(x: bv8): bv8 { x >> 4 }

  function WithCrc(env: Env, data: seq<bv8>): seq<bv8> { data + env.crc(data) }
  function Coded(env: Env, data: seq<bv8>): Answer { Data(env.code(data), data) }

  function Select(env: Env, c: Chip, id: seq<bv8>): (Chip, Answer)
  {
    if c.power == Activated || c.power == Selected then
      if id == c.anticoll then (c.(power := Selected), Coded(env, WithCrc(env, c.csn)))
      else (c.(power := Idle), Silence)
    else if id == c.csn then (c.(power := Selected), Coded(env, WithCrc(env, c.csn)))
    else (c, Silence)
  }

  const BLANK: Block := [0xff, 0xff, 0xff, 0xff, 0xff, 0xff, 0xff, 0xff]

  function Read(env: Env, c: Chip, block: nat): Answer
    requires Sized(c) && block < 256
  {
    if block == 3 || block == 4 then Coded(env, WithCrc(env, BLANK))
    else Coded(env, WithCrc(env, BlockOf(c.mem, block)))
  }

  function Read4(env: Env, c: Chip, block: nat): Answer
    requires Sized(c) && block < 256
  {
    Coded(env, WithCrc(env, c.mem[8 * block..8 * block + 32]))
  }

  /** The cached answer goes out; the key for the next check is chosen. */
  function ReadCheck(c: Chip, kc: bool): (Chip, Answer)
  {
    (c.(useKc := kc), Data(c.answerCc, c.epurse))
  }

  function Check(env: Env, c: Chip, nr: seq<bv8>): (Chip, Answer)
  {
    var mac := if c.useKc then env.mac2(c.stateKc, nr, c.kc) else env.mac2(c.stateKd, nr, c.kd);
    var n := if c.useKc then c.attempts + 1 else c.attempts;
    (if n > 3 then c.(attempts := 0, done := true) else c.(attempts := n), Coded(env, mac))
  }

  /** The chip is read-only, or the block is one of 6 to 12 and locked. */
  predicate Locked(lock: bv8, block: nat)
  {
    !Bit(lock, 0x80) ||
    (block == 12 && !Bit(lock, 0x40)) || (block == 11 && !Bit(lock, 0x20)) || (block == 10 && !Bit(lock, 0x10)) ||
    (block == 9 && !Bit(lock, 0x08)) || (block == 8 && !Bit(lock, 0x04)) || (block == 7 && !Bit(lock, 0x02)) ||
    (block == 6 && !Bit(lock, 0x01))
  }

  /** In personalization mode a key is replaced, later it is only changed by exclusive or. */
  function NewKey(c: Chip, key: Block, data: Block): Block { if c.personal then data else Xor(key, data) }

  function UpdateChip(env: Env, c: Chip, block: nat, data: Block): (r: Chip)
    requires Sized(c) && block < 256
    ensures Sized(r)
  {
    if block == 2 then
      c.(epurse := data, answerCc := env.code(data), stateKd := env.mac1(data, c.kd), stateKc := env.mac1(data, c.kc),
         mem := SetBlock(c.mem, 2, data))
    else if block == 3 then
      var kd := NewKey(c, c.kd, data);
      c.(kd := kd, stateKd := env.mac1(c.epurse, kd), mem := SetBlock(c.mem, 3, kd))
    else if block == 4 then
      var kc := NewKey(c, c.kc, data);
      c.(kc := kc, stateKc := env.mac1(c.epurse, kc), mem := SetBlock(c.mem, 4, kc))
    else c.(mem := SetBlock(c.mem, block, data))
  }

  function Update(env: Env, c: Chip, block: nat, data: Block): (r: (Chip, Answer))
    requires Sized(c) && block < 256
    ensures Sized(r.0)
  {
    if Locked(c.lock, block) then (c, Silence)
    else (UpdateChip(env, c, block, data), Coded(env, WithCrc(env, data)))
  }

  /** What the dispatcher makes of a frame. */
  datatype Command =
    | ActAll | Identify | SelectId(id: seq<bv8>) | ReadBlock(block: nat) | ReadCheckKey(kc: bool)
    | CheckMac(nr: seq<bv8>) | Halt | ReadFour(block: nat) | UpdateBlock(block: nat, data: Block) | Ignored

  function Parse(f: seq<bv8>): (r: Command)
    ensures r.ReadBlock? ==> r.block < 256
    ensures r.ReadFour? ==> r.block < 256
    ensures r.UpdateBlock? ==> r.block < 256
  {
    if f == [] then Ignored
    else
      var cmd := LowNibble(f[0]);
      if cmd == 0xa && |f| == 1 then ActAll
      else if cmd == 0xc && |f| == 1 then Identify
      else if cmd == 0x1 && |f| == 9 then SelectId(f[1..9])
      else if cmd == 0xc && |f| == 4 then ReadBlock(f[1] as nat)
      else if cmd == 0x8 && |f| == 2 && f[1] == 2 then ReadCheckKey(f[0] != 0x88)
      else if cmd == 0x5 && |f| == 9 then CheckMac(f[1..5])
      else if cmd == 0x0 && HighNibble(f[0]) == 0 && |f| == 1 then Halt
      else if cmd == 0x6 && |f| == 4 then ReadFour(f[1] as nat)
      else if cmd == 0x7 && (|f| == 12 || |f| == 14) then UpdateBlock(f[1] as nat, f[2..10])
      else Ignored // PAGESEL among them: a chip with one page does not answer
  }

  function Step(env: Env, c: Chip, cmd: Command): (r: (Chip, Answer))
    requires Sized(c) && (cmd.ReadBlock? || cmd.ReadFour? || cmd.UpdateBlock? ==> cmd.block < 256)
    ensures Sized(r.0)
  {
    match cmd
    case ActAll => (c.(power := Activated), Sof)
    case Identify =>
      (c, if c.power == Selected || c.power == Activated then Coded(env, WithCrc(env, c.anticoll)) else Silence)
    case SelectId(id) => Select(env, c, id)
    case Ignored => (c, Silence)
    case ReadBlock(b) => (c, if c.power == Selected then Read(env, c, b) else Silence)
    case ReadCheckKey(kc) => if c.power == Selected then ReadCheck(c, kc) else (c, Silence)
    case CheckMac(nr) => if c.power == Selected then Check(env, c, nr) else (c, Silence)
    case Halt => if c.power == Selected then (c.(power := Halted), Sof) else (c, Silence)
    case ReadFour(b) => (c, if c.power == Selected then Read4(env, c, b) else Silence)
    case UpdateBlock(b, data) => if c.power == Selected then Update(env, c, b, data) else (c, Silence)
  }

  /** The whole turn of the loop: what a received frame does. */
  function Turn(env: Env, c: Chip, f: seq<bv8>): (r: (Chip, Answer))
    requires Sized(c)
    ensures Sized(r.0)
  {
    Step(env, c, Parse(f))
  }

  // ---- The cache agrees with the memory ----------------------------------------

  predicate Coherent(env: Env, c: Chip)
    requires Sized(c)
  {
    && c.epurse == BlockOf(c.mem, 2) && c.kd == BlockOf(c.mem, 3) && c.kc == BlockOf(c.mem, 4)
    && c.stateKd == env.mac1(c.epurse, c.kd) && c.stateKc == env.mac1(c.epurse, c.kc)
    && c.answerCc == env.code(c.epurse)
  }

  lemma SetBlockReads(mem: seq<bv8>, b: nat, data: Block, k: nat)
    requires 8 * b + 8 <= |mem| && 8 * k + 8 <= |mem|
    ensures BlockOf(SetBlock(mem, b, data), k) == if k == b then data else BlockOf(mem, k)
  {
    var r := SetBlock(mem, b, data);
    if k < b {
      assert r[..8 * b] == mem[..8 * b];
      assert BlockOf(r, k) == r[..8 * b][8 * k..8 * k + 8];
      assert BlockOf(mem, k) == mem[..8 * b][8 * k..8 * k + 8];
    } else if k > b {
      assert r[8 * b + 8..] == mem[8 * b + 8..];
      var d := 8 * k - (8 * b + 8);
      assert BlockOf(r, k) == r[8 * b + 8..][d..d + 8];
      assert BlockOf(mem, k) == mem[8 * b + 8..][d..d + 8];
    }
  }

  lemma StartCoherent(env: Env, mem: seq<bv8>)
    requires |mem| == MEMORY
    ensures Coherent(env, Start(env, mem))
  {
    hide Rotate, Bit;
  }

  /** What an accepted update leaves in the addressed block. */
  function Stored(c: Chip, block: nat, data: Block): Block
  {
    if block == 3 then NewKey(c, c.kd, data) else if block == 4 then NewKey(c, c.kc, data) else data
  }

  lemma UpdateMemory(env: Env, c: Chip, block: nat, data: Block)
    requires Sized(c) && block < 256
    ensures UpdateChip(env, c, block, data).mem == SetBlock(c.mem, block, Stored(c, block, data))
  {
    hide SetBlock, NewKey;
  }

  lemma UpdateCoherent(env: Env, c: Chip, block: nat, data: Block)
    requires Sized(c) && block < 256 && Coherent(env, c)
    ensures Coherent(env, UpdateChip(env, c, block, data))
  {
    hide SetBlock, BlockOf, NewKey;
    UpdateMemory(env, c, block, data);
    var s := Stored(c, block, data);
    SetBlockReads(c.mem, block, s, 2);
    SetBlockReads(c.mem, block, s, 3);
    SetBlockReads(c.mem, block, s, 4);
  }

  lemma SameCache(env: Env, c: Chip, d: Chip)
    requires Sized(c) && Coherent(env, c)
    requires d.mem == c.mem && d.epurse == c.epurse && d.kd == c.kd && d.kc == c.kc
    requires d.stateKd == c.stateKd && d.stateKc == c.stateKc && d.answerCc == c.answerCc
    ensures Coherent(env, d)
  {
  }

  lemma SelectKeeps(env: Env, c: Chip, id: seq<bv8>)
    requires Sized(c) && Coherent(env, c)
    ensures Sized(Select(env, c, id).0) && Coherent(env, Select(env, c, id).0)
  {
    hide Coherent;
    SameCache(env, c, Select(env, c, id).0);
  }

  lemma CheckKeeps(env: Env, c: Chip, nr: seq<bv8>)
    requires Sized(c) && Coherent(env, c)
    ensures Sized(Check(env, c, nr).0) && Coherent(env, Check(env, c, nr).0)
  {
    hide Coherent;
    SameCache(env, c, Check(env, c, nr).0);
  }

  lemma TurnCoherent(env: Env, c: Chip, f: seq<bv8>)
    requires Sized(c) && Coherent(env, c)
    ensures Coherent(env, Turn(env, c, f).0)
  {
    hide Locked, UpdateChip, BlockOf, Parse, Coherent, Select, Check, Read, Read4;
    var cmd := Parse(f);
    match cmd
    case UpdateBlock(b, data) => UpdateCoherent(env, c, b, data);
    case SelectId(id) => SelectKeeps(env, c, id);
    case CheckMac(nr) => CheckKeeps(env, c, nr);
    case _ => SameCache(env, c, Turn(env, c, f).0);
  }

  /** The MAC computed afresh from memory, for the key that was chosen. */
  function FreshMac(env: Env, mem: seq<bv8>, kc: bool, nr: seq<bv8>): seq<bv8>
    requires |mem| == MEMORY
  {
    var key := BlockOf(mem, if kc then 4 else 3);
    env.mac2(env.mac1(BlockOf(mem, 2), key), nr, key)
  }

  /** In a coherent state both cached answers are those of the memory. */
  lemma AnswersFromMemory(env: Env, c: Chip, f: seq<bv8>)
    requires Sized(c) && Coherent(env, c) && c.power == Selected
    ensures |f| == 9 && f[0] & 0xf == 0x5 ==>
      Turn(env, c, f).1 == Coded(env, FreshMac(env, c.mem, c.useKc, f[1..5]))
    ensures |f| == 2 && f[0] & 0xf == 0x8 && f[1] == 2 ==>
      Turn(env, c, f).1 == Coded(env, BlockOf(c.mem, 2)) && Turn(env, c, f).0.useKc == (f[0] != 0x88)
  {
    hide BlockOf, Locked, UpdateChip, Select, Update, Read, Read4;
  }

  // ---- What may change -----------------------------------------------------------

  /** Memory changes only while selected, and then in one unlocked block. */
  lemma TurnMemory(env: Env, c: Chip, f: seq<bv8>)
    requires Sized(c)
    ensures var r := Turn(env, c, f).0;
      r.mem != c.mem ==>
        c.power == Selected && Parse(f).UpdateBlock? && !Locked(c.lock, Parse(f).block) &&
        r.mem == SetBlock(c.mem, Parse(f).block, Stored(c, Parse(f).block, Parse(f).data))
    ensures Turn(env, c, f).0.lock == c.lock
  {
    hide Locked, SetBlock, BlockOf, Parse, Stored, UpdateChip;
    var cmd := Parse(f);
    if cmd.UpdateBlock? {
      UpdateMemory(env, c, cmd.block, cmd.data);
      LockKept(env, c, cmd.block, cmd.data);
    }
  }

  lemma LockKept(env: Env, c: Chip, block: nat, data: Block)
    requires Sized(c) && block < 256
    ensures UpdateChip(env, c, block, data).lock == c.lock
  {
  }

  // ---- Every run -------------------------------------------------------------------

  function Run(env: Env, c: Chip, fs: seq<seq<bv8>>): (r: Chip)
    requires Sized(c)
    ensures Sized(r)
    decreases |fs|
  {
    if fs == [] then c else Turn(env, Run(env, c, fs[..|fs| - 1]), fs[|fs| - 1]).0
  }

  /** In every reachable state the cache agrees with the memory. */
  lemma {:induction false} RunCoherent(env: Env, mem: seq<bv8>, fs: seq<seq<bv8>>)
    requires |mem| == MEMORY && SinglePage(mem)
    ensures Coherent(env, Run(env, Start(env, mem), fs))
    decreases |fs|
  {
    hide Turn, Coherent, Start;
    if fs == [] {
      StartCoherent(env, mem);
    } else {
      RunCoherent(env, mem, fs[..|fs| - 1]);
      TurnCoherent(env, Run(env, Start(env, mem), fs[..|fs| - 1]), fs[|fs| - 1]);
    }
  }

  /** A locked block holds what it held when the simulation started, whatever is received. */
  lemma {:induction false} LockedForever(env: Env, mem: seq<bv8>, fs: seq<seq<bv8>>, block: nat)
    requires |mem| == MEMORY && SinglePage(mem) && block < 256 && Locked(mem[11], block)
    ensures BlockOf(Run(env, Start(env, mem), fs).mem, block) == BlockOf(mem, block)
    ensures Run(env, Start(env, mem), fs).lock == mem[11]
    decreases |fs|
  {
    hide Turn, Locked, BlockOf, SetBlock, Rotate, Bit, Stored, Parse;
    if fs != [] {
      var c := Run(env, Start(env, mem), fs[..|fs| - 1]);
      var f := fs[|fs| - 1];
      LockedForever(env, mem, fs[..|fs| - 1], block);
      TurnMemory(env, c, f);
      if Turn(env, c, f).0.mem != c.mem {
        SetBlockReads(c.mem, Parse(f).block, Stored(c, Parse(f).block, Parse(f).data), block);
      }
    }
  }
}
