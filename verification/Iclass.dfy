/**
 * The iClass simulation as it runs (armsrc/iclass.c:350-387, 506-871): emulator
 * memory, keys, e-purse, cipher states and the encoded e-purse answer are changed
 * in place, command by command.
 */
module Iclass {
  import opened Types
  import opened IclassChip

  class Simulation {
    const env: Env
    const emulator: array<bv8>
    const csn: Block
    const anticoll: Block
    const lock: bv8
    const personal: bool
    var power: Power
    var epurse: Block
    var kd: Block
    var kc: Block
    var stateKd: seq<bv8>
    var stateKc: seq<bv8>
    var answerCc: seq<bv8>
    var useKc: bool
    var attempts: nat
    var done: bool

    ghost function View(): Chip
      reads this, emulator
    {
      Chip(csn, anticoll, lock, personal, emulator[..], power, epurse, kd, kc, stateKd, stateKc, answerCc,
           useKc, attempts, done)
    }

    ghost predicate Valid()
      reads this, emulator
    {
      Sized(View()) && Coherent(env, View())
    }

    constructor (e: Env, mem: array<bv8>)
      requires mem.Length == MEMORY && SinglePage(mem[..])
      ensures Valid() && env == e && emulator == mem && View() == Start(e, mem[..])
    {
      env, emulator := e, mem;
      csn, anticoll := mem[0..8], Rotate(mem[0..8]);
      lock, personal := mem[11], Bit(mem[15], 0x80);
      power := Idle;
      epurse, kd, kc := mem[16..24], mem[24..32], mem[32..40];
      stateKd := e.mac1(mem[16..24], mem[24..32]);
      stateKc := e.mac1(mem[16..24], mem[32..40]);
      answerCc := e.code(mem[16..24]);
      useKc, attempts, done := false, 0, false;
      new;
      Blocks(mem[..]);
      StartCoherent(e, mem[..]);
    }

    lemma Blocks(mem: seq<bv8>)
      requires |mem| == MEMORY
      ensures BlockOf(mem, 0) == mem[0..8] && BlockOf(mem, 2) == mem[16..24]
      ensures BlockOf(mem, 3) == mem[24..32] && BlockOf(mem, 4) == mem[32..40]
    {
    }

    /** memcpy of one block into the emulator memory. */
    method Store(block: nat, data: Block)
      requires block < 256 && emulator.Length == MEMORY
      modifies emulator
      ensures emulator[..] == SetBlock(old(emulator[..]), block, data)
    {
      ghost var s := emulator[..];
      var i := 0;
      while i < 8
        invariant 0 <= i <= 8
        invariant emulator[..] == s[..8 * block] + data[..i] + s[8 * block + i..]
      {
        ghost var q := emulator[..];
        emulator[8 * block + i] := data[i];
        assert emulator[..] == q[8 * block + i := data[i]];
        i := i + 1;
      }
      assert data[..8] == data;
    }

    /** The key update loop: replaced in personalization mode, otherwise mixed in. */
    method MergeKey(key: Block, data: Block) returns (r: Block)
      ensures r == if personal then data else Xor(key, data)
    {
      var s: seq<bv8> := [];
      ghost var x := if personal then data else Xor(key, data);
      hide Xor, XorOctet;
      while |s| < 8
        invariant |s| <= 8 && s == x[..|s|]
        decreases 8 - |s|
      {
        s := s + [if personal then data[|s|] else XorOctet(key[|s|], data[|s|])];
      }
      r := s;
    }

    /** The writing part of ICLASS_CMD_UPDATE. */
    method ApplyUpdate(block: nat, data: Block)
      requires Valid() && block < 256
      modifies this, emulator
      ensures Valid() && View() == UpdateChip(env, old(View()), block, data)
    {
      hide SetBlock, Xor, Coherent;
      UpdateCoherent(env, View(), block, data);
      if block == 2 {
        UpdatePurse(data);
      } else if block == 3 || block == 4 {
        UpdateKey(block, data);
      } else {
        Store(block, data);
      }
    }

    method UpdatePurse(data: Block)
      requires Sized(View())
      modifies this`epurse, this`answerCc, this`stateKd, this`stateKc, emulator
      ensures View() == UpdateChip(env, old(View()), 2, data)
    {
      hide SetBlock;
      epurse := data;
      answerCc := env.code(epurse);
      stateKd := env.mac1(epurse, kd);
      stateKc := env.mac1(epurse, kc);
      Store(2, epurse);
    }

    method UpdateKey(block: nat, data: Block)
      requires Sized(View()) && (block == 3 || block == 4)
      modifies this`kd, this`kc, this`stateKd, this`stateKc, emulator
      ensures View() == UpdateChip(env, old(View()), block, data)
    {
      hide SetBlock, Xor;
      if block == 3 {
        kd := MergeKey(kd, data);
        stateKd := env.mac1(epurse, kd);
        Store(3, kd);
      } else {
        kc := MergeKey(kc, data);
        stateKc := env.mac1(epurse, kc);
        Store(4, kc);
      }
    }

    method HandleSelect(id: seq<bv8>) returns (answer: Answer)
      requires Valid()
      modifies this`power
      ensures (View(), answer) == Select(env, old(View()), id)
    {
      answer := Silence;
      if power == Activated || power == Selected {
        if id == anticoll {
          answer := Coded(env, WithCrc(env, csn));
          power := Selected;
        } else {
          power := Idle;
        }
      } else if id == csn {
        answer := Coded(env, WithCrc(env, csn));
        power := Selected;
      }
    }

    method HandleCheck(nr: seq<bv8>) returns (answer: Answer)
      requires Valid()
      modifies this`attempts, this`done
      ensures (View(), answer) == Check(env, old(View()), nr)
    {
      if useKc {
        answer := Coded(env, env.mac2(stateKc, nr, kc));
        attempts := attempts + 1;
      } else {
        answer := Coded(env, env.mac2(stateKd, nr, kd));
      }
      if attempts > 3 {
        attempts := 0;
        done := true;
      }
    }

    /** One turn of the simulation loop, from a received frame to the answer. */
    method Handle(frame: seq<bv8>) returns (answer: Answer)
      requires Valid()
      modifies this, emulator
      ensures Valid() && (View(), answer) == Turn(env, old(View()), frame)
    {
      hide Coherent, Locked, UpdateChip, Select, Check, Parse, BlockOf;
      TurnCoherent(env, View(), frame);
      var cmd := Parse(frame);
      answer := Silence;
      match cmd {
        case ActAll =>
          power := Activated;
          answer := Sof;
        case Identify =>
          if power == Selected || power == Activated { answer := Coded(env, WithCrc(env, anticoll)); }
        case SelectId(id) => answer := HandleSelect(id);
        case Ignored =>
        case _ => if power == Selected { answer := HandleSelected(cmd); }
      }
    }

    /** The commands that only a selected chip obeys. */
    method HandleSelected(cmd: Command) returns (answer: Answer)
      requires Valid() && power == Selected && !(cmd.ActAll? || cmd.Identify? || cmd.SelectId? || cmd.Ignored?)
      requires cmd.ReadBlock? || cmd.ReadFour? || cmd.UpdateBlock? ==> cmd.block < 256
      modifies this, emulator
      ensures (View(), answer) == Step(env, old(View()), cmd)
    {
      hide Coherent, Locked, UpdateChip, Check, BlockOf;
      answer := Silence;
      match cmd {
        case ReadBlock(b) =>
          if b == 3 || b == 4 {
            answer := Coded(env, WithCrc(env, BLANK));
          } else {
            BlockSlice(emulator[..], b);
            answer := Coded(env, WithCrc(env, emulator[8 * b..8 * b + 8]));
          }
        case ReadCheckKey(k) =>
          useKc := k;
          answer := Data(answerCc, epurse);
        case CheckMac(nr) => answer := HandleCheck(nr);
        case Halt =>
          power := Halted;
          answer := Sof;
        case ReadFour(b) =>
          assert emulator[8 * b..8 * b + 32] == emulator[..][8 * b..8 * b + 32];
          answer := Coded(env, WithCrc(env, emulator[8 * b..8 * b + 32]));
        case UpdateBlock(b, data) =>
          if !Locked(lock, b) {
            ApplyUpdate(b, data);
            answer := Coded(env, WithCrc(env, data));
          }
      }
    }

    lemma BlockSlice(mem: seq<bv8>, b: nat)
      requires 8 * b + 8 <= |mem|
      ensures BlockOf(mem, b) == mem[8 * b..8 * b + 8]
    {
    }
  }
}
