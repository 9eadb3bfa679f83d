/** Bits and octets: the two orders in which an octet goes over the air. */
module Bits {

  /** The eight bits of an octet, least significant bit first. */
  function LsbFirst(b: bv8): (bits: seq<bool>)
    ensures |bits| == 8
  {
    [b & 1 != 0, b & 2 != 0, b & 4 != 0, b & 8 != 0,
     b & 16 != 0, b & 32 != 0, b & 64 != 0, b & 128 != 0]
  }

  /** The eight bits of an octet, most significant bit first. */
  function MsbFirst(b: bv8): (bits: seq<bool>)
    ensures |bits| == 8
  {
    [b & 128 != 0, b & 64 != 0, b & 32 != 0, b & 16 != 0,
     b & 8 != 0, b & 4 != 0, b & 2 != 0, b & 1 != 0]
  }

  /** Shift one bit in at the least significant end. */
  function Push(x: bv8, bit: bool): bv8 {
    (x << 1) + (if bit then 1 else 0)
  }

  /** Shift in a run of bits, the first one first. */
  function PushAll(x: bv8, bits: seq<bool>): bv8 {
    if bits == [] then x else Push(PushAll(x, bits[..|bits| - 1]), bits[|bits| - 1])
  }

  lemma PushAllAppend(x: bv8, bits: seq<bool>, bit: bool)
    ensures PushAll(x, bits + [bit]) == Push(PushAll(x, bits), bit)
  {
    assert (bits + [bit])[..|bits|] == bits;
  }

  lemma PushShifts(x: bv8, bit: bool)
    ensures MsbFirst(Push(x, bit)) == MsbFirst(x)[1..] + [bit]
  {
    var y := Push(x, bit);
    assert y & 128 == (x & 64) << 1;
    assert y & 64 == (x & 32) << 1;
    assert y & 32 == (x & 16) << 1;
    assert y & 16 == (x & 8) << 1;
    assert y & 8 == (x & 4) << 1;
    assert y & 4 == (x & 2) << 1;
    assert y & 2 == (x & 1) << 1;
  }

  /** The register is a window on the bits pushed: after eight pushes nothing
      is left of its old contents. */
  lemma {:induction false} PushWindow(x: bv8, bits: seq<bool>)
    ensures MsbFirst(PushAll(x, bits)) == (MsbFirst(x) + bits)[|bits|..]
  {
    hide MsbFirst, Push;
    if bits != [] {
      var n := |bits| - 1;
      PushWindow(x, bits[..n]);
      PushShifts(PushAll(x, bits[..n]), bits[n]);
      assert bits == bits[..n] + [bits[n]];
    }
  }

  /** An octet is determined by its bits. */
  lemma MsbFirstInjective(a: bv8, b: bv8)
    requires MsbFirst(a) == MsbFirst(b)
    ensures a == b
  {
    assert forall k | 0 <= k < 8 :: MsbFirst(a)[k] == MsbFirst(b)[k];
  }

  /** An octet is determined by its bits, in either order. */
  lemma LsbFirstInjective(a: bv8, b: bv8)
    requires LsbFirst(a) == LsbFirst(b)
    ensures a == b
  {
    assert forall k | 0 <= k < 8 :: LsbFirst(a)[k] == LsbFirst(b)[k];
  }

  /** A level held for `n` bits. */
  function Level(bit: bool, n: nat): (bits: seq<bool>)
    ensures |bits| == n
  {
    seq(n, _ => bit)
  }

  lemma LevelJoin(bit: bool, m: nat, n: nat)
    ensures Level(bit, m) + Level(bit, n) == Level(bit, m + n)
  {
  }

  /** Every bit repeated `n` times. */
  function Stretch(bits: seq<bool>, n: nat): (s: seq<bool>)
    ensures |s| == n * |bits|
    decreases |bits|
  {
    if bits == [] then [] else Level(bits[0], n) + Stretch(bits[1..], n)
  }

  lemma {:induction false} StretchAppend(a: seq<bool>, b: seq<bool>, n: nat)
    ensures Stretch(a + b, n) == Stretch(a, n) + Stretch(b, n)
    decreases |a|
  {
    if a == [] {
      assert a + b == b;
    } else {
      assert (a + b)[1..] == a[1..] + b;
      StretchAppend(a[1..], b, n);
      assert Level(a[0], n) + (Stretch(a[1..], n) + Stretch(b, n)) == Stretch(a, n) + Stretch(b, n);
    }
  }

  lemma {:induction false} StretchLevel(bit: bool, m: nat, n: nat)
    ensures Stretch(Level(bit, m), n) == Level(bit, n * m)
    decreases m
  {
    if m > 0 {
      assert Level(bit, m)[1..] == Level(bit, m - 1);
      StretchLevel(bit, m - 1, n);
      LevelJoin(bit, n, n * (m - 1));
      assert n + n * (m - 1) == n * m;
    }
  }

  function ShrOne(b: bv8): bv8 { b >> 1 }

  lemma ShiftRight(bt: bv8)
    ensures LsbFirst(ShrOne(bt)) == LsbFirst(bt)[1..] + [false]
  {
  }

  function Shr(b: bv8, n: nat): bv8 {
    if n == 0 then b else ShrOne(Shr(b, n - 1))
  }

  lemma {:induction false} ShrBits(b: bv8, n: nat)
    requires n <= 8
    ensures LsbFirst(Shr(b, n)) == LsbFirst(b)[n..] + Level(false, n)
  {
    hide LsbFirst, ShrOne;
    if n == 0 {
      assert Level(false, 0) == [];
    } else {
      var s := LsbFirst(b)[n - 1..];
      ShrBits(b, n - 1);
      ShiftRight(Shr(b, n - 1));
      LevelJoin(false, n - 1, 1);
      assert (s + Level(false, n - 1))[1..] + [false] == s[1..] + (Level(false, n - 1) + [false]);
      assert s[1..] == LsbFirst(b)[n..];
    }
  }

  function PushLowBit(x: bv8, bt: bv8): bv8 { (x << 1) + (bt & 1) }

  lemma PushLow(x: bv8, bt: bv8)
    ensures PushLowBit(x, bt) == Push(x, LsbFirst(bt)[0])
  {
  }

  /** The bits of a run of octets, the most significant bit of each first. */
  function Unpack(bytes: seq<bv8>): (bits: seq<bool>)
    ensures |bits| == 8 * |bytes|
  {
    if bytes == [] then [] else MsbFirst(bytes[0]) + Unpack(bytes[1..])
  }

  lemma {:induction false} UnpackAt(bytes: seq<bv8>, i: nat, k: nat)
    requires i < |bytes| && k < 8
    ensures Unpack(bytes)[8 * i + k] == MsbFirst(bytes[i])[k]
    decreases i
  {
    hide MsbFirst;
    var rest := Unpack(bytes[1..]);
    assert Unpack(bytes) == MsbFirst(bytes[0]) + rest;
    if i > 0 {
      UnpackAt(bytes[1..], i - 1, k);
      assert Unpack(bytes)[8 * i + k] == rest[8 * (i - 1) + k];
    }
  }

  lemma {:induction false} UnpackAppend(a: seq<bv8>, b: seq<bv8>)
    ensures Unpack(a + b) == Unpack(a) + Unpack(b)
    decreases |a|
  {
    hide MsbFirst;
    if a == [] {
      assert a + b == b;
    } else {
      assert (a + b)[1..] == a[1..] + b;
      UnpackAppend(a[1..], b);
    }
  }

  lemma UnpackOne(b: bv8)
    ensures Unpack([b]) == MsbFirst(b)
  {
    hide MsbFirst;
    assert [b][1..] == [];
    assert Unpack([b]) == MsbFirst(b) + [];
  }

  lemma UnpackCons(b: bv8, rest: seq<bv8>)
    ensures Unpack([b] + rest) == MsbFirst(b) + Unpack(rest)
  {
    hide MsbFirst;
    assert ([b] + rest)[1..] == rest;
  }

  /** `1 << (7 - i)`. */
  function Mask(i: nat): bv8
    requires i < 8
  {
    if i == 0 then 0x80 else if i == 1 then 0x40 else if i == 2 then 0x20 else if i == 3 then 0x10
    else if i == 4 then 0x08 else if i == 5 then 0x04 else if i == 6 then 0x02 else 0x01
  }

  function OrBit(x: bv8, i: nat): bv8
    requires i < 8
  {
    x | Mask(i)
  }

  lemma OrBitSets(x: bv8, i: nat)
    requires i < 8
    ensures MsbFirst(OrBit(x, i)) == MsbFirst(x)[i := true]
  {
    hide MsbFirst, Mask, OrBit;
    forall k | 0 <= k < 8 ensures MsbFirst(OrBit(x, i))[k] == (k == i || MsbFirst(x)[k]) {
      MsbFirstAt(x, k);
      MsbFirstAt(OrBit(x, i), k);
      OrMask(x, i, k);
    }
  }

  lemma OrMask(x: bv8, i: nat, k: nat)
    requires i < 8 && k < 8
    ensures OrBit(x, i) & Mask(k) != 0 <==> i == k || x & Mask(k) != 0
  {
  }

  lemma MsbFirstAt(x: bv8, k: nat)
    requires k < 8
    ensures MsbFirst(x)[k] <==> x & Mask(k) != 0
  {
  }

  /** Exclusive or of octets is bitwise. */
  lemma MsbXor(a: bv8, b: bv8)
    ensures forall k | 0 <= k < 8 :: MsbFirst(a ^ b)[k] == (MsbFirst(a)[k] != MsbFirst(b)[k])
  {
    hide MsbFirst, Mask;
    forall k | 0 <= k < 8 ensures MsbFirst(a ^ b)[k] == (MsbFirst(a)[k] != MsbFirst(b)[k]) {
      MsbFirstAt(a, k);
      MsbFirstAt(b, k);
      MsbFirstAt(a ^ b, k);
      XorMask(a, b, k);
    }
  }

  lemma XorMask(a: bv8, b: bv8, k: nat)
    requires k < 8
    ensures (a ^ b) & Mask(k) != 0 <==> (a & Mask(k) != 0) != (b & Mask(k) != 0)
  {
  }

  /** Exclusive or of `ks` onto the bits from `from` on. */
  function XorAt(bits: seq<bool>, from: nat, ks: seq<bool>): (r: seq<bool>)
    ensures |r| == |bits|
  {
    seq(|bits|, j requires 0 <= j < |bits| => if from <= j < from + |ks| then bits[j] != ks[j - from] else bits[j])
  }

  /** Exclusive or onto one octet is exclusive or onto its eight bits. */
  lemma UnpackXor(a: seq<bv8>, i: nat, v: bv8)
    requires i < |a|
    ensures Unpack(a[i := a[i] ^ v]) == XorAt(Unpack(a), 8 * i, MsbFirst(v))
  {
    hide MsbFirst;
    var a' := a[i := a[i] ^ v];
    MsbXor(a[i], v);
    forall j | 0 <= j < 8 * |a| ensures Unpack(a')[j] == XorAt(Unpack(a), 8 * i, MsbFirst(v))[j] {
      var p, k := j / 8, j % 8;
      assert j == 8 * p + k;
      UnpackAt(a, p, k);
      UnpackAt(a', p, k);
    }
  }

  lemma XorAtTwice(bits: seq<bool>, from: nat, a: seq<bool>, b: seq<bool>)
    ensures XorAt(XorAt(bits, from, a), from + |a|, b) == XorAt(bits, from, a + b)
  {
  }

  /** The octet spelt by eight bits, most significant first. */
  function Octet(bits: seq<bool>): bv8
    requires |bits| == 8
  {
    PushAll(0, bits)
  }

  lemma OctetOfBits(b: bv8)
    ensures Octet(MsbFirst(b)) == b
  {
    PushWindow(0, MsbFirst(b));
    assert (MsbFirst(0) + MsbFirst(b))[8..] == MsbFirst(b);
    MsbFirstInjective(Octet(MsbFirst(b)), b);
  }

  /** The octets spelt by a run of bits: the inverse of `Unpack`. */
  function Pack(bits: seq<bool>): (bytes: seq<bv8>)
    requires |bits| % 8 == 0
    ensures 8 * |bytes| == |bits|
  {
    if bits == [] then [] else [Octet(bits[..8])] + Pack(bits[8..])
  }

  lemma {:induction false} PackUnpack(bytes: seq<bv8>)
    ensures Pack(Unpack(bytes)) == bytes
    decreases |bytes|
  {
    hide MsbFirst, Octet;
    if bytes != [] {
      var bits := Unpack(bytes);
      assert bits[..8] == MsbFirst(bytes[0]) && bits[8..] == Unpack(bytes[1..]);
      OctetOfBits(bytes[0]);
      PackUnpack(bytes[1..]);
    }
  }

  /** `x | (bit << (7 - k))`. */
  function OrIn(x: bv8, bit: bool, k: nat): bv8
    requires k < 8
  {
    if bit then OrBit(x, k) else x
  }

  lemma OrInBits(x: bv8, bit: bool, k: nat)
    requires k < 8
    ensures MsbFirst(OrIn(x, bit, k)) == MsbFirst(x)[k := MsbFirst(x)[k] || bit]
  {
    hide MsbFirst, OrBit;
    if bit { OrBitSets(x, k); }
  }

  /** The first n of eight bits shifted into place and joined with or. */
  function OrFirst(b: seq<bool>, n: nat): bv8
    requires |b| == 8 && n <= 8
  {
    if n == 0 then 0 else OrIn(OrFirst(b, n - 1), b[n - 1], n - 1)
  }

  function OrEight(b: seq<bool>): bv8
    requires |b| == 8
  {
    OrFirst(b, 8)
  }

  lemma {:induction false} OrFirstBits(b: seq<bool>, n: nat)
    requires |b| == 8 && n <= 8
    ensures MsbFirst(OrFirst(b, n)) == b[..n] + Level(false, 8 - n)
  {
    if n == 0 {
      NoBitsSet();
    } else {
      hide MsbFirst, OrIn;
      OrFirstBits(b, n - 1);
      OrInBits(OrFirst(b, n - 1), b[n - 1], n - 1);
    }
  }

  lemma NoBitsSet()
    ensures MsbFirst(0) == Level(false, 8)
  {
  }

  lemma OrEightBits(b: seq<bool>)
    requires |b| == 8
    ensures MsbFirst(OrEight(b)) == b
  {
    hide MsbFirst, OrFirst;
    OrFirstBits(b, 8);
    assert b[..8] + Level(false, 0) == b;
  }
}
