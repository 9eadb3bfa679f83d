/** The 48-bit stream cipher of armsrc/hitag2_crypto.c. */
module Hitag2Cipher {
  import opened Bits

  // ---------------------------------------------------------------------
  // The register and its output filter
  // ---------------------------------------------------------------------

  function At(x: bv64, k: bv6): bv4 { ((x >> k) & 1) as bv4 }

  function I4(x: bv64, a: bv6, b: bv6, c: bv6, d: bv6): bv4 {
    At(x, a) + At(x, b) * 2 + At(x, c) * 4 + At(x, d) * 8
  }

  function F4a(i: bv4): bv5 { (((0x2C79 as bv16) >> i) & 1) as bv5 }
  function F4b(i: bv4): bv5 { (((0x6671 as bv16) >> i) & 1) as bv5 }

  /** The filter: one bit out of twenty of the register. */
  function F20(x: bv64): bool {
    var i5 := F4a(I4(x, 1, 2, 4, 5)) * 1
            + F4b(I4(x, 7, 11, 13, 14)) * 2
            + F4b(I4(x, 16, 20, 22, 25)) * 4
            + F4b(I4(x, 27, 28, 30, 32)) * 8
            + F4a(I4(x, 33, 42, 43, 45)) * 16;
    ((0x7907287B as bv32) >> i5) & 1 != 0
  }

  function Half(x: bv64): bv64 { x >> 1 }

  function LowBit(f: bv64, g: bv64): bv64 { (f ^ g) & 1 }

  function Xor4(a: bv64, b: bv64, c: bv64, d: bv64): bv64 { a ^ b ^ c ^ d }

  function Taps0(z: bv64): bv64 { (z >> 1) ^ (z >> 2) ^ (z >> 5) ^ (z >> 6) }
  function Taps1(z: bv64): bv64 { (z >> 7) ^ (z >> 15) ^ (z >> 21) ^ (z >> 22) }
  function Taps2(z: bv64): bv64 { (z >> 25) ^ (z >> 29) ^ (z >> 40) ^ (z >> 41) }
  function Taps3(z: bv64): bv64 { (z >> 42) ^ (z >> 45) ^ (z >> 46) }

  /** The feedback taps above the lowest bit. */
  function Taps(z: bv64): bv64 { Xor4(Taps0(z), Taps1(z), Taps2(z), Taps3(z)) }

  /** The bit fed back: taps 0, 2, 3, 6, 7, 8, 16, 22, 23, 26, 30, 41, 42, 43,
      46 and 47 of the register. */
  function Feedback(x: bv64): bv64 { LowBit(x, Taps(Half(x))) }

  function Load(x: bv64, f: bv64): bv64 { (x >> 1) + (f << 47) }

  /** Clock the register once. */
  function Round(x: bv64): bv64 { Load(x, Feedback(x)) }

  predicate Fits48(x: bv64) { x & 0xFFFF_0000_0000_0000 == 0 }

  function Unload(y: bv64): bv64 { (y << 1) & 0xFFFF_FFFF_FFFE }

  function Loaded(y: bv64): bv64 { y >> 47 }

  function Or(x: bv64, b: bv64): bv64 { x | b }

  /** Clock the register backwards: the bit shifted out is what the feedback
      needed of it. */
  function Unround(y: bv64): bv64 {
    Or(Unload(y), LowBit(Feedback(Unload(y)), Loaded(y)))
  }

  predicate Bit(f: bv64) { f == 0 || f == 1 }

  function Upper(x: bv64): bv64 { x & 0xFFFF_FFFF_FFFE }

  lemma FeedbackBit(x: bv64)
    ensures Bit(Feedback(x))
  {
    LowBitIsBit(x, Taps(Half(x)));
  }

  lemma LowBitIsBit(f: bv64, g: bv64)
    ensures Bit(LowBit(f, g))
  {
    assert (f ^ g) & 1 == 0 || (f ^ g) & 1 == 1;
  }

  lemma UnloadLoad(x: bv64, f: bv64)
    requires Fits48(x) && Bit(f)
    ensures Fits48(Load(x, f)) && Loaded(Load(x, f)) == f && Unload(Load(x, f)) == Upper(x)
  {
  }

  function Odd(x: bv64): bv64 { x & 1 }

  lemma UpperHalf(x: bv64)
    requires Fits48(x)
    ensures Half(Upper(x)) == Half(x)
  {
  }

  lemma LowBitDiffers(x: bv64, t: bv64)
    ensures LowBit(LowBit(Upper(x), t), LowBit(x, t)) == Odd(x)
  {
  }

  lemma LostBit(x: bv64)
    requires Fits48(x)
    ensures LowBit(Feedback(Upper(x)), Feedback(x)) == Odd(x)
  {
    hide Taps, Half, Odd, LowBit, Upper, Fits48;
    UpperHalf(x);
    LowBitDiffers(x, Taps(Half(x)));
  }

  lemma Rejoined(x: bv64)
    requires Fits48(x)
    ensures Or(Upper(x), Odd(x)) == x
  {
  }

  lemma UnroundRound(x: bv64)
    requires Fits48(x)
    ensures Fits48(Round(x)) && Unround(Round(x)) == x
  {
    hide Feedback, Fits48, Load, Unload, Loaded, LowBit, Upper, Or, Bit;
    FeedbackBit(x);
    UnloadLoad(x, Feedback(x));
    LostBit(x);
    Rejoined(x);
  }

  lemma LoadUnload(y: bv64, b: bv64)
    requires Fits48(y) && Bit(b)
    ensures Fits48(Or(Unload(y), b))
    ensures Load(Or(Unload(y), b), Loaded(y)) == y
  {
    hide Load, Unload, Loaded, Or;
    UnloadedHalf(y, b);
    Halves(y, Or(Unload(y), b));
  }

  lemma UnloadedHalf(y: bv64, b: bv64)
    requires Bit(b)
    ensures Fits48(Or(Unload(y), b)) && Half(Or(Unload(y), b)) == y & 0x7FFF_FFFF_FFFF
  {
    hide Fits48, Or, Unload, Half, Bit;
    UnloadFits(y);
    OrBitKeeps(Unload(y), b);
  }

  lemma UnloadFits(y: bv64)
    ensures Fits48(Unload(y)) && Half(Unload(y)) == y & 0x7FFF_FFFF_FFFF
  {
    assert ((y << 1) & 0xFFFF_FFFF_FFFE) & 0xFFFF_0000_0000_0000 == 0;
    assert ((y << 1) & 0xFFFF_FFFF_FFFE) >> 1 == y & 0x7FFF_FFFF_FFFF;
  }

  /** The lowest bit is no part of the upper half. */
  lemma OrBitKeeps(z: bv64, b: bv64)
    requires Bit(b)
    ensures Half(Or(z, b)) == Half(z) && (Fits48(Or(z, b)) <==> Fits48(z))
  {
    hide Or, Half, Fits48;
    if b == 0 { OrNone(z); } else { OrOne(z); }
  }

  lemma OrNone(z: bv64)
    ensures Or(z, 0) == z
  {
  }

  lemma OrOne(z: bv64)
    ensures Half(Or(z, 1)) == Half(z) && (Fits48(Or(z, 1)) <==> Fits48(z))
  {
    assert (z | 1) >> 1 == z >> 1;
    assert (z | 1) & 0xFFFF_0000_0000_0000 == z & 0xFFFF_0000_0000_0000;
  }

  lemma Halves(y: bv64, x: bv64)
    requires Fits48(y) && Half(x) == y & 0x7FFF_FFFF_FFFF
    ensures Load(x, Loaded(y)) == y
  {
    HalvesAdd(y);
  }

  lemma HalvesAdd(y: bv64)
    requires y & 0xFFFF_0000_0000_0000 == 0
    ensures (y & 0x7FFF_FFFF_FFFF) + ((y >> 47) << 47) == y
  {
  }

  lemma LoadedBit(y: bv64)
    requires Fits48(y)
    ensures Bit(Loaded(y))
  {
  }

  lemma FeedbackFlips(y: bv64)
    ensures Feedback(Or(Unload(y), 1)) == Flip(Feedback(Unload(y)))
  {
    hide Taps, Half, Odd, LowBit, Unload, Or;
    OddHalf(y);
    OddBit(y, Taps(Half(Unload(y))));
  }

  function Flip(b: bv64): bv64 { b ^ 1 }

  lemma OddHalf(y: bv64)
    ensures Half(Or(Unload(y), 1)) == Half(Unload(y))
  {
    assert (((y << 1) & 0xFFFF_FFFF_FFFE) | 1) >> 1 == ((y << 1) & 0xFFFF_FFFF_FFFE) >> 1;
  }

  lemma OddBit(y: bv64, t: bv64)
    ensures LowBit(Or(Unload(y), 1), t) == Flip(LowBit(Unload(y), t))
  {
  }

  lemma FoundBit(y: bv64, g: bv64)
    requires Bit(g)
    ensures var b := LowBit(Feedback(Unload(y)), g); Bit(b) && Feedback(Or(Unload(y), b)) == g
  {
    hide Feedback, Unload;
    FeedbackBit(Unload(y));
    if Feedback(Unload(y)) == g {
      assert LowBit(g, g) == 0;
      assert Or(Unload(y), 0) == Unload(y);
    } else {
      FeedbackFlips(y);
    }
  }

  lemma RoundUnround(y: bv64)
    requires Fits48(y)
    ensures Fits48(Unround(y)) && Round(Unround(y)) == y
  {
    hide Feedback, Fits48, Load, Unload, Loaded, LowBit, Upper, Or, Bit;
    LoadedBit(y);
    FoundBit(y, Loaded(y));
    LoadUnload(y, LowBit(Feedback(Unload(y)), Loaded(y)));
  }

  lemma Taps0Shift(x: bv64)
    ensures Taps0(x >> 1) & 1 == ((x >> 2) ^ (x >> 3) ^ (x >> 6) ^ (x >> 7)) & 1
  {
  }

  lemma Taps1Shift(x: bv64)
    ensures Taps1(x >> 1) & 1 == ((x >> 8) ^ (x >> 16) ^ (x >> 22) ^ (x >> 23)) & 1
  {
  }

  lemma Taps2Shift(x: bv64)
    ensures Taps2(x >> 1) & 1 == ((x >> 26) ^ (x >> 30) ^ (x >> 41) ^ (x >> 42)) & 1
  {
  }

  lemma Taps3Shift(x: bv64)
    ensures Taps3(x >> 1) & 1 == ((x >> 43) ^ (x >> 46) ^ (x >> 47)) & 1
  {
  }

  lemma LowBits(x: bv64, c0: bv64, c1: bv64, c2: bv64, c3: bv64)
    ensures LowBit(x, Xor4(c0, c1, c2, c3)) == (x ^ c0 ^ c1 ^ c2 ^ c3) & 1
  {
  }

  lemma Joined0(x: bv64)
    ensures (x ^ Taps0(x >> 1)) & 1
         == (x ^ (x >> 2) ^ (x >> 3) ^ (x >> 6) ^ (x >> 7)) & 1
  {
    hide Taps0, Taps1, Taps2, Taps3;
    Taps0Shift(x);
  }

  lemma Joined1(x: bv64)
    ensures (x ^ Taps0(x >> 1) ^ Taps1(x >> 1)) & 1
         == (x ^ (x >> 2) ^ (x >> 3) ^ (x >> 6) ^ (x >> 7) ^ (x >> 8) ^ (x >> 16) ^ (x >> 22) ^ (x >> 23)) & 1
  {
    hide Taps0, Taps1, Taps2, Taps3;
    Taps1Shift(x);
    Joined0(x);
  }

  lemma Joined2(x: bv64)
    ensures (x ^ Taps0(x >> 1) ^ Taps1(x >> 1) ^ Taps2(x >> 1)) & 1
         == (x ^ (x >> 2) ^ (x >> 3) ^ (x >> 6) ^ (x >> 7) ^ (x >> 8) ^ (x >> 16) ^ (x >> 22) ^ (x >> 23) ^ (x >> 26) ^ (x >> 30) ^ (x >> 41) ^ (x >> 42)) & 1
  {
    hide Taps0, Taps1, Taps2, Taps3;
    Taps2Shift(x);
    Joined1(x);
  }

  lemma Joined3(x: bv64)
    ensures (x ^ Taps0(x >> 1) ^ Taps1(x >> 1) ^ Taps2(x >> 1) ^ Taps3(x >> 1)) & 1
         == (x ^ (x >> 2) ^ (x >> 3) ^ (x >> 6) ^ (x >> 7) ^ (x >> 8) ^ (x >> 16) ^ (x >> 22) ^ (x >> 23) ^ (x >> 26) ^ (x >> 30) ^ (x >> 41) ^ (x >> 42) ^ (x >> 43) ^ (x >> 46) ^ (x >> 47)) & 1
  {
    hide Taps0, Taps1, Taps2, Taps3;
    Taps3Shift(x);
    Joined2(x);
  }

  /** The bit fed back is the exclusive or of sixteen bits of the register. */
  lemma FeedbackShifts(x: bv64)
    ensures Feedback(x)
         == ((x >> 0) ^ (x >> 2) ^ (x >> 3) ^ (x >> 6)
             ^ (x >> 7) ^ (x >> 8) ^ (x >> 16) ^ (x >> 22)
             ^ (x >> 23) ^ (x >> 26) ^ (x >> 30) ^ (x >> 41)
             ^ (x >> 42) ^ (x >> 43) ^ (x >> 46) ^ (x >> 47)) & 1
  {
    hide Xor4, LowBit, Taps0, Taps1, Taps2, Taps3;
    LowBits(x, Taps0(x >> 1), Taps1(x >> 1), Taps2(x >> 1), Taps3(x >> 1));
    Joined3(x);
  }

  /** Clocking permutes the 48-bit states: it can be undone, both ways. */
  lemma RoundIsPermutation(x: bv64)
    requires Fits48(x)
    ensures Fits48(Round(x)) && Unround(Round(x)) == x
    ensures Fits48(Unround(x)) && Round(Unround(x)) == x
  {
    hide Fits48, Round, Unround;
    UnroundRound(x);
    RoundUnround(x);
  }

  // ---------------------------------------------------------------------
  // The key stream
  // ---------------------------------------------------------------------

  /** The register after `n` clocks. */
  function Advance(x: bv64, n: nat): bv64
    decreases n
  {
    if n == 0 then x else Advance(Round(x), n - 1)
  }

  /** The next `n` bits of key stream. */
  function KeyBits(x: bv64, n: nat): (bits: seq<bool>)
    ensures |bits| == n
    decreases n
  {
    if n == 0 then [] else [F20(Round(x))] + KeyBits(Round(x), n - 1)
  }

  /** Key stream taken in pieces is key stream taken at once. */
  lemma {:induction false} KeySplit(x: bv64, m: nat, n: nat)
    ensures Advance(x, m + n) == Advance(Advance(x, m), n)
    ensures KeyBits(x, m + n) == KeyBits(x, m) + KeyBits(Advance(x, m), n)
    decreases m
  {
    hide Round, F20;
    if m > 0 {
      KeySplit(Round(x), m - 1, n);
      assert Advance(x, m + n) == Advance(Round(x), m - 1 + n);
      var k, a, b := [F20(Round(x))], KeyBits(Round(x), m - 1), KeyBits(Advance(x, m), n);
      assert KeyBits(x, m + n) == k + (a + b);
      assert k + (a + b) == k + a + b;
    }
  }

  lemma {:induction false} AdvanceFits(x: bv64, n: nat)
    requires Fits48(x)
    ensures Fits48(Advance(x, n))
    decreases n
  {
    hide Round, Fits48;
    if n > 0 {
      RoundIsPermutation(x);
      AdvanceFits(Round(x), n - 1);
    }
  }

  lemma KeyNext(x: bv64, n: nat)
    ensures Advance(x, n + 1) == Round(Advance(x, n))
    ensures KeyBits(x, n + 1) == KeyBits(x, n) + [F20(Round(Advance(x, n)))]
  {
    hide Round, F20;
    KeySplit(x, n, 1);
    var y := Advance(x, n);
    assert Advance(y, 1) == Advance(Round(y), 0);
    assert KeyBits(y, 1) == [F20(Round(y))] + KeyBits(Round(y), 0);
  }

  /** Eight bits of key stream as an octet, the first one on top. */
  method NextByte(x: bv64) returns (c: bv8, x': bv64)
    ensures x' == Advance(x, 8) && MsbFirst(c) == KeyBits(x, 8)
  {
    hide Round, F20, MsbFirst, OrBit, Advance, KeyBits, Level;
    x', c := x, 0;
    ZeroOctet();
    NoKey(x);
    for i := 0 to 8
      invariant x' == Advance(x, i) && MsbFirst(c) == KeyBits(x, i) + Level(false, 8 - i)
    {
      NextBit(x, c, i);
      x' := Round(x');
      if F20(x') {
        c := OrBit(c, i);
      }
    }
  }

  lemma NoKey(x: bv64)
    ensures Advance(x, 0) == x && KeyBits(x, 0) + Level(false, 8) == Level(false, 8)
    ensures KeyBits(x, 8) + Level(false, 0) == KeyBits(x, 8)
  {
    hide KeyBits;
    assert KeyBits(x, 0) == [] && Level(false, 0) == [];
  }

  lemma NextBit(x: bv64, c: bv8, i: nat)
    requires i < 8 && MsbFirst(c) == KeyBits(x, i) + Level(false, 8 - i)
    ensures var y := Round(Advance(x, i));
      Advance(x, i + 1) == y && MsbFirst(if F20(y) then OrBit(c, i) else c) == KeyBits(x, i + 1) + Level(false, 7 - i)
  {
    hide Round, F20, MsbFirst, OrBit, Advance, KeyBits;
    KeyNext(x, i);
    var b := F20(Round(Advance(x, i)));
    if b { OrBitSets(c, i); }
    assert (KeyBits(x, i) + Level(false, 8 - i))[i := b] == KeyBits(x, i + 1) + Level(false, 7 - i);
    if !b { assert (KeyBits(x, i) + Level(false, 8 - i))[i := false] == KeyBits(x, i) + Level(false, 8 - i); }
  }

  lemma ZeroOctet()
    ensures MsbFirst(0) == Level(false, 8)
  {
  }

  /** Encrypt or decrypt the first `8 * bytes + bits` bits of a buffer. */
  method Transcrypt(x: bv64, data: array<bv8>, bytes: nat, bits: nat) returns (x': bv64)
    requires bits < 8 && 8 * bytes + bits <= 8 * data.Length
    modifies data
    ensures x' == Advance(x, 8 * bytes + bits)
    ensures Unpack(data[..]) == XorAt(old(Unpack(data[..])), 0, KeyBits(x, 8 * bytes + bits))
  {
    hide Unpack, XorAt, KeyBits, Advance;
    x' := TranscryptBytes(x, data, bytes);
    x' := TranscryptBits(x', data, bytes, bits);
    KeySplit(x, 8 * bytes, bits);
    XorAtTwice(old(Unpack(data[..])), 0, KeyBits(x, 8 * bytes), KeyBits(Advance(x, 8 * bytes), bits));
  }

  method TranscryptBytes(x: bv64, data: array<bv8>, bytes: nat) returns (x': bv64)
    requires bytes <= data.Length
    modifies data
    ensures x' == Advance(x, 8 * bytes)
    ensures Unpack(data[..]) == XorAt(old(Unpack(data[..])), 0, KeyBits(x, 8 * bytes))
  {
    hide Round, F20, MsbFirst, Unpack, XorAt;
    ghost var plain := Unpack(data[..]);
    x' := x;
    XorNothing(plain, 0);
    for i := 0 to bytes
      invariant x' == Advance(x, 8 * i)
      invariant Unpack(data[..]) == XorAt(plain, 0, KeyBits(x, 8 * i))
    {
      KeySplit(x, 8 * i, 8);
      XorAtTwice(plain, 0, KeyBits(x, 8 * i), KeyBits(x', 8));
      var c;
      c, x' := NextByte(x');
      UnpackXor(data[..], i, c);
      data[i] := data[i] ^ c;
    }
  }

  method TranscryptBits(x: bv64, data: array<bv8>, bytes: nat, bits: nat) returns (x': bv64)
    requires bits < 8 && 8 * bytes + bits <= 8 * data.Length
    modifies data
    ensures x' == Advance(x, bits)
    ensures Unpack(data[..]) == XorAt(old(Unpack(data[..])), 8 * bytes, KeyBits(x, bits))
  {
    hide Round, F20, MsbFirst, Unpack, XorAt, Mask;
    ghost var plain := Unpack(data[..]);
    x' := x;
    XorNothing(plain, 8 * bytes);
    for i := 0 to bits
      invariant x' == Advance(x, i)
      invariant Unpack(data[..]) == XorAt(plain, 8 * bytes, KeyBits(x, i))
    {
      KeyNext(x, i);
      x' := Round(x');
      var v: bv8 := if F20(x') then Mask(i) else 0;
      UnpackXor(data[..], bytes, v);
      XorOneBit(Unpack(data[..]), bytes, i, F20(x'), v);
      XorAtTwice(plain, 8 * bytes, KeyBits(x, i), [F20(x')]);
      data[bytes] := data[bytes] ^ v;
    }
  }

  lemma XorNothing(bits: seq<bool>, from: nat)
    ensures XorAt(bits, from, []) == bits
  {
  }

  lemma XorOneBit(bits: seq<bool>, i: nat, k: nat, b: bool, v: bv8)
    requires k < 8 && v == if b then Mask(k) else 0
    ensures XorAt(bits, 8 * i, MsbFirst(v)) == XorAt(bits, 8 * i + k, [b])
  {
    hide MsbFirst, Mask;
    ZeroOctet();
    OnlyBit(k);
  }

  lemma OnlyBit(k: nat)
    requires k < 8
    ensures MsbFirst(Mask(k)) == Level(false, 8)[k := true]
  {
    hide MsbFirst, Mask;
    ZeroOctet();
    OrBitSets(0, k);
    OrZero(Mask(k));
  }

  lemma OrZero(m: bv8)
    ensures 0 | m == m
  {
  }

  // ---------------------------------------------------------------------
  // Keys
  // ---------------------------------------------------------------------

  function InitBit(x: bv64, key: bv64, iv: bv32, i: nat): bv64
    requires i < 32
  {
    var k := ((iv as bv64) >> i) ^ (key >> (i + 16));
    if F20(x) then LowBit(k, 1) else LowBit(k, 0)
  }

  /** Step `i` of the initialisation. */
  function InitStep(x: bv64, key: bv64, iv: bv32, i: nat): bv64
    requires i < 32
  {
    Load(x, InitBit(Half(x), key, iv, i))
  }

  /** The remaining steps of the initialisation, from step `i` on. */
  function InitFrom(x: bv64, key: bv64, iv: bv32, i: nat): bv64
    requires i <= 32
    decreases 32 - i
  {
    if i == 32 then x else InitFrom(InitStep(x, key, iv, i), key, iv, i + 1)
  }

  lemma InitDone(x: bv64, key: bv64, iv: bv32)
    ensures InitFrom(x, key, iv, 32) == x
  {
  }

  lemma InitNext(x: bv64, y: bv64, key: bv64, iv: bv32, i: nat)
    requires i < 32 && InitStep(x, key, iv, i) == y
    ensures InitFrom(x, key, iv, i) == InitFrom(y, key, iv, i + 1)
  {
  }

  function Seed(key: bv64, serial: bv32): bv64 { ((key & 0xFFFF) << 32) + (serial as bv64) }

  /** The register after mixing in key, serial number and initial vector. */
  function Init(key: bv64, serial: bv32, iv: bv32): bv64 {
    InitFrom(Seed(key, serial), key, iv, 0)
  }

  method Initialise(key: bv64, serial: bv32, iv: bv32) returns (x: bv64)
    ensures x == Init(key, serial, iv) && Fits48(x)
  {
    hide Seed, Load, Half, InitBit, Fits48;
    x := Seed(key, serial);
    SeedFits(key, serial);
    for i := 0 to 32
      invariant Fits48(x) && InitFrom(x, key, iv, i) == Init(key, serial, iv)
    {
      InitBitIsBit(Half(x), key, iv, i);
      UnloadLoad(x, InitBit(Half(x), key, iv, i));
      x := InitStep(x, key, iv, i);
    }
  }

  lemma InitBitIsBit(x: bv64, key: bv64, iv: bv32, i: nat)
    requires i < 32
    ensures Bit(InitBit(x, key, iv, i))
  {
    hide F20, LowBit;
    var k := ((iv as bv64) >> i) ^ (key >> (i + 16));
    LowBitIsBit(k, 0);
    LowBitIsBit(k, 1);
  }

  lemma SeedFits(key: bv64, serial: bv32)
    ensures Fits48(Seed(key, serial))
  {
    assert (((key & 0xFFFF) << 32) + (serial as bv64)) & 0xFFFF_0000_0000_0000 == 0;
  }

  function Rev8(b: bv8): bv8 {
    ((b >> 7) & 1) + (((b >> 6) & 1) << 1) + (((b >> 5) & 1) << 2) + (((b >> 4) & 1) << 3)
    + (((b >> 3) & 1) << 4) + (((b >> 2) & 1) << 5) + (((b >> 1) & 1) << 6) + ((b & 1) << 7)
  }

  /** REV32 of four octets read little-endian: every octet is reversed in place. */
  function Word32(b: seq<bv8>): bv32
    requires |b| == 4
  {
    (Rev8(b[0]) as bv32) | ((Rev8(b[1]) as bv32) << 8) | ((Rev8(b[2]) as bv32) << 16) | ((Rev8(b[3]) as bv32) << 24)
  }

  /** REV64 of six octets read little-endian. */
  function Word48(b: seq<bv8>): bv64
    requires |b| == 6
  {
    (Rev8(b[0]) as bv64) | ((Rev8(b[1]) as bv64) << 8) | ((Rev8(b[2]) as bv64) << 16)
    | ((Rev8(b[3]) as bv64) << 24) | ((Rev8(b[4]) as bv64) << 32) | ((Rev8(b[5]) as bv64) << 40)
  }

  /** A zero vector is still zero after reversal, so a reader that mixes in zero
      directly agrees with a tag that takes it from the air. */
  lemma ZeroVector()
    ensures Word32([0, 0, 0, 0]) == 0
  {
  }
}
