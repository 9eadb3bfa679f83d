/** The two CRC-8 implementations of armsrc/hitag2.c and armsrc/hitagS.c, and
    the select frames built with them. */
module HitagCrc {
  import opened Types
  import opened Bits

  const CRC_PRESET: bv8 := 0xFF
  const CRC_POLYNOM: bv8 := 0x1D

  // ---------------------------------------------------------------------
  // The reference: bit-serial CRC-8, polynomial 1D, most significant bit first
  // ---------------------------------------------------------------------

  predicate Top(a: bv8) { a & 0x80 != 0 }

  function Shl1(a: bv8): bv8 { a << 1 }

  function Poly(a: bv8): bv8 { a ^ CRC_POLYNOM }

  function Step(crc: bv8, bit: bool): bv8 {
    if Top(crc) != bit then Poly(Shl1(crc)) else Shl1(crc)
  }

  function Crc(crc: bv8, bits: seq<bool>): bv8
    decreases |bits|
  {
    if bits == [] then crc else Crc(Step(crc, bits[0]), bits[1..])
  }

  lemma {:induction false} CrcAppend(crc: bv8, a: seq<bool>, b: seq<bool>)
    ensures Crc(crc, a + b) == Crc(Crc(crc, a), b)
    decreases |a|
  {
    hide Step;
    if a == [] {
      assert a + b == b;
    } else {
      assert (a + b)[1..] == a[1..] + b;
      CrcAppend(Step(crc, a[0]), a[1..], b);
    }
  }

  // ---------------------------------------------------------------------
  // Both implementations fold in a group of bits and shift it through
  // ---------------------------------------------------------------------

  function Shift(crc: bv8): bv8 {
    if Top(crc) then Poly(Shl1(crc)) else Shl1(crc)
  }

  function Shifts(crc: bv8, n: nat): bv8
    decreases n
  {
    if n == 0 then crc else Shifts(Shift(crc), n - 1)
  }

  lemma ShiftsSnoc(crc: bv8, n: nat)
    ensures Shifts(crc, n + 1) == Shift(Shifts(crc, n))
    decreases n
  {
    hide Shift;
    if n > 0 { ShiftsSnoc(Shift(crc), n - 1); }
  }

  /** The code is linear: what is folded in ahead of time comes out as if it
      had been fed in bit by bit. */
  lemma ShiftFolds(crc: bv8, data: bv8)
    ensures Shift(XorOctet(crc, data)) == XorOctet(Step(crc, Top(data)), Shl1(data))
  {
    hide Top, Shl1, XorOctet, Poly;
    XorShl1(crc, data);
    XorTop(crc, data);
    XorPoly(Shl1(crc), Shl1(data));
  }

  lemma XorShl1(a: bv8, b: bv8)
    ensures Shl1(XorOctet(a, b)) == XorOctet(Shl1(a), Shl1(b))
  {
    assert (a ^ b) << 1 == (a << 1) ^ (b << 1);
  }

  lemma XorTop(a: bv8, b: bv8)
    ensures Top(XorOctet(a, b)) <==> Top(a) != Top(b)
  {
    assert ((a ^ b) & 0x80 != 0) == ((a & 0x80 != 0) != (b & 0x80 != 0));
  }

  lemma XorPoly(a: bv8, b: bv8)
    ensures Poly(XorOctet(a, b)) == XorOctet(Poly(a), b)
  {
    assert (a ^ b) ^ 0x1D == (a ^ 0x1D) ^ b;
  }

  lemma Shl1Bits(a: bv8)
    ensures MsbFirst(Shl1(a)) == MsbFirst(a)[1..] + [false] && Top(a) == MsbFirst(a)[0]
  {
    assert ((a << 1) & 128 != 0) == (a & 64 != 0) && ((a << 1) & 64 != 0) == (a & 32 != 0);
    assert ((a << 1) & 32 != 0) == (a & 16 != 0) && ((a << 1) & 16 != 0) == (a & 8 != 0);
    assert ((a << 1) & 8 != 0) == (a & 4 != 0) && ((a << 1) & 4 != 0) == (a & 2 != 0);
    assert ((a << 1) & 2 != 0) == (a & 1 != 0) && (a << 1) & 1 == 0;
  }

  /** `n` bits at the top of an octet, zeros below. */
  predicate LeftAligned(data: bv8, n: nat) {
    n <= 8 && MsbFirst(data)[n..] == Level(false, 8 - n)
  }

  lemma XorZero(crc: bv8, data: bv8)
    requires MsbFirst(data) == Level(false, 8)
    ensures XorOctet(crc, data) == crc
  {
    assert data == 0 by {
      assert MsbFirst(0) == Level(false, 8);
      MsbFirstInjective(data, 0);
    }
    assert crc ^ 0 == crc;
  }

  /** A left-aligned group, folded in and shifted through, is its bits fed in
      one by one. */
  lemma {:induction false} GroupCrc(crc: bv8, data: bv8, n: nat)
    requires LeftAligned(data, n)
    ensures Shifts(XorOctet(crc, data), n) == Crc(crc, MsbFirst(data)[..n])
    decreases n
  {
    hide Shift, Step, XorOctet, Shl1, Top, MsbFirst;
    if n == 0 {
      XorZero(crc, data);
    } else {
      ShiftFolds(crc, data);
      Shl1Bits(data);
      var m := MsbFirst(data);
      assert MsbFirst(Shl1(data))[n - 1..] == m[n..] + [false] == Level(false, 8 - (n - 1));
      GroupCrc(Step(crc, Top(data)), Shl1(data), n - 1);
      assert m[..n][1..] == MsbFirst(Shl1(data))[..n - 1];
    }
  }

  /** `calc_crc` of armsrc/hitagS.c: fold in one group of 1 to 8 bits. */
  method CalcCrc(crc: bv8, data: bv8, bitcount: nat) returns (r: bv8)
    requires 1 <= bitcount <= 8
    ensures r == Shifts(XorOctet(crc, data), bitcount)
    ensures LeftAligned(data, bitcount) ==> r == Crc(crc, MsbFirst(data)[..bitcount])
  {
    hide Shift, XorOctet;
    r := XorOctet(crc, data);
    var left := bitcount;
    while left > 0
      invariant left <= bitcount && r == Shifts(XorOctet(crc, data), bitcount - left)
    {
      ShiftsSnoc(XorOctet(crc, data), bitcount - left);
      r := Shift(r);
      left := left - 1;
    }
    if LeftAligned(data, bitcount) {
      GroupCrc(crc, data, bitcount);
    }
  }

  /** A group of bits as `calc_crc` takes it. */
  datatype Group = Group(data: bv8, count: nat)

  predicate GoodGroup(g: Group) { 1 <= g.count <= 8 && LeftAligned(g.data, g.count) }

  function GroupBits(groups: seq<Group>): seq<bool>
    requires forall k | 0 <= k < |groups| :: GoodGroup(groups[k])
  {
    if groups == [] then []
    else
      var g := groups[0];
      assert GoodGroup(g);
      MsbFirst(g.data)[..g.count] + GroupBits(groups[1..])
  }

  function GroupsCrc(crc: bv8, groups: seq<Group>): bv8
    decreases |groups|
  {
    if groups == [] then crc
    else GroupsCrc(Shifts(XorOctet(crc, groups[0].data), groups[0].count), groups[1..])
  }

  /** However a bit string is cut into groups, the result is its CRC. */
  lemma {:induction false} CutsDoNotMatter(crc: bv8, groups: seq<Group>)
    requires forall k | 0 <= k < |groups| :: GoodGroup(groups[k])
    ensures GroupsCrc(crc, groups) == Crc(crc, GroupBits(groups))
    decreases |groups|
  {
    hide Shifts, XorOctet, MsbFirst, Step;
    if groups != [] {
      var g := groups[0];
      GroupCrc(crc, g.data, g.count);
      CrcAppend(crc, MsbFirst(g.data)[..g.count], GroupBits(groups[1..]));
      CutsDoNotMatter(Shifts(XorOctet(crc, g.data), g.count), groups[1..]);
    }
  }

  /** `hitag_crc` of armsrc/hitag2.c: whole octets, and the rest of the last. */
  method HitagCrc(data: seq<bv8>, length: nat) returns (crc: bv8)
    requires length <= 8 * |data|
    requires forall j | length <= j < 8 * |data| :: !Unpack(data)[j]
    ensures crc == Crc(CRC_PRESET, Unpack(data)[..length])
    ensures MsbFirst(crc) == Remainder(XorAt(Unpack(data)[..length] + Level(false, 8), 0, Level(true, 8)))
  {
    hide Shift, XorOctet, Step, MsbFirst, Unpack, Remainder, XorAt;
    PresetRemainder(Unpack(data)[..length]);
    crc := CRC_PRESET;
    var byte := 0;
    while byte < (length + 7) / 8
      invariant 0 <= byte <= (length + 7) / 8
      invariant crc == Crc(CRC_PRESET, Unpack(data)[..if 8 * byte < length then 8 * byte else length])
    {
      var bit := if length < 8 * (byte + 1) then length % 8 else 8;
      ghost var bits := Unpack(data)[..8 * byte];
      OctetAt(data, byte);
      assert LeftAligned(data[byte], bit) by { RestIsZero(data, byte, length, bit); }
      GroupCrc(crc, data[byte], bit);
      CrcAppend(CRC_PRESET, bits, MsbFirst(data[byte])[..bit]);
      FirstBits(data, byte, bit);
      crc := XorOctet(crc, data[byte]);
      ghost var folded := crc;
      var left := bit;
      while left > 0
        invariant left <= bit && crc == Shifts(folded, bit - left)
      {
        ShiftsSnoc(folded, bit - left);
        crc := Shift(crc);
        left := left - 1;
      }
      byte := byte + 1;
    }
  }

  lemma FirstBits(data: seq<bv8>, i: nat, n: nat)
    requires i < |data| && n <= 8
    ensures Unpack(data)[..8 * i] + MsbFirst(data[i])[..n] == Unpack(data)[..8 * i + n]
  {
    hide MsbFirst, Unpack;
    OctetAt(data, i);
    var s := Unpack(data);
    assert s[..8 * i + n] == s[..8 * i] + s[8 * i..8 * i + n];
    assert s[8 * i..8 * i + 8][..n] == s[8 * i..8 * i + n];
  }

  lemma OctetAt(data: seq<bv8>, i: nat)
    requires i < |data|
    ensures Unpack(data)[8 * i..8 * i + 8] == MsbFirst(data[i])
  {
    hide MsbFirst;
    var s := Unpack(data)[8 * i..8 * i + 8];
    forall k | 0 <= k < 8 ensures s[k] == MsbFirst(data[i])[k] {
      UnpackAt(data, i, k);
    }
  }

  lemma RestIsZero(data: seq<bv8>, i: nat, length: nat, n: nat)
    requires i < |data| && n <= 8 && (n == 8 || 8 * i + n == length)
    requires forall j | length <= j < 8 * |data| :: !Unpack(data)[j]
    ensures LeftAligned(data[i], n)
  {
    hide MsbFirst;
    forall k | n <= k < 8 ensures !MsbFirst(data[i])[k] {
      UnpackAt(data, i, k);
    }
  }

  /** A message followed by its CRC leaves residue zero. */
  lemma Residue(crc: bv8, bits: seq<bool>)
    ensures var c := Crc(crc, bits); Crc(crc, bits + MsbFirst(c)) == 0
  {
    hide MsbFirst, Step, Shifts;
    var c := Crc(crc, bits);
    CrcAppend(crc, bits, MsbFirst(c));
    assert MsbFirst(c)[8..] == Level(false, 0) && MsbFirst(c)[..8] == MsbFirst(c);
    GroupCrc(c, c, 8);
    assert XorOctet(c, c) == 0 by { assert c ^ c == 0; }
    ShiftsZero(8);
  }

  lemma ShiftsZero(n: nat)
    ensures Shifts(0, n) == 0
  {
    assert Shift(0) == 0;
    if n > 0 { ShiftsZero(n - 1); }
  }

  // ---------------------------------------------------------------------
  // Division by x^8 + x^4 + x^3 + x^2 + 1
  // ---------------------------------------------------------------------

  /** The coefficients of the generator below the leading one. */
  function Generator(): (g: seq<bool>)
    ensures |g| == 8
  {
    [false, false, false, true, true, true, false, true]
  }

  /** Long division over GF(2): the leading coefficient is taken away with a multiple of the generator. */
  function Remainder(bits: seq<bool>): (r: seq<bool>)
    requires |bits| >= 8
    ensures |r| == 8
    decreases |bits|
  {
    if |bits| == 8 then bits
    else Remainder(if bits[0] then XorAt(bits[1..], 0, Generator()) else bits[1..])
  }

  /** One clock of the register is one step of the division. */
  lemma StepDivides(crc: bv8, bit: bool, k: nat)
    requires k < 8
    ensures MsbFirst(Step(crc, bit))[k]
      == ((k < 7 && MsbFirst(crc)[k + 1]) != (MsbFirst(crc)[0] != bit && Generator()[k]))
  {
    hide MsbFirst, Poly, Shl1, Generator;
    Shl1Bits(crc);
    PolyBits(Shl1(crc), k);
  }

  lemma PolyBits(a: bv8, k: nat)
    requires k < 8
    ensures MsbFirst(Poly(a))[k] == (MsbFirst(a)[k] != Generator()[k])
  {
    hide MsbFirst;
    MsbXor(a, 0x1D);
    PolynomBits();
  }

  lemma PolynomBits()
    ensures MsbFirst(0x1D) == Generator()
  {
  }

  /**
   * The CRC of a message is the remainder of the message, eight zeros behind it and
   * the preset added to its head, in the division by the generator.
   */
  lemma {:induction false} CrcIsRemainder(crc: bv8, m: seq<bool>)
    ensures MsbFirst(Crc(crc, m)) == Remainder(XorAt(m + Level(false, 8), 0, MsbFirst(crc)))
    decreases |m|
  {
    hide MsbFirst, Step, Generator;
    var bits := XorAt(m + Level(false, 8), 0, MsbFirst(crc));
    if m == [] {
      assert bits == MsbFirst(crc);
    } else {
      CrcIsRemainder(Step(crc, m[0]), m[1..]);
      NextDividend(crc, m);
    }
  }

  /** All ones are added to the head. */
  lemma PresetRemainder(m: seq<bool>)
    ensures MsbFirst(Crc(CRC_PRESET, m)) == Remainder(XorAt(m + Level(false, 8), 0, Level(true, 8)))
  {
    hide Crc, Remainder, XorAt;
    CrcIsRemainder(CRC_PRESET, m);
    assert MsbFirst(CRC_PRESET) == Level(true, 8);
  }

  lemma NextDividend(crc: bv8, m: seq<bool>)
    requires m != []
    ensures var bits := XorAt(m + Level(false, 8), 0, MsbFirst(crc));
      XorAt(m[1..] + Level(false, 8), 0, MsbFirst(Step(crc, m[0])))
      == if bits[0] then XorAt(bits[1..], 0, Generator()) else bits[1..]
  {
    hide MsbFirst, Step, Generator;
    var z := Level(false, 8);
    var bits := XorAt(m + z, 0, MsbFirst(crc));
    var a := XorAt(m[1..] + z, 0, MsbFirst(Step(crc, m[0])));
    var b := if bits[0] then XorAt(bits[1..], 0, Generator()) else bits[1..];
    assert m[1..] + z == (m + z)[1..];
    forall j | 0 <= j < |a| ensures a[j] == b[j] {
      if j < 8 { StepDivides(crc, m[0], j); }
    }
  }

  // ---------------------------------------------------------------------
  // Select frames: five zeros, the serial number and the CRC of both
  // ---------------------------------------------------------------------

  function SelectMessage(uid: seq<bv8>): (m: seq<bool>)
    ensures |m| == 5 + 8 * |uid|
  {
    Level(false, 5) + Unpack(uid)
  }

  /** The 45 bits of the select frame, and three zeros to fill the last octet. */
  function SelectBits(uid: seq<bv8>): seq<bool> {
    SelectMessage(uid) + MsbFirst(Crc(CRC_PRESET, SelectMessage(uid))) + Level(false, 3)
  }

  function Shr5(a: bv8): bv8 { a >> 5 }
  function Shl3(a: bv8): bv8 { a << 3 }
  function Or(a: bv8, b: bv8): bv8 { a | b }

  lemma Shr5Raw(a: bv8)
    ensures (a >> 5) & 128 == 0
    ensures (a >> 5) & 64 == 0
    ensures (a >> 5) & 32 == 0
    ensures (a >> 5) & 16 == 0
    ensures (a >> 5) & 8 == 0
    ensures (a >> 5) & 4 != 0 <==> a & 128 != 0
    ensures (a >> 5) & 2 != 0 <==> a & 64 != 0
    ensures (a >> 5) & 1 != 0 <==> a & 32 != 0
  {
  }

  lemma Shr5Bits(a: bv8)
    ensures MsbFirst(Shr5(a)) == Level(false, 5) + MsbFirst(a)[..3]
  {
    Shr5Raw(a);
    EightBits(MsbFirst(Shr5(a)), Level(false, 5) + MsbFirst(a)[..3]);
  }

  /** Sequences of eight bits that agree bit by bit. */
  lemma EightBits(a: seq<bool>, b: seq<bool>)
    requires |a| == |b| == 8
    requires a[0] == b[0] && a[1] == b[1] && a[2] == b[2] && a[3] == b[3]
    requires a[4] == b[4] && a[5] == b[5] && a[6] == b[6] && a[7] == b[7]
    ensures a == b
  {
  }

  lemma Shl3Raw(a: bv8)
    ensures (a << 3) & 128 != 0 <==> a & 16 != 0
    ensures (a << 3) & 64 != 0 <==> a & 8 != 0
    ensures (a << 3) & 32 != 0 <==> a & 4 != 0
    ensures (a << 3) & 16 != 0 <==> a & 2 != 0
    ensures (a << 3) & 8 != 0 <==> a & 1 != 0
    ensures (a << 3) & 4 == 0
    ensures (a << 3) & 2 == 0
    ensures (a << 3) & 1 == 0
  {
  }

  lemma Shl3Bits(a: bv8)
    ensures MsbFirst(Shl3(a)) == MsbFirst(a)[3..] + Level(false, 3)
  {
    Shl3Raw(a);
    EightBits(MsbFirst(Shl3(a)), MsbFirst(a)[3..] + Level(false, 3));
  }

  lemma OrBits(a: bv8, b: bv8)
    ensures forall k | 0 <= k < 8 :: MsbFirst(Or(a, b))[k] == (MsbFirst(a)[k] || MsbFirst(b)[k])
  {
    hide MsbFirst, Mask;
    forall k | 0 <= k < 8 ensures MsbFirst(Or(a, b))[k] == (MsbFirst(a)[k] || MsbFirst(b)[k]) {
      MsbFirstAt(a, k);
      MsbFirstAt(b, k);
      MsbFirstAt(Or(a, b), k);
      OrMasked(a, b, k);
    }
  }

  lemma OrMasked(a: bv8, b: bv8, k: nat)
    requires k < 8
    ensures Or(a, b) & Mask(k) != 0 <==> (a & Mask(k) != 0) || (b & Mask(k) != 0)
  {
  }

  lemma JoinBits(a: bv8, b: bv8)
    ensures MsbFirst(Or(Shl3(a), Shr5(b))) == MsbFirst(a)[3..] + MsbFirst(b)[..3]
  {
    hide MsbFirst, Or, Shl3, Shr5;
    Shl3Bits(a);
    Shr5Bits(b);
    OrBits(Shl3(a), Shr5(b));
  }

  /** The select frame of armsrc/hitag2.c. */
  method SelectFrame2(rx: seq<bv8>) returns (tx: seq<bv8>)
    requires |rx| == 4
    ensures |tx| == 6 && Unpack(tx) == SelectBits(rx)
  {
    hide MsbFirst, Or, Shl3, Shr5, Crc, Unpack;
    var head := [Shr5(rx[0]), Or(Shl3(rx[0]), Shr5(rx[1])), Or(Shl3(rx[1]), Shr5(rx[2])), Or(Shl3(rx[2]), Shr5(rx[3])), Shl3(rx[3])];
    SelectHead(rx, head);
    var crc := HitagCrc(head, 37);
    tx := [head[0], head[1], head[2], head[3], Or(head[4], Shr5(crc)), Shl3(crc)];
    SelectTail(rx, head, crc, tx);
  }

  lemma Unpack4(b: seq<bv8>)
    requires |b| == 4
    ensures Unpack(b) == MsbFirst(b[0]) + MsbFirst(b[1]) + MsbFirst(b[2]) + MsbFirst(b[3])
  {
    hide MsbFirst, Unpack;
    assert b == [b[0]] + b[1..] && b[1..] == [b[1]] + b[2..] && b[2..] == [b[2]] + [b[3]];
    UnpackCons(b[0], b[1..]);
    UnpackCons(b[1], b[2..]);
    UnpackCons(b[2], [b[3]]);
    UnpackOne(b[3]);
    var m0, m1, m2, m3 := MsbFirst(b[0]), MsbFirst(b[1]), MsbFirst(b[2]), MsbFirst(b[3]);
    assert m0 + (m1 + (m2 + m3)) == m0 + m1 + m2 + m3;
  }

  lemma SelectHead(rx: seq<bv8>, head: seq<bv8>)
    requires |rx| == 4 && |head| == 5
    requires head == [Shr5(rx[0]), Or(Shl3(rx[0]), Shr5(rx[1])), Or(Shl3(rx[1]), Shr5(rx[2])), Or(Shl3(rx[2]), Shr5(rx[3])), Shl3(rx[3])]
    ensures Unpack(head) == SelectMessage(rx) + Level(false, 3)
    ensures Unpack(head)[..37] == SelectMessage(rx)
  {
    hide MsbFirst, Or, Shl3, Shr5, Unpack, Level;
    Shr5Bits(rx[0]);
    JoinBits(rx[0], rx[1]);
    JoinBits(rx[1], rx[2]);
    JoinBits(rx[2], rx[3]);
    Shl3Bits(rx[3]);
    assert head == head[..4] + [head[4]];
    UnpackAppend(head[..4], [head[4]]);
    UnpackOne(head[4]);
    Unpack4(head[..4]);
    Unpack4(rx);
    var a, b, c, d := MsbFirst(rx[0]), MsbFirst(rx[1]), MsbFirst(rx[2]), MsbFirst(rx[3]);
    assert Unpack(head) == (Level(false, 5) + a[..3]) + (a[3..] + b[..3]) + (b[3..] + c[..3]) + (c[3..] + d[..3])
                           + (d[3..] + Level(false, 3));
    Realigned(a, b, c, d);
    assert SelectMessage(rx) == Level(false, 5) + (a + b + c + d);
    Prefix(SelectMessage(rx), Level(false, 3));
  }

  lemma Prefix(a: seq<bool>, b: seq<bool>)
    ensures (a + b)[..|a|] == a
  {
  }

  lemma Realigned(a: seq<bool>, b: seq<bool>, c: seq<bool>, d: seq<bool>)
    requires |a| == |b| == |c| == |d| == 8
    ensures (Level(false, 5) + a[..3]) + (a[3..] + b[..3]) + (b[3..] + c[..3]) + (c[3..] + d[..3]) + (d[3..] + Level(false, 3))
         == Level(false, 5) + (a + b + c + d) + Level(false, 3)
  {
  }

  lemma SelectTail(rx: seq<bv8>, head: seq<bv8>, crc: bv8, tx: seq<bv8>)
    requires |rx| == 4 && |head| == 5
    requires Unpack(head) == SelectMessage(rx) + Level(false, 3)
    requires crc == Crc(CRC_PRESET, SelectMessage(rx))
    requires tx == [head[0], head[1], head[2], head[3], Or(head[4], Shr5(crc)), Shl3(crc)]
    ensures Unpack(tx) == SelectBits(rx)
  {
    hide MsbFirst, Or, Shl3, Shr5, Unpack, Crc, SelectMessage;
    var m := SelectMessage(rx);
    var front, x, y := head[..4], Or(head[4], Shr5(crc)), Shl3(crc);
    assert |m| == 37;
    UnpackLast(front, head[4], head);
    Cut(Unpack(front), MsbFirst(head[4]), m);
    TailBits(head[4], crc, m[32..]);
    Shl3Bits(crc);
    UnpackLast(front, x, front + [x]);
    UnpackLast(front + [x], y, tx);
    var c := MsbFirst(crc);
    assert m[..32] + (m[32..] + c[..3]) + (c[3..] + Level(false, 3)) == m + c + Level(false, 3);
  }

  lemma UnpackLast(front: seq<bv8>, b: bv8, all: seq<bv8>)
    requires all == front + [b]
    ensures Unpack(all) == Unpack(front) + MsbFirst(b)
  {
    hide MsbFirst, Unpack;
    UnpackAppend(front, [b]);
    UnpackOne(b);
  }

  lemma Cut(a: seq<bool>, b: seq<bool>, m: seq<bool>)
    requires |a| == 32 && |b| == 8 && |m| == 37 && a + b == m + Level(false, 3)
    ensures a == m[..32] && b == m[32..] + Level(false, 3)
  {
    assert a == (a + b)[..32] && b == (a + b)[32..];
  }

  lemma TailBits(last: bv8, crc: bv8, five: seq<bool>)
    requires |five| == 5 && MsbFirst(last) == five + Level(false, 3)
    ensures MsbFirst(Or(last, Shr5(crc))) == five + MsbFirst(crc)[..3]
  {
    hide MsbFirst, Or, Shr5;
    OrBits(last, Shr5(crc));
    Shr5Bits(crc);
  }

  /** The bits of the answer, one array entry each. */
  method SpellBits(rx: seq<bv8>, bits: array<bool>)
    requires |rx| >= 10 && bits.Length == 200
    modifies bits
    ensures bits[..80] == Unpack(rx[..10])
  {
    hide MsbFirst, Unpack, Mask;
    var z := 0;
    var i := 0;
    while i < 10
      invariant 0 <= i <= 10 && z == 8 * i && bits[..z] == Unpack(rx[..i])
    {
      ghost var done := bits[..z];
      var j := 0;
      while j < 8
        invariant 0 <= j <= 8 && z == 8 * i + j
        invariant bits[..8 * i] == done && bits[8 * i..z] == MsbFirst(rx[i])[..j]
      {
        MsbFirstAt(rx[i], j);
        bits[z] := rx[i] & Mask(j) != 0;
        z := z + 1;
        j := j + 1;
      }
      assert rx[..i + 1] == rx[..i] + [rx[i]];
      UnpackLast(rx[..i], rx[i], rx[..i + 1]);
      assert bits[..z] == done + bits[8 * i..z];
      i := i + 1;
    }
  }

  /** Every bit of the serial number was sampled twice, behind five bits of SOF. */
  method TakeUid(bits: array<bool>) returns (uid: seq<bool>)
    requires bits.Length == 200
    ensures |uid| == 32 && forall k :: 0 <= k < 32 ==> uid[k] == bits[5 + 2 * k]
  {
    uid := [];
    var i := 5;
    while i < 80
      invariant i == 5 + 2 * |uid| && |uid| <= 31
      invariant forall k :: 0 <= k < |uid| ==> uid[k] == bits[5 + 2 * k]
    {
      uid := uid + [bits[i]];
      if |uid| > 31 { break; }
      i := i + 2;
    }
  }

  /** Five zeros, the serial number, the CRC by its masks, and zeros. */
  method LayOut(uid: seq<bool>, crc: bv8, bits: array<bool>)
    requires |uid| == 32 && bits.Length == 200
    modifies bits
    ensures bits[..48] == Level(false, 5) + uid + MsbFirst(crc) + Level(false, 3)
  {
    hide MsbFirst, Mask;
    var i := 0;
    while i < 100
      invariant 0 <= i <= 100 && forall k :: 0 <= k < i ==> !bits[k]
    {
      bits[i] := false;
      i := i + 1;
    }
    i := 5;
    while i < 37
      invariant 5 <= i <= 37 && bits[5..i] == uid[..i - 5]
      invariant forall k :: 0 <= k < 100 && (k < 5 || i <= k) ==> !bits[k]
    {
      bits[i] := uid[i - 5];
      i := i + 1;
    }
    assert bits[5..37] == uid;
    var j := 0;
    while j < 8
      invariant 0 <= j <= 8 && i == 37 + j
      invariant bits[5..37] == uid && bits[37..i] == MsbFirst(crc)[..j]
      invariant forall k :: 0 <= k < 100 && (k < 5 || i <= k) ==> !bits[k]
    {
      MsbFirstAt(crc, j);
      bits[i] := crc & Mask(j) != 0;
      i := i + 1;
      j := j + 1;
    }
    assert bits[37..45] == MsbFirst(crc) && bits[..5] == Level(false, 5) && bits[45..48] == Level(false, 3);
    assert bits[..48] == bits[..5] + bits[5..37] + bits[37..45] + bits[45..48];
  }

  /** Six octets from 48 entries. */
  method PackSix(bits: array<bool>) returns (tx: seq<bv8>)
    requires bits.Length == 200
    ensures |tx| == 6 && Unpack(tx) == bits[..48]
  {
    hide MsbFirst, Unpack, OrEight;
    tx := [];
    UnpackNone();
    var k := 0;
    while |tx| < 6
      invariant |tx| <= 6 && k == 8 * |tx| && Unpack(tx) == bits[..k]
      decreases 6 - |tx|
    {
      OrEightBits(bits[k..k + 8]);
      UnpackLast(tx, OrEight(bits[k..k + 8]), tx + [OrEight(bits[k..k + 8])]);
      assert bits[..k + 8] == bits[..k] + bits[k..k + 8];
      tx := tx + [OrEight(bits[k..k + 8])];
      k := k + 8;
    }
  }

  lemma UnpackNone()
    ensures Unpack([]) == []
  {
  }

  /** The octets of the serial number. */
  method UidOctets(uid: seq<bool>) returns (octets: seq<bv8>)
    requires |uid| == 32
    ensures |octets| == 4 && Unpack(octets) == uid
  {
    hide MsbFirst, Unpack, OrEight;
    octets := [OrEight(uid[0..8]), OrEight(uid[8..16]), OrEight(uid[16..24]), OrEight(uid[24..32])];
    OrEightBits(uid[0..8]);
    OrEightBits(uid[8..16]);
    OrEightBits(uid[16..24]);
    OrEightBits(uid[24..32]);
    Unpack4(octets);
    assert uid == uid[0..8] + uid[8..16] + uid[16..24] + uid[24..32];
  }

  /** The select frame of armsrc/hitagS.c, from the answer to the UID request:
      CRC over groups, then packed from an array of single bits. */
  method SelectFrameS(rx: seq<bv8>) returns (uid: seq<bv8>, tx: seq<bv8>)
    requires |rx| >= 10
    ensures |uid| == 4 && forall k :: 0 <= k < 32 ==> Unpack(uid)[k] == Unpack(rx[..10])[5 + 2 * k]
    ensures |tx| == 6 && Unpack(tx) == SelectBits(uid)
  {
    hide MsbFirst, Unpack, Crc, Shifts, XorOctet, LeftAligned;
    var bits := new bool[200](_ => false);
    SpellBits(rx, bits);
    var number := TakeUid(bits);
    forall k | 0 <= k < 32 ensures number[k] == Unpack(rx[..10])[5 + 2 * k] {
      assert bits[5 + 2 * k] == bits[..80][5 + 2 * k];
    }
    uid := UidOctets(number);
    var crc := GroupCrcOf(uid);
    LayOut(number, crc, bits);
    tx := PackSix(bits);
  }

  /** calc_crc over five zero bits and the four octets of the serial number. */
  method GroupCrcOf(uid: seq<bv8>) returns (crc: bv8)
    requires |uid| == 4
    ensures crc == Crc(CRC_PRESET, SelectMessage(uid))
  {
    hide MsbFirst, Unpack, Crc, Shifts, XorOctet, LeftAligned, SelectMessage;
    crc := CRC_PRESET;
    AlignedGroups(uid);
    crc := CalcCrc(crc, 0x00, 5);
    crc := CalcCrc(crc, uid[0], 8);
    crc := CalcCrc(crc, uid[1], 8);
    crc := CalcCrc(crc, uid[2], 8);
    crc := CalcCrc(crc, uid[3], 8);
    GroupwiseCrc(uid);
  }

  lemma AlignedGroups(uid: seq<bv8>)
    requires |uid| == 4
    ensures LeftAligned(0, 5) && MsbFirst(0)[..5] == Level(false, 5)
    ensures forall k | 0 <= k < 4 :: LeftAligned(uid[k], 8) && MsbFirst(uid[k])[..8] == MsbFirst(uid[k])
  {
    assert MsbFirst(0) == Level(false, 8);
    hide MsbFirst;
  }

  lemma GroupwiseCrc(uid: seq<bv8>)
    requires |uid| == 4
    ensures Crc(Crc(Crc(Crc(Crc(CRC_PRESET, Level(false, 5)), MsbFirst(uid[0])), MsbFirst(uid[1])), MsbFirst(uid[2])), MsbFirst(uid[3]))
         == Crc(CRC_PRESET, SelectMessage(uid))
  {
    hide MsbFirst, Crc, Unpack;
    Unpack4(uid);
    var m0, m1, m2, m3 := MsbFirst(uid[0]), MsbFirst(uid[1]), MsbFirst(uid[2]), MsbFirst(uid[3]);
    var z := Level(false, 5);
    assert SelectMessage(uid) == z + m0 + m1 + m2 + m3;
    CrcAppend(CRC_PRESET, z, m0);
    CrcAppend(CRC_PRESET, z + m0, m1);
    CrcAppend(CRC_PRESET, z + m0 + m1, m2);
    CrcAppend(CRC_PRESET, z + m0 + m1 + m2, m3);
  }

  /** Both files build the same select frame for every serial number, and the
      tag finds residue zero in it. */
  lemma SelectFramesAgree(uid: seq<bv8>, tx2: seq<bv8>, txS: seq<bv8>)
    requires |uid| == 4 && Unpack(tx2) == SelectBits(uid) && Unpack(txS) == SelectBits(uid)
    ensures tx2 == txS && Crc(CRC_PRESET, Unpack(tx2)[..45]) == 0
    ensures var m := Level(false, 5) + Unpack(uid);
      Unpack(tx2) == m + Remainder(XorAt(m + Level(false, 8), 0, Level(true, 8))) + Level(false, 3)
  {
    PresetRemainder(SelectMessage(uid));
    hide MsbFirst, Unpack, Crc, Remainder, XorAt;
    PackUnpack(tx2);
    PackUnpack(txS);
    var m := SelectMessage(uid);
    Residue(CRC_PRESET, m);
    assert Unpack(tx2)[..45] == m + MsbFirst(Crc(CRC_PRESET, m));
  }
}
