/** Types that several parts of the firmware share. */
module Types {
  datatype Option<T> = None | Some(value: T)

  type Byte = b: int | 0 <= b < 0x100
  type Word16 = x: int | 0 <= x < 0x1_0000
  type Word32 = x: int | 0 <= x < 0x1_0000_0000

  /** Eight octets: a cipher block, a memory block, a key. */
  type Block = b: seq<bv8> | |b| == 8 witness [0, 0, 0, 0, 0, 0, 0, 0]

  function XorOctet(a: bv8, b: bv8): bv8 { a ^ b }

  function Xor(a: Block, b: Block): (r: Block)
    ensures forall i :: 0 <= i < 8 ==> r[i] == XorOctet(a[i], b[i])
  {
    seq(8, i requires 0 <= i < 8 => XorOctet(a[i], b[i]))
  }

  lemma XorOctetLaws(x: bv8, y: bv8)
    ensures XorOctet(XorOctet(x, y), y) == x
    ensures XorOctet(x, y) == XorOctet(y, x)
    ensures XorOctet(x, 0) == x
  {
  }

  lemma XorTwice(a: Block, b: Block)
    ensures Xor(Xor(a, b), b) == a
  {
    hide Xor, XorOctet;
    forall i | 0 <= i < 8 ensures Xor(Xor(a, b), b)[i] == a[i] { XorOctetLaws(a[i], b[i]); }
  }

  lemma XorSwap(a: Block, b: Block)
    ensures Xor(a, b) == Xor(b, a)
  {
    hide Xor, XorOctet;
    forall i | 0 <= i < 8 ensures Xor(a, b)[i] == Xor(b, a)[i] { XorOctetLaws(a[i], b[i]); }
  }

  lemma XorZeros(a: Block, z: Block)
    requires forall i :: 0 <= i < 8 ==> z[i] == 0
    ensures Xor(a, z) == a
  {
    hide Xor, XorOctet;
    forall i | 0 <= i < 8 ensures Xor(a, z)[i] == a[i] { XorOctetLaws(a[i], 0); }
  }
}
