/** The transmit buffer of armsrc/BigBuf.c: bits packed into octets, most
    significant bit first, in the order in which they go out on the wire. */
module ToSend {
  import opened Bits

  // nine bits for each of 256 octets, and four more
  const TOSEND_BUFFER_SIZE: nat := 9 * 256 + 1 + 1 + 2

  /** The octets `buf` carry exactly `bits`, and zeros after them. */
  ghost predicate Packed(buf: seq<bv8>, bits: seq<bool>) {
    && 8 * |buf| - 8 < |bits| <= 8 * |buf|
    && forall k | 0 <= k < |buf| :: MsbFirst(buf[k]) == Slice(bits, 8 * k)
  }

  /** Eight bits from `i` on, zeros where there are none. */
  ghost function Slice(bits: seq<bool>, i: nat): seq<bool> {
    seq(8, j requires 0 <= j < 8 => i + j < |bits| && bits[i + j])
  }

  class Buffer {
    var max: int
    var bit: int
    const buf: array<bv8>
    ghost var bits: seq<bool>

    ghost predicate Valid()
      reads this, buf
    {
      && buf.Length == TOSEND_BUFFER_SIZE
      && -1 <= max < buf.Length && 0 < bit <= 8 && |bits| == 8 * max + bit
      && Packed(buf[..max + 1], bits)
    }

    constructor ()
      ensures Valid() && fresh(buf) && bits == []
    {
      buf := new bv8[TOSEND_BUFFER_SIZE];
      max, bit, bits := -1, 8, [];
    }

    method Reset()
      requires Valid()
      modifies this
      ensures Valid() && bits == []
    {
      max, bit, bits := -1, 8, [];
    }

    /** The guard that closes the original acts only when the buffer has been
        overrun, which the precondition excludes. */
    method StuffBit(b: bool)
      requires Valid() && |bits| < 8 * TOSEND_BUFFER_SIZE
      modifies this, buf
      ensures Valid() && bits == old(bits) + [b]
    {
      hide MsbFirst, OrBit;
      if bit >= 8 {
        max := max + 1;
        buf[max] := 0;
        bit := 0;
        ZeroOctet(bits);
      }
      ghost var x := buf[max];
      if b {
        buf[max] := OrBit(buf[max], bit);
        OrBitSets(x, bit);
      }
      bit := bit + 1;
      PackedGrows(old(buf[..]), buf[..], max, bits, bit - 1, x, b);
      bits := bits + [b];
    }
  }

  lemma ZeroOctet(bits: seq<bool>)
    ensures MsbFirst(0) == Slice(bits, |bits|)
  {
  }

  lemma PackedGrows(a: seq<bv8>, a': seq<bv8>, m: nat, bits: seq<bool>, bit: nat, x: bv8, b: bool)
    requires m < |a| == |a'| && bit < 8 && |bits| == 8 * m + bit
    requires forall k | 0 <= k < m :: MsbFirst(a[k]) == Slice(bits, 8 * k) && a'[k] == a[k]
    requires MsbFirst(x) == Slice(bits, 8 * m)
    requires MsbFirst(a'[m]) == if b then MsbFirst(x)[bit := true] else MsbFirst(x)
    ensures Packed(a'[..m + 1], bits + [b])
  {
    hide MsbFirst;
    forall k | 0 <= k < m + 1 ensures MsbFirst(a'[k]) == Slice(bits + [b], 8 * k) {
      if k < m {
        assert Slice(bits + [b], 8 * k) == Slice(bits, 8 * k);
      }
    }
  }
}
