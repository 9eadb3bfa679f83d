/**
 * CMAC for the keys with 64-bit blocks (armsrc/desfire_crypto.c:257-324, 347-352,
 * lsl in common/commonutil.c:125-130), against sections 6.1 and 6.2 of NIST
 * SP 800-38B.
 */
module DesfireCmac {
  import opened Types
  import opened Arithmetic
  import opened Bits
  import opened DesfireChain
  import opened DesfireCrypto

  // ---- The standard -------------------------------------------------------

  function XorBits(a: seq<bool>, b: seq<bool>): (r: seq<bool>)
    requires |a| == |b|
    ensures |r| == |a|
  {
    if a == [] then [] else [a[0] != b[0]] + XorBits(a[1..], b[1..])
  }

  /** R64, the constant of section 5.3. */
  function R64(): (r: seq<bool>)
    ensures |r| == 64
  {
    Level(false, 59) + [true, true, false, true, true]
  }

  /** One step of section 6.1: from L to K1, and from K1 to K2. */
  function Derive(bits: seq<bool>): seq<bool>
    requires |bits| == 64
  {
    var shifted := bits[1..] + [false];
    if bits[0] then XorBits(shifted, R64()) else shifted
  }

  /** The number of blocks of section 6.2: an empty message has one. */
  function BlockCount(n: nat): (k: nat)
    ensures k > 0 && 8 * (k - 1) <= n <= 8 * k
  {
    if n == 0 then 1 else (n + 7) / 8
  }

  /** Block i of the masked message, counted from 0. */
  function MaskedBlock(k1: Block, k2: Block, m: seq<bv8>, i: nat): Block
    requires i < BlockCount(|m|)
  {
    if i < BlockCount(|m|) - 1 then BlockAt(m, i)
    else
      var last := m[8 * i..];
      if |last| == 8 then Xor(k1, last) else Xor(k2, Padded(last))
  }

  /** A partial block, a one bit and zeros. */
  function Padded(last: seq<bv8>): Block
    requires |last| < 8
  {
    last + [0x80] + seq(7 - |last|, _ => 0)
  }

  /** Steps 5 and 6: the i-th cipher block. */
  function CipherBlock(key: Key, k1: Block, k2: Block, m: seq<bv8>, i: nat): Block
    requires i <= BlockCount(|m|)
  {
    if i == 0 then ZERO
    else Crypt(key, Encypher, Xor(CipherBlock(key, k1, k2, m, i - 1), MaskedBlock(k1, k2, m, i - 1)))
  }

  function Mac(key: Key, k1: Block, k2: Block, m: seq<bv8>): Block
  {
    CipherBlock(key, k1, k2, m, BlockCount(|m|))
  }

  /** The pad is the bit string 1 followed by zeros. */
  lemma PadBits(n: nat)
    requires n < 8
    ensures Unpack([0x80] + seq(7 - n, _ => 0)) == [true] + Level(false, 63 - 8 * n)
  {
    var p := [0x80] + seq(7 - n, _ => 0);
    forall i | 0 <= i < 64 - 8 * n ensures Unpack(p)[i] == (i == 0) {
      UnpackAt(p, i / 8, i % 8);
      ZeroBits(i % 8);
    }
  }

  lemma ZeroBits(k: nat)
    requires k < 8
    ensures MsbFirst(0)[k] == false && MsbFirst(0x80)[k] == (k == 0)
  {
  }

  // ---- Subkeys ------------------------------------------------------------

  function ShlOctet(x: bv8, y: bv8): bv8 { (x << 1) | (y >> 7) }

  lemma ShlOctetBits(x: bv8, y: bv8)
    ensures MsbFirst(ShlOctet(x, y)) == MsbFirst(x)[1..] + [MsbFirst(y)[0]]
  {
    var z := (x << 1) | (y >> 7);
    assert z & 128 == (x & 64) << 1;
    assert z & 64 == (x & 32) << 1;
    assert z & 32 == (x & 16) << 1;
    assert z & 16 == (x & 8) << 1;
    assert z & 8 == (x & 4) << 1;
    assert z & 4 == (x & 2) << 1;
    assert z & 2 == (x & 1) << 1;
    assert z & 1 == (y & 128) >> 7;
  }

  /** lsl: the octets shifted left by one bit as one number. */
  function Shl(b: seq<bv8>): (r: seq<bv8>)
    ensures |r| == |b|
  {
    if b == [] then []
    else [ShlOctet(b[0], if |b| > 1 then b[1] else 0)] + Shl(b[1..])
  }

  lemma {:induction false} ShlBits(b: seq<bv8>)
    requires b != []
    ensures Unpack(Shl(b)) == Unpack(b)[1..] + [false]
    decreases |b|
  {
    hide MsbFirst, ShlOctet;
    var y := if |b| > 1 then b[1] else 0;
    ShlOctetBits(b[0], y);
    ZeroBits(0);
    if |b| > 1 {
      ShlBits(b[1..]);
      assert Unpack(b[1..])[0] == MsbFirst(b[1])[0];
    } else {
      assert b[1..] == [];
    }
  }

  function AddR(b: Block): Block { b[7 := b[7] ^ 0x1b] }

  function Subkey(b: Block): Block { if b[0] & 0x80 != 0 then AddR(Shl(b)) else Shl(b) }

  lemma XorBitsAppend(a: seq<bool>, b: seq<bool>, c: seq<bool>, d: seq<bool>)
    requires |a| == |b| && |c| == |d|
    ensures XorBits(a + c, b + d) == XorBits(a, b) + XorBits(c, d)
  {
    if a == [] {
      assert a + c == c && b + d == d;
    } else {
      assert (a + c)[1..] == a[1..] + c && (b + d)[1..] == b[1..] + d;
      XorBitsAppend(a[1..], b[1..], c, d);
    }
  }

  lemma {:induction false} XorNoBits(a: seq<bool>)
    ensures XorBits(a, Level(false, |a|)) == a
    decreases |a|
  {
    if a != [] {
      assert Level(false, |a|)[1..] == Level(false, |a| - 1);
      XorNoBits(a[1..]);
    }
  }

  lemma XorRBits(x: bv8)
    ensures MsbFirst(x ^ 0x1b) == XorBits(MsbFirst(x), [false, false, false, true, true, false, true, true])
  {
    var y := x ^ 0x1b;
    assert y & 128 == x & 128 && y & 64 == x & 64 && y & 32 == x & 32 && y & 4 == x & 4;
    assert y & 16 != 0 <==> x & 16 == 0;
    assert y & 8 != 0 <==> x & 8 == 0;
    assert y & 2 != 0 <==> x & 2 == 0;
    assert y & 1 != 0 <==> x & 1 == 0;
    var r := [false, false, false, true, true, false, true, true];
    EachBit(MsbFirst(y), MsbFirst(x), r);
  }

  lemma {:induction false} EachBit(z: seq<bool>, a: seq<bool>, b: seq<bool>)
    requires |z| == |a| == |b| && forall i :: 0 <= i < |a| ==> z[i] == (a[i] != b[i])
    ensures XorBits(a, b) == z
    decreases |a|
  {
    if a != [] { EachBit(z[1..], a[1..], b[1..]); }
  }

  lemma AddRBits(b: Block)
    ensures Unpack(AddR(b)) == XorBits(Unpack(b), R64())
  {
    hide MsbFirst;
    var front, last := b[..7], b[7];
    assert b == front + [last] && AddR(b) == front + [last ^ 0x1b];
    UnpackAppend(front, [last]);
    UnpackAppend(front, [last ^ 0x1b]);
    UnpackOne(last);
    UnpackOne(last ^ 0x1b);
    XorRBits(last);
    var r := [false, false, false, true, true, false, true, true];
    assert R64() == Level(false, 56) + r;
    XorNoBits(Unpack(front));
    XorBitsAppend(Unpack(front), Level(false, 56), MsbFirst(last), r);
  }

  /** The octet code computes the standard's subkey step. */
  lemma SubkeyIsDerived(b: Block)
    ensures Unpack(Subkey(b)) == Derive(Unpack(b))
  {
    hide MsbFirst, XorBits, R64, Shl, AddR;
    ShlBits(b);
    UnpackAt(b, 0, 0);
    TopBit(b[0]);
    if b[0] & 0x80 != 0 { AddRBits(Shl(b)); }
  }

  lemma TopBit(x: bv8)
    ensures MsbFirst(x)[0] <==> x & 0x80 != 0
  {
  }

  // ---- The MAC ------------------------------------------------------------

  /** padded_data_length */
  function PaddedLength(n: nat, size: nat): nat
    requires size > 0
  {
    if n == 0 || n % size != 0 then (n / size + 1) * size else n
  }

  /** The smallest positive number of whole blocks that holds n octets. */
  lemma PaddedLengthLeast(n: nat, size: nat, m: nat)
    requires size > 0
    ensures PaddedLength(n, size) % size == 0 && PaddedLength(n, size) >= n && PaddedLength(n, size) > 0
    ensures m * size >= n && m * size > 0 ==> PaddedLength(n, size) <= m * size
    ensures size == 8 ==> PaddedLength(n, size) == 8 * BlockCount(n)
  {
    var q := n / size;
    assert n == q * size + n % size;
    ModIs((q + 1) * size, size, q + 1, 0);
    Steps(m, q, size);
    Steps(m, 0, size);
    Steps(q + 1, 0, size);
    assert (q + 1) * size == q * size + size;
  }

  lemma Steps(m: nat, q: nat, size: nat)
    requires size > 0
    ensures m * size > q * size ==> m * size >= (q + 1) * size
  {
    if m <= q { assert m * size <= q * size; } else { assert m * size >= (q + 1) * size; }
  }

  /** The buffer cmac chains over: padded, its last block masked. */
  function Final(k1: Block, k2: Block, m: seq<bv8>): (r: seq<bv8>)
    ensures |r| == 8 * BlockCount(|m|)
  {
    var n := BlockCount(|m|) - 1;
    var last := m[8 * n..];
    m[..8 * n] + (if |last| == 8 then Xor(last, k1) else Xor(Padded(last), k2))
  }

  /** The MAC from any chaining vector. */
  function Tag(key: Key, k1: Block, k2: Block, m: seq<bv8>, iv: Block): Block
  {
    Message(key, Send, Encypher, Final(k1, k2, m), iv).1
  }

  lemma BlockOfSum(m: seq<bv8>, tail: Block, i: nat, n: nat)
    requires i <= n && 8 * n <= |m|
    ensures BlockAt(m[..8 * n] + tail, i) == if i < n then BlockAt(m, i) else tail
  {
    var s := m[..8 * n] + tail;
    if i < n {
      assert s[8 * i..8 * i + 8] == m[..8 * n][8 * i..8 * i + 8] == m[8 * i..8 * i + 8];
    } else {
      assert s[8 * n..8 * n + 8] == tail;
    }
  }

  lemma FinalBlock(k1: Block, k2: Block, m: seq<bv8>, i: nat)
    requires i < BlockCount(|m|)
    ensures BlockAt(Final(k1, k2, m), i) == MaskedBlock(k1, k2, m, i)
  {
    hide Xor, Padded;
    var n := BlockCount(|m|) - 1;
    var last := m[8 * n..];
    var tail: Block := if |last| == 8 then Xor(last, k1) else Xor(Padded(last), k2);
    if |last| == 8 { XorSwap(k1, last); } else { XorSwap(k2, Padded(last)); }
    BlockOfSum(m, tail, i, n);
  }

  lemma {:induction false} ChainIsCipherBlock(key: Key, k1: Block, k2: Block, m: seq<bv8>, i: nat)
    requires i <= BlockCount(|m|)
    ensures Chain(key, Send, Encypher, Final(k1, k2, m), ZERO, i).1 == CipherBlock(key, k1, k2, m, i)
    decreases i
  {
    hide Xor, Crypt, Final, MaskedBlock;
    if i > 0 {
      ChainIsCipherBlock(key, k1, k2, m, i - 1);
      FinalBlock(k1, k2, m, i - 1);
      XorSwap(CipherBlock(key, k1, k2, m, i - 1), MaskedBlock(k1, k2, m, i - 1));
    }
  }

  /** From a zero vector the code's MAC is the standard's, for every message length. */
  lemma TagIsMac(key: Key, k1: Block, k2: Block, m: seq<bv8>)
    ensures Tag(key, k1, k2, m, ZERO) == Mac(key, k1, k2, m)
  {
    hide Chain, CipherBlock, Final;
    ChainIsCipherBlock(key, k1, k2, m, BlockCount(|m|));
  }

  // ---- As it runs ---------------------------------------------------------

  lemma ShlNext(b: seq<bv8>, n: nat)
    requires n < |b|
    ensures Shl(b)[n] == ShlOctet(b[n], if n + 1 < |b| then b[n + 1] else 0)
  {
    hide ShlOctet;
    if n > 0 { ShlNext(b[1..], n - 1); }
  }

  /** lsl, in place: what was shifted lies before n, the old octets from n on. */
  method ShiftLeft(data: array<bv8>, len: nat)
    requires 0 < len <= data.Length
    modifies data
    ensures data[..len] == Shl(old(data[..len]))
    ensures data[len..] == old(data[len..])
  {
    hide ShlOctet, Shl;
    ghost var s := data[..len];
    var n := 0;
    while n < len - 1
      invariant 0 <= n <= len - 1
      invariant forall i :: 0 <= i < n ==> data[i] == Shl(s)[i]
      invariant forall i :: n <= i < len ==> data[i] == s[i]
      invariant data[len..] == old(data[len..])
    {
      ShlNext(s, n);
      data[n] := ShlOctet(data[n], data[n + 1]);
      n := n + 1;
    }
    ShlNext(s, len - 1);
    LastOctet(data[len - 1]);
    data[len - 1] := data[len - 1] << 1;
  }

  lemma LastOctet(x: bv8)
    ensures ShlOctet(x, 0) == x << 1
  {
  }

  /** A key with its subkey buffers. */
  class CmacKey {
    const key: Key
    const sk1: array<bv8>
    const sk2: array<bv8>

    ghost predicate Valid() { sk1.Length == 24 && sk2.Length == 24 && sk1 != sk2 }

    constructor (k: Key)
      ensures Valid() && key == k && fresh(sk1) && fresh(sk2)
    {
      key := k;
      sk1 := new bv8[24](_ => 0);
      sk2 := new bv8[24](_ => 0);
    }

    /** One derivation: dst becomes the subkey of the block in src. */
    method DeriveInto(dst: array<bv8>, src: Block)
      requires dst.Length == 24
      modifies dst
      ensures dst[..8] == Subkey(src)
    {
      hide Shl;
      FirstBlock(dst[..], src);
      Copy(dst, 0, src);
      assert dst[..8] == dst[..][..8];
      var top := src[0] & 0x80 != 0;
      ShiftLeft(dst, 8);
      if top {
        ghost var d := dst[..8];
        dst[7] := dst[7] ^ 0x1b;
        assert dst[..8] == d[7 := d[7] ^ 0x1b];
      }
    }

    /** cmac_generate_subkeys */
    method GenerateSubkeys()
      requires Valid()
      modifies sk1, sk2
      ensures sk1[..8] == Subkey(Crypt(key, Encypher, ZERO))
      ensures sk2[..8] == Subkey(Subkey(Crypt(key, Encypher, ZERO)))
    {
      hide Subkey, Crypt, Xor;
      var l := new bv8[8](_ => 0);
      var ivect := new bv8[8](_ => 0);
      assert l[..8] == ZERO && ivect[..8] == ZERO && l[..] == ZERO;
      OneBlock(key);
      XorZeros(Crypt(key, Encypher, ZERO), ZERO);
      BlocksChained(None, key, ivect, l, 8, Receive, Encypher);
      WholeSplice(Crypt(key, Encypher, ZERO));
      assert l[..8] == l[..];
      DeriveInto(sk1, l[..8]);
      DeriveInto(sk2, sk1[..8]);
    }

    lemma OneBlock(key: Key)
      ensures Blocks(8) == 1
      ensures Chain(key, Receive, Encypher, ZERO, ZERO, 1).0 == Xor(Crypt(key, Encypher, ZERO), ZERO)
    {
      hide Xor, Crypt;
      assert BlockAt(ZERO, 0) == ZERO;
    }

    lemma WholeSplice(b: Block)
      ensures Splice(ZERO, 0, b) == b
    {
    }

    /** The message in the buffer, padded and masked. */
    method Prepare(data: seq<bv8>) returns (buffer: array<bv8>, len: nat)
      requires Valid()
      ensures fresh(buffer) && len == PaddedLength(|data|, 8) == buffer.Length
      ensures buffer[..] == Final(sk1[..8], sk2[..8], data)
    {
      hide Xor, Padded, Final;
      PaddedLengthLeast(|data|, 8, 0);
      len := |data|;
      buffer := new bv8[PaddedLength(len, 8)](i => if 0 <= i < |data| then data[i] else 0);
      assert buffer[..|data|] == data;
      if len == 0 || len % 8 != 0 {
        len := PreparePartial(buffer, data);
      } else {
        PrepareWhole(buffer, data);
      }
    }

    /** The last block is padded and masked with the second subkey. */
    method PreparePartial(buffer: array<bv8>, data: seq<bv8>) returns (len: nat)
      requires Valid() && buffer != sk1 && buffer != sk2 && (|data| == 0 || |data| % 8 != 0)
      requires buffer.Length == 8 * BlockCount(|data|) && buffer[..|data|] == data
      modifies buffer
      ensures len == buffer.Length && buffer[..] == Final(sk1[..8], sk2[..8], data)
    {
      hide Xor, Padded, Final;
      ghost var n := 8 * (BlockCount(|data|) - 1);
      len := Pad(buffer, data);
      PadSplits(data, buffer[..], n);
      FinalPartial(sk1[..8], sk2[..8], data);
      assert buffer[n..n + 8] == buffer[..][n..] && buffer[..n] == buffer[..][..n];
      Mask(sk2, buffer, len, data);
    }

    /** The last block is masked with the first subkey. */
    method PrepareWhole(buffer: array<bv8>, data: seq<bv8>)
      requires Valid() && buffer != sk1 && buffer != sk2 && |data| > 0 && |data| % 8 == 0
      requires buffer.Length == |data| && buffer[..|data|] == data
      modifies buffer
      ensures buffer[..] == Final(sk1[..8], sk2[..8], data)
    {
      hide Xor, Padded, Final;
      ghost var n := 8 * (BlockCount(|data|) - 1);
      FinalWhole(sk1[..8], sk2[..8], data);
      assert buffer[n..n + 8] == data[n..] && buffer[..n] == data[..n];
      Mask(sk1, buffer, |data|, data);
    }

    lemma FinalPartial(k1: Block, k2: Block, m: seq<bv8>)
      requires |m| == 0 || |m| % 8 != 0
      ensures var n := 8 * (BlockCount(|m|) - 1);
        |m| - n < 8 && Final(k1, k2, m) == m[..n] + Xor(Padded(m[n..]), k2)
    {
      hide Xor, Padded;
    }

    lemma FinalWhole(k1: Block, k2: Block, m: seq<bv8>)
      requires |m| > 0 && |m| % 8 == 0
      ensures var n := 8 * (BlockCount(|m|) - 1);
        |m| - n == 8 && Final(k1, k2, m) == m[..n] + Xor(m[n..], k1)
    {
      hide Xor, Padded;
    }

    /** A padded message ends in its padded last block. */
    lemma PadSplits(data: seq<bv8>, b: seq<bv8>, n: nat)
      requires n <= |data| < n + 8 == |b|
      requires b == data + [0x80] + seq(n + 7 - |data|, _ => 0)
      ensures b[..n] == data[..n] && b[n..] == Padded(data[n..])
    {
    }

    method Pad(buffer: array<bv8>, data: seq<bv8>) returns (len: nat)
      requires |data| < buffer.Length <= |data| + 8 && buffer.Length % 8 == 0 && buffer[..|data|] == data
      modifies buffer
      ensures len == buffer.Length
      ensures buffer[..] == data + [0x80] + seq(len - 1 - |data|, _ => 0)
    {
      len := |data|;
      buffer[len] := 0x80;
      len := len + 1;
      while len % 8 != 0
        invariant |data| < len <= buffer.Length
        invariant buffer[..|data|] == data && buffer[|data|] == 0x80
        invariant forall i :: |data| < i < len ==> buffer[i] == 0
        decreases buffer.Length - len
      {
        buffer[len] := 0x00;
        len := len + 1;
      }
      assert buffer[..] == buffer[..|data|] + [buffer[|data|]] + buffer[|data| + 1..];
    }

    /** xor with a subkey, on the last block. */
    method Mask(sk: array<bv8>, buffer: array<bv8>, len: nat, ghost data: seq<bv8>)
      requires sk != buffer && sk.Length == 24 && 8 <= len == buffer.Length
      requires len - 8 <= |data| && buffer[..len - 8] == data[..len - 8]
      modifies buffer
      ensures buffer[..] == data[..len - 8] + Xor(old(buffer[len - 8..len]), sk[..8])
    {
      hide Xor;
      ghost var s := buffer[..];
      assert buffer[..len - 8] == s[..len - 8];
      XorInto(sk, buffer, len - 8);
    }

    /** cmac: the tag and the new chaining vector are the same octets. */
    method Cmac(ivect: array<bv8>, data: seq<bv8>, cmac: array<bv8>)
      requires Valid() && ivect.Length >= 8 && cmac.Length >= 8 && ivect != cmac
      requires ivect != sk1 && ivect != sk2
      modifies ivect, cmac
      ensures ivect[..8] == Tag(key, old(sk1[..8]), old(sk2[..8]), data, old(ivect[..8]))
      ensures cmac[..8] == ivect[..8]
    {
      hide Chain, Final, Splice;
      var buffer, len := Prepare(data);
      PaddedLengthLeast(|data|, 8, 0);
      assert Blocks(len) == BlockCount(|data|) == len / 8;
      assert buffer[..8 * Blocks(len)] == buffer[..];
      BlocksChained(None, key, ivect, buffer, len, Send, Encypher);
      ghost var v: Block := ivect[..8];
      FirstBlock(cmac[..], v);
      Copy(cmac, 0, ivect[..8]);
      assert cmac[..8] == cmac[..][..8];
    }
  }

  /** Fresh subkeys and a zero vector: the result is the standard's CMAC. */
  method ComputeCmac(k: CmacKey, data: seq<bv8>) returns (tag: Block)
    requires k.Valid()
    modifies k.sk1, k.sk2
    ensures var k1 := Subkey(Crypt(k.key, Encypher, ZERO)); tag == Mac(k.key, k1, Subkey(k1), data)
  {
    hide Subkey, Crypt, Tag, Mac;
    k.GenerateSubkeys();
    var ivect := new bv8[8](_ => 0);
    var cmac := new bv8[8](_ => 0);
    assert ivect[..8] == ZERO;
    TagIsMac(k.key, k.sk1[..8], k.sk2[..8], data);
    k.Cmac(ivect, data, cmac);
    tag := cmac[..8];
  }
}
