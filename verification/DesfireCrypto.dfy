/**
 * The DESFire block chaining routines as they run on buffers
 * (armsrc/desfire_crypto.c:70-117, 249-255, 733-855): every loop changes the
 * data and the chaining vector in place.
 */
module DesfireCrypto {
  import opened Types
  import opened DesfireChain

  /** Overwrite part of a buffer. */
  function Splice(s: seq<bv8>, at: nat, b: seq<bv8>): (r: seq<bv8>)
    requires at + |b| <= |s|
    ensures |r| == |s|
  {
    s[..at] + b + s[at + |b|..]
  }

  lemma SpliceTwice(s: seq<bv8>, at: nat, b: seq<bv8>, c: seq<bv8>)
    requires at + |b| <= |s| && |b| == |c|
    ensures Splice(Splice(s, at, b), at, c) == Splice(s, at, c)
  {
  }

  lemma SpliceGrow(s: seq<bv8>, a: seq<bv8>, b: seq<bv8>)
    requires |a| + |b| <= |s|
    ensures Splice(Splice(s, 0, a), |a|, b) == Splice(s, 0, a + b)
    ensures Splice(s, 0, a)[|a|..] == s[|a|..]
  {
  }

  method Copy(dst: array<bv8>, at: nat, src: Block)
    requires at + 8 <= dst.Length
    modifies dst
    ensures dst[..] == Splice(old(dst[..]), at, src)
  {
    ghost var s := dst[..];
    var i := 0;
    while i < 8
      invariant 0 <= i <= 8
      invariant dst[..] == Splice(s, at, src[..i])
    {
      SpliceNext(s, at, src, i);
      ghost var d := dst[..];
      dst[at + i] := src[i];
      assert dst[..] == d[at + i := src[i]];
      i := i + 1;
    }
    assert src[..8] == src;
  }

  lemma SpliceNext(s: seq<bv8>, at: nat, b: seq<bv8>, i: nat)
    requires at + |b| <= |s| && i < |b|
    ensures Splice(s, at, b[..i])[at + i := b[i]] == Splice(s, at, b[..i + 1])
  {
  }

  lemma SpliceNone(s: seq<bv8>, at: nat)
    requires at <= |s|
    ensures Splice(s, at, []) == s
  {
  }

  lemma SpliceAfter(s: seq<bv8>, at: nat, b: seq<bv8>)
    requires at + |b| < |s|
    ensures Splice(s, at, b)[at + |b|] == s[at + |b|]
  {
  }

  /** xor: ivect into the block at `at`. */
  method XorInto(ivect: array<bv8>, data: array<bv8>, at: nat)
    requires ivect != data && ivect.Length >= 8 && at + 8 <= data.Length
    modifies data
    ensures data[..] == Splice(old(data[..]), at, Xor(old(data[at..at + 8]), ivect[..8]))
  {
    hide Splice, Xor, XorOctet;
    ghost var s, x: Block := data[..], Xor(data[at..at + 8], ivect[..8]);
    SpliceNone(s, at);
    var i := 0;
    while i < 8
      invariant 0 <= i <= 8
      invariant data[..] == Splice(s, at, x[..i])
    {
      ghost var d := data[..];
      SpliceAfter(s, at, x[..i]);
      assert data[at + i] == d[at + i] == s[at + i];
      data[at + i] := XorOctet(data[at + i], ivect[i]);
      assert data[..] == d[at + i := x[i]];
      SpliceNext(s, at, x, i);
      i := i + 1;
    }
    assert x[..8] == x;
  }

  /** mifare_cypher_single_block */
  method SingleBlock(key: Key, data: array<bv8>, at: nat, ivect: array<bv8>, dir: Direction, op: Operation)
    requires data != ivect && at + 8 <= data.Length && ivect.Length >= 8
    modifies data, ivect
    ensures var (b, v) := One(key, dir, op, old(data[at..at + 8]), old(ivect[..8]));
      data[..] == Splice(old(data[..]), at, b) && ivect[..] == Splice(old(ivect[..]), 0, v)
  {
    hide Crypt, Xor, Splice;
    ghost var s, t := data[..], ivect[..];
    ghost var block: Block, vect: Block := data[at..at + 8], ivect[..8];
    var ovect: Block := data[at..at + 8];
    if dir == Send { XorInto(ivect, data, at); }
    Window(s, at, Xor(block, vect));
    SpliceTwice(s, at, Xor(block, vect), Crypt(key, op, Xor(block, vect)));
    assert data[at..at + 8] == data[..][at..at + 8];
    var edata := Crypt(key, op, data[at..at + 8]);
    Copy(data, at, edata);
    Window(s, at, edata);
    assert data[at..at + 8] == data[..][at..at + 8];
    if dir == Send {
      Copy(ivect, 0, data[at..at + 8]);
    } else {
      SpliceTwice(s, at, edata, Xor(edata, vect));
      XorInto(ivect, data, at);
      Copy(ivect, 0, ovect);
    }
  }

  lemma Window(s: seq<bv8>, at: nat, b: Block)
    requires at + 8 <= |s|
    ensures Splice(s, at, b)[at..at + 8] == b
  {
  }

  /** Whole blocks that cover n octets: what the loop below works on. */
  function Blocks(n: nat): nat { (n + 7) / 8 }

  /** mifare_cypher_blocks_chained; scheme is that of the tag, when there is one. */
  method BlocksChained(scheme: Option<Scheme>, key: Key, ivect: array<bv8>, data: array<bv8>, size: nat,
                       dir: Direction, op: Operation)
    requires data != ivect && 8 * Blocks(size) <= data.Length && ivect.Length >= 8
    requires scheme.Some? ==> ivect.Length == 16
    modifies data, ivect
    ensures var iv: Block := if scheme == Some(Legacy) then ZERO else old(ivect[..8]);
      var (c, v) := Chain(key, dir, op, old(data[..8 * Blocks(size)]), iv, Blocks(size));
      data[..] == Splice(old(data[..]), 0, c) && ivect[..8] == v
  {
    hide One, Splice;
    ghost var n := Blocks(size);
    ghost var s := data[..];
    ghost var m := data[..8 * n];
    if scheme == Some(Legacy) { Clear(ivect); }
    ghost var iv: Block := ivect[..8];
    var offset := 0;
    ghost var k := 0;
    SpliceNothing(s);
    while offset < size
      invariant offset == 8 * k && k <= n
      invariant ivect[..8] == Chain(key, dir, op, m, iv, k).1
      invariant data[..] == Splice(s, 0, Chain(key, dir, op, m, iv, k).0)
    {
      ghost var (c, v) := Chain(key, dir, op, m, iv, k);
      ghost var (b, v') := One(key, dir, op, BlockAt(m, k), v);
      SpliceGrow(s, c, b);
      Ahead(s, c, m, k);
      assert data[offset..offset + 8] == data[..][offset..offset + 8];
      FirstBlock(ivect[..], v');
      SingleBlock(key, data, offset, ivect, dir, op);
      assert ivect[..8] == ivect[..][..8];
      offset := offset + 8;
      k := k + 1;
    }
  }

  lemma SpliceNothing(s: seq<bv8>)
    ensures Splice(s, 0, []) == s
  {
  }

  /** The next block of the buffer is still the next block of the message. */
  lemma Ahead(s: seq<bv8>, c: seq<bv8>, m: seq<bv8>, k: nat)
    requires |c| == 8 * k && 8 * k + 8 <= |m| <= |s| && m == s[..|m|]
    ensures Splice(s, 0, c)[8 * k..8 * k + 8] == BlockAt(m, k)
  {
  }

  lemma FirstBlock(s: seq<bv8>, b: Block)
    requires |s| >= 8
    ensures Splice(s, 0, b)[..8] == b
  {
  }

  method Clear(ivect: array<bv8>)
    requires ivect.Length >= 16
    modifies ivect
    ensures ivect[..8] == ZERO
  {
    var i := 0;
    while i < 16
      invariant 0 <= i <= 16 && forall j :: 0 <= j < i ==> ivect[j] == 0
    {
      ivect[i] := 0;
      i := i + 1;
    }
  }
}
