/**
 * Cipher block chaining as the DESFire code does it (armsrc/desfire_crypto.c:
 * 70-117, 249-255, 733-855) for the keys with 64-bit blocks. The three DES
 * permutations under a key are abstract.
 */
module DesfireChain {
  import opened Types

  /** DES under one 8-byte key. */
  datatype Permutation = Permutation(enc: Block -> Block, dec: Block -> Block)

  ghost predicate Inverse(p: Permutation)
  {
    (forall b: Block :: p.dec(p.enc(b)) == b) && (forall b: Block :: p.enc(p.dec(b)) == b)
  }

  /** T_DES, T_3DES and T_3K3DES keys. */
  datatype Key = Des(k1: Permutation) | Des3(k1: Permutation, k2: Permutation)
               | Des3k3(k1: Permutation, k2: Permutation, k3: Permutation)

  ghost predicate Sound(key: Key)
  {
    Inverse(key.k1) && (!key.Des? ==> Inverse(key.k2)) && (key.Des3k3? ==> Inverse(key.k3))
  }

  datatype Operation = Encypher | Decypher
  datatype Direction = Send | Receive

  function Crypt(key: Key, op: Operation, b: Block): Block
  {
    match key
    case Des(k1) => if op == Encypher then k1.enc(b) else k1.dec(b)
    case Des3(k1, k2) =>
      if op == Encypher then k1.enc(k2.dec(k1.enc(b))) else k1.dec(k2.enc(k1.dec(b)))
    case Des3k3(k1, k2, k3) =>
      if op == Encypher then k3.enc(k2.dec(k1.enc(b))) else k1.dec(k2.enc(k3.dec(b)))
  }

  function Opposite(op: Operation): Operation { if op == Encypher then Decypher else Encypher }

  /** Each operation undoes the other, for all three kinds of key. */
  lemma CryptUndone(key: Key, op: Operation, b: Block)
    requires Sound(key)
    ensures Crypt(key, Opposite(op), Crypt(key, op, b)) == b
  {
  }

  /** Triple DES with equal keys is DES, and with equal outer keys its two-key form. */
  lemma KeysCollapse(a: Permutation, b: Permutation, op: Operation, x: Block)
    requires Inverse(a) && Inverse(b)
    ensures Crypt(Des3(a, a), op, x) == Crypt(Des(a), op, x)
    ensures Crypt(Des3k3(a, a, a), op, x) == Crypt(Des(a), op, x)
    ensures Crypt(Des3k3(a, a, b), op, x) == Crypt(Des3k3(b, a, a), op, x) == Crypt(Des(b), op, x)
    ensures Crypt(Des3k3(a, b, a), op, x) == Crypt(Des3(a, b), op, x)
  {
  }

  /** The last step of an encryption with three keys is encryption under the third, the first one under the first. */
  lemma KeysInOrder(a: Permutation, b: Permutation, c: Permutation, x: Block)
    requires Inverse(a) && Inverse(b) && Inverse(c)
    ensures Crypt(Des(c), Decypher, Crypt(Des3k3(a, b, c), Encypher, x))
         == Crypt(Des(b), Decypher, Crypt(Des(a), Encypher, x))
    ensures Crypt(Des(a), Encypher, Crypt(Des3k3(a, b, c), Decypher, x))
         == Crypt(Des(b), Encypher, Crypt(Des(c), Decypher, x))
  {
  }

  /** One block and the chaining vector after it. */
  function One(key: Key, dir: Direction, op: Operation, b: Block, iv: Block): (Block, Block)
  {
    if dir == Send then
      var x := Crypt(key, op, Xor(b, iv));
      (x, x)
    else (Xor(Crypt(key, op, b), iv), b)
  }

  function BlockAt(m: seq<bv8>, k: nat): Block
    requires 8 * k + 8 <= |m|
  {
    m[8 * k..8 * k + 8]
  }

  /** The first k blocks of a message, and the chaining vector after them. */
  function Chain(key: Key, dir: Direction, op: Operation, m: seq<bv8>, iv: Block, k: nat): (r: (seq<bv8>, Block))
    requires 8 * k <= |m|
    ensures |r.0| == 8 * k
  {
    if k == 0 then ([], iv)
    else
      var (done, v) := Chain(key, dir, op, m, iv, k - 1);
      var (b, v') := One(key, dir, op, BlockAt(m, k - 1), v);
      (done + b, v')
  }

  /** A whole message. */
  function Message(key: Key, dir: Direction, op: Operation, m: seq<bv8>, iv: Block): (seq<bv8>, Block)
    requires |m| % 8 == 0
  {
    Chain(key, dir, op, m, iv, |m| / 8)
  }

  predicate Same(a: (seq<bv8>, Block), out: seq<bv8>, v: Block) { a.0 == out && a.1 == v }

  /** What is done to the first blocks is kept while later ones are done. */
  lemma {:induction false} ChainPrefix(key: Key, dir: Direction, op: Operation, m: seq<bv8>, iv: Block, k: nat, n: nat)
    requires k <= n && 8 * n <= |m|
    ensures Chain(key, dir, op, m, iv, k).0 == Chain(key, dir, op, m, iv, n).0[..8 * k]
    decreases n
  {
    hide One;
    if k < n { ChainPrefix(key, dir, op, m, iv, k, n - 1); }
  }

  lemma ChainBlock(key: Key, dir: Direction, op: Operation, m: seq<bv8>, iv: Block, k: nat, n: nat)
    requires k < n && 8 * n <= |m|
    ensures BlockAt(Chain(key, dir, op, m, iv, n).0, k) ==
            One(key, dir, op, BlockAt(m, k), Chain(key, dir, op, m, iv, k).1).0
  {
    hide One;
    ChainPrefix(key, dir, op, m, iv, k + 1, n);
    var c := Chain(key, dir, op, m, iv, n).0;
    assert BlockAt(c, k) == c[..8 * (k + 1)][8 * k..];
  }

  lemma OneUndone(key: Key, op: Operation, b: Block, iv: Block)
    requires Sound(key)
    ensures var (x, v) := One(key, Send, op, b, iv); One(key, Receive, Opposite(op), x, iv) == (b, v)
    ensures var (x, v) := One(key, Receive, op, b, iv); One(key, Send, Opposite(op), x, iv) == (b, v)
  {
    hide Crypt, Xor, Sound;
    CryptUndone(key, op, Xor(b, iv));
    CryptUndone(key, op, b);
    XorTwice(b, iv);
    XorTwice(Crypt(key, op, b), iv);
  }

  function Other(dir: Direction): Direction { if dir == Send then Receive else Send }

  lemma {:induction false} ChainUndone(key: Key, dir: Direction, op: Operation, m: seq<bv8>, iv: Block, k: nat, n: nat)
    requires Sound(key) && k <= n && 8 * n <= |m|
    ensures var c := Chain(key, dir, op, m, iv, n).0;
      Same(Chain(key, Other(dir), Opposite(op), c, iv, k), m[..8 * k], Chain(key, dir, op, m, iv, k).1)
    decreases k
  {
    hide One, Crypt, Sound;
    if k > 0 {
      ChainUndone(key, dir, op, m, iv, k - 1, n);
      ChainBlock(key, dir, op, m, iv, k - 1, n);
      var v := Chain(key, dir, op, m, iv, k - 1).1;
      OneUndone(key, op, BlockAt(m, k - 1), v);
      assert m[..8 * k] == m[..8 * (k - 1)] + BlockAt(m, k - 1);
    }
  }

  /**
   * Receiving with the opposite operation undoes sending, and sending undoes
   * receiving; both ends are left with the same chaining vector.
   */
  lemma RoundTrip(key: Key, dir: Direction, op: Operation, m: seq<bv8>, iv: Block)
    requires Sound(key) && |m| % 8 == 0
    ensures var (c, v) := Message(key, dir, op, m, iv);
      |c| == |m| && Message(key, Other(dir), Opposite(op), c, iv) == (m, v)
  {
    hide Sound;
    ChainUndone(key, dir, op, m, iv, |m| / 8, |m| / 8);
    assert m[..8 * (|m| / 8)] == m;
  }

  // ---- Whole sessions -----------------------------------------------------

  /** The legacy scheme starts every message from zero, the new one goes on. */
  datatype Scheme = Legacy | New

  const ZERO: Block := [0, 0, 0, 0, 0, 0, 0, 0]

  function StartVector(s: Scheme, iv: Block): Block { if s == Legacy then ZERO else iv }

  ghost predicate WholeBlocks(ms: seq<seq<bv8>>) { forall i :: 0 <= i < |ms| ==> |ms[i]| % 8 == 0 }

  /** One end's work on a row of messages. */
  function Session(key: Key, s: Scheme, dir: Direction, op: Operation, ms: seq<seq<bv8>>, iv: Block)
    : (r: (seq<seq<bv8>>, Block))
    requires WholeBlocks(ms)
    ensures |r.0| == |ms|
  {
    if ms == [] then ([], iv)
    else
      var (done, v) := Session(key, s, dir, op, ms[..|ms| - 1], iv);
      var (c, v') := Message(key, dir, op, ms[|ms| - 1], StartVector(s, v));
      (done + [c], v')
  }

  /** Any row of messages is read back in order by the other end, under both schemes. */
  lemma {:induction false} SessionReadBack(key: Key, s: Scheme, dir: Direction, op: Operation,
                                           ms: seq<seq<bv8>>, iv: Block)
    requires Sound(key) && WholeBlocks(ms)
    ensures var (cs, v) := Session(key, s, dir, op, ms, iv);
      WholeBlocks(cs) && Session(key, s, Other(dir), Opposite(op), cs, iv) == (ms, v)
    decreases |ms|
  {
    hide Message, Sound;
    if ms != [] {
      var n := |ms| - 1;
      SessionReadBack(key, s, dir, op, ms[..n], iv);
      var v := Session(key, s, dir, op, ms[..n], iv).1;
      RoundTrip(key, dir, op, ms[n], StartVector(s, v));
      var cs := Session(key, s, dir, op, ms, iv).0;
      assert cs[..n] == Session(key, s, dir, op, ms[..n], iv).0;
      assert ms == ms[..n] + [ms[n]];
    }
  }
}
