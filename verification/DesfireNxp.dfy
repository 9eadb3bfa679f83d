/**
 * The NXP flavour of triple DES chaining (armsrc/desfire_crypto.c:70-117), which
 * works from one buffer into another, or within one buffer, and overwrites its
 * input while sending.
 */
module DesfireNxp {
  import opened Types
  import opened DesfireChain
  import opened DesfireCrypto

  /** What sending leaves in the input buffer: the blocks as they enter the cipher. */
  function Masked(key: Key, m: seq<bv8>, iv: Block, k: nat): (r: seq<bv8>)
    requires 8 * k <= |m|
    ensures |r| == 8 * k
  {
    if k == 0 then []
    else Masked(key, m, iv, k - 1) + Xor(BlockAt(m, k - 1), Chain(key, Send, Encypher, m, iv, k - 1).1)
  }

  /** One turn of the sending loop. */
  method SendBlock(inp: array<bv8>, out: array<bv8>, at: nat, key: Key, iv: array<bv8>)
    requires inp != iv && out != iv && at + 8 <= inp.Length && at + 8 <= out.Length && iv.Length == 8
    modifies inp, out, iv
    ensures var x := Xor(old(inp[at..at + 8]), old(iv[..8]));
      var y := Crypt(key, Encypher, x);
      && out[..] == Splice(old(out[..]), at, y)
      && iv[..] == y
      && (inp != out ==> inp[..] == Splice(old(inp[..]), at, x))
  {
    hide Splice, Xor, Crypt;
    ghost var s := out[..];
    ghost var x := Xor(inp[at..at + 8], iv[..8]);
    Window(inp[..], at, x);
    XorInto(iv, inp, at);
    assert inp[at..at + 8] == inp[..][at..at + 8];
    var y := Crypt(key, Encypher, inp[at..at + 8]);
    SpliceTwice(s, at, x, y);
    Window(s, at, y);
    Copy(out, at, y);
    assert out[at..at + 8] == out[..][at..at + 8];
    FirstBlock(iv[..], y);
    Copy(iv, 0, out[at..at + 8]);
    assert iv[..8] == iv[..];
  }

  /**
   * The buffers after k blocks: o and i are the output and the input now, s and t
   * what they held before, v the vector; same tells whether they are one buffer.
   */
  predicate SendState(key: Key, m: seq<bv8>, iv: Block, k: nat, s: seq<bv8>, t: seq<bv8>,
                      o: seq<bv8>, i: seq<bv8>, v: seq<bv8>, same: bool)
  {
    && 8 * k <= |m| <= |s| && |m| <= |t| && m == t[..|m|]
    && o == Splice(s, 0, Chain(key, Send, Encypher, m, iv, k).0) && v == Chain(key, Send, Encypher, m, iv, k).1
    && if same then i == o && s == t else i == Splice(t, 0, Masked(key, m, iv, k))
  }

  lemma SendStep(key: Key, m: seq<bv8>, iv: Block, k: nat, s: seq<bv8>, t: seq<bv8>,
                 o: seq<bv8>, i: seq<bv8>, v: Block, same: bool)
    requires SendState(key, m, iv, k, s, t, o, i, v, same) && 8 * k + 8 <= |m|
    ensures |o| == |s| && |i| == |t|
    ensures var x := Xor(i[8 * k..8 * k + 8], v);
      var y := Crypt(key, Encypher, x);
      var o' := Splice(o, 8 * k, y);
      SendState(key, m, iv, k + 1, s, t, o', if same then o' else Splice(i, 8 * k, x), y, same)
  {
    hide Splice, Xor, Crypt, Chain, Masked;
    SendNext(key, m, iv, k, s, t);
  }

  method SendTurn(inp: array<bv8>, out: array<bv8>, at: nat, key: Key, iv: array<bv8>,
                  ghost m: seq<bv8>, ghost v0: Block, ghost k: nat, ghost s: seq<bv8>, ghost t: seq<bv8>)
    requires inp != iv && out != iv && at == 8 * k && at + 8 <= |m| && iv.Length == 8
    requires at + 8 <= inp.Length && at + 8 <= out.Length
    requires SendState(key, m, v0, k, s, t, out[..], inp[..], iv[..], inp == out)
    modifies inp, out, iv
    ensures SendState(key, m, v0, k + 1, s, t, out[..], inp[..], iv[..], inp == out)
  {
    hide Splice, Xor, Crypt, SendState;
    ghost var o, i, v: Block := out[..], inp[..], iv[..];
    assert inp[at..at + 8] == i[8 * k..8 * k + 8];
    assert iv[..8] == v;
    SendStep(key, m, v0, k, s, t, o, i, v, inp == out);
    SendBlock(inp, out, at, key, iv);
  }

  method TdesNxpSend(inp: array<bv8>, out: array<bv8>, length: nat, key: Key, iv: array<bv8>)
    requires inp != iv && out != iv && length <= inp.Length && length <= out.Length && iv.Length == 8
    modifies inp, out, iv
    ensures length % 8 != 0 ==>
      inp[..] == old(inp[..]) && out[..] == old(out[..]) && iv[..] == old(iv[..])
    ensures length % 8 == 0 ==>
      var m := old(inp[..length]);
      var (c, v) := Message(key, Send, Encypher, m, old(iv[..]));
      && out[..] == Splice(old(out[..]), 0, c) && iv[..] == v
      && (inp != out ==> inp[..] == Splice(old(inp[..]), 0, Masked(key, m, old(iv[..]), length / 8)))
  {
    if length % 8 != 0 { return; }
    hide Splice, Message, Masked, SendState;
    ghost var s, t, m := out[..], inp[..], inp[..length];
    ghost var v0: Block := iv[..];
    SendAll(inp, out, length, key, iv, length / 8);
    SendEnds(key, m, v0, length / 8, s, t, out[..], inp[..], iv[..], inp == out);
  }

  method SendAll(inp: array<bv8>, out: array<bv8>, length: nat, key: Key, iv: array<bv8>, ghost n: nat)
    requires inp != iv && out != iv && length <= inp.Length && length <= out.Length && iv.Length == 8
    requires length == 8 * n
    modifies inp, out, iv
    ensures SendState(key, old(inp[..length]), old(iv[..]), n, old(out[..]), old(inp[..]),
                      out[..], inp[..], iv[..], inp == out)
  {
    hide SendState;
    ghost var s, t, m := out[..], inp[..], inp[..length];
    ghost var v0: Block := iv[..];
    var at := 0;
    ghost var k := 0;
    SendStarts(key, m, v0, s, t, inp == out);
    while at < length
      invariant at == 8 * k && k <= n
      invariant SendState(key, m, v0, k, s, t, out[..], inp[..], iv[..], inp == out)
    {
      SendTurn(inp, out, at, key, iv, m, v0, k, s, t);
      at := at + 8;
      k := k + 1;
    }
  }

  lemma SendStarts(key: Key, m: seq<bv8>, iv: Block, s: seq<bv8>, t: seq<bv8>, same: bool)
    requires |m| <= |s| && |m| <= |t| && m == t[..|m|] && (same ==> s == t)
    ensures SendState(key, m, iv, 0, s, t, s, t, iv, same)
  {
    NoneYet(key, Send, Encypher, m, iv, s);
    NoneYet(key, Send, Encypher, m, iv, t);
  }

  lemma SendEnds(key: Key, m: seq<bv8>, iv: Block, k: nat, s: seq<bv8>, t: seq<bv8>,
                 o: seq<bv8>, i: seq<bv8>, v: seq<bv8>, same: bool)
    requires SendState(key, m, iv, k, s, t, o, i, v, same) && |m| == 8 * k
    ensures o == Splice(s, 0, Message(key, Send, Encypher, m, iv).0) && v == Message(key, Send, Encypher, m, iv).1
    ensures !same ==> i == Splice(t, 0, Masked(key, m, iv, k))
  {
    hide Splice, Chain, Masked;
  }

  lemma NoneYet(key: Key, dir: Direction, op: Operation, m: seq<bv8>, iv: Block, s: seq<bv8>)
    ensures Chain(key, dir, op, m, iv, 0) == ([], iv) && Masked(key, m, iv, 0) == []
    ensures Splice(s, 0, []) == s
  {
  }

  /** What one more block does to the output s and the separate input t. */
  lemma SendNext(key: Key, m: seq<bv8>, iv: Block, k: nat, s: seq<bv8>, t: seq<bv8>)
    requires 8 * k + 8 <= |m| <= |t| && |m| <= |s| && m == t[..|m|]
    ensures var (c, v) := Chain(key, Send, Encypher, m, iv, k);
      var x := Xor(BlockAt(m, k), v);
      var y := Crypt(key, Encypher, x);
      var (c', v') := Chain(key, Send, Encypher, m, iv, k + 1);
      && v' == y && Splice(Splice(s, 0, c), 8 * k, y) == Splice(s, 0, c')
      && Splice(Splice(t, 0, Masked(key, m, iv, k)), 8 * k, x) == Splice(t, 0, Masked(key, m, iv, k + 1))
      && Splice(t, 0, c)[8 * k..8 * k + 8] == BlockAt(m, k)
      && Splice(t, 0, Masked(key, m, iv, k))[8 * k..8 * k + 8] == BlockAt(m, k)
  {
    hide Splice, Xor, Crypt, BlockAt;
    var (c, v) := Chain(key, Send, Encypher, m, iv, k);
    var x := Xor(BlockAt(m, k), v);
    SpliceGrow(s, c, Crypt(key, Encypher, x));
    SpliceGrow(t, Masked(key, m, iv, k), x);
    Ahead(t, c, m, k);
    Ahead(t, Masked(key, m, iv, k), m, k);
  }

  lemma ReceiveNext(key: Key, m: seq<bv8>, iv: Block, k: nat, s: seq<bv8>)
    requires 8 * k + 8 <= |m| <= |s|
    ensures var (c, v) := Chain(key, Receive, Decypher, m, iv, k);
      var (c', v') := Chain(key, Receive, Decypher, m, iv, k + 1);
      var x := Xor(Crypt(key, Decypher, BlockAt(m, k)), v);
      && v' == BlockAt(m, k) && Splice(Splice(s, 0, c), 8 * k, x) == Splice(s, 0, c')
      && (m == s[..|m|] ==> Splice(s, 0, c)[8 * k..8 * k + 8] == BlockAt(m, k))
  {
    hide Splice, Xor, Crypt, BlockAt;
    var (c, v) := Chain(key, Receive, Decypher, m, iv, k);
    SpliceGrow(s, c, Xor(Crypt(key, Decypher, BlockAt(m, k)), v));
    if m == s[..|m|] { Ahead(s, c, m, k); }
  }

  /** One turn of the receiving loop. */
  method ReceiveBlock(inp: array<bv8>, out: array<bv8>, at: nat, key: Key, iv: array<bv8>)
    requires inp != iv && out != iv && at + 8 <= inp.Length && at + 8 <= out.Length && iv.Length == 8
    modifies out, iv
    ensures var b: Block := old(inp[at..at + 8]);
      out[..] == Splice(old(out[..]), at, Xor(Crypt(key, Decypher, b), old(iv[..8]))) && iv[..] == b
  {
    hide Splice, Xor, Crypt;
    ghost var s := out[..];
    var temp: Block := inp[at..at + 8];
    var y := Crypt(key, Decypher, temp);
    Copy(out, at, y);
    Window(s, at, y);
    assert out[at..at + 8] == out[..][at..at + 8];
    SpliceTwice(s, at, y, Xor(y, iv[..8]));
    XorInto(iv, out, at);
    FirstBlock(iv[..], temp);
    Copy(iv, 0, temp);
    assert iv[..8] == iv[..];
  }

  predicate ReceiveState(key: Key, m: seq<bv8>, iv: Block, k: nat, s: seq<bv8>, o: seq<bv8>, i: seq<bv8>,
                         v: seq<bv8>, same: bool)
  {
    && 8 * k <= |m| <= |s|
    && o == Splice(s, 0, Chain(key, Receive, Decypher, m, iv, k).0) && v == Chain(key, Receive, Decypher, m, iv, k).1
    && if same then i == o && m == s[..|m|] else |m| <= |i| && m == i[..|m|]
  }

  lemma SameBlock(m: seq<bv8>, i: seq<bv8>, k: nat)
    requires 8 * k + 8 <= |m| <= |i| && m == i[..|m|]
    ensures i[8 * k..8 * k + 8] == BlockAt(m, k)
  {
  }

  lemma ReceiveStep(key: Key, m: seq<bv8>, iv: Block, k: nat, s: seq<bv8>, o: seq<bv8>, i: seq<bv8>,
                    v: Block, same: bool)
    requires ReceiveState(key, m, iv, k, s, o, i, v, same) && 8 * k + 8 <= |m|
    ensures |o| == |s| && 8 * k + 8 <= |i|
    ensures var b := i[8 * k..8 * k + 8];
      var o' := Splice(o, 8 * k, Xor(Crypt(key, Decypher, b), v));
      ReceiveState(key, m, iv, k + 1, s, o', if same then o' else i, b, same)
  {
    hide Splice, Xor, Crypt, Chain;
    ReceiveNext(key, m, iv, k, s);
    if !same { SameBlock(m, i, k); }
  }

  method ReceiveTurn(inp: array<bv8>, out: array<bv8>, at: nat, key: Key, iv: array<bv8>,
                     ghost m: seq<bv8>, ghost v0: Block, ghost k: nat, ghost s: seq<bv8>)
    requires inp != iv && out != iv && at == 8 * k && at + 8 <= |m| && iv.Length == 8
    requires at + 8 <= inp.Length && at + 8 <= out.Length
    requires ReceiveState(key, m, v0, k, s, out[..], inp[..], iv[..], inp == out)
    modifies out, iv
    ensures ReceiveState(key, m, v0, k + 1, s, out[..], inp[..], iv[..], inp == out)
  {
    hide Splice, Xor, Crypt, ReceiveState;
    ghost var o, i, v: Block := out[..], inp[..], iv[..];
    assert inp[at..at + 8] == i[8 * k..8 * k + 8];
    assert iv[..8] == v;
    ReceiveStep(key, m, v0, k, s, o, i, v, inp == out);
    ReceiveBlock(inp, out, at, key, iv);
  }

  method TdesNxpReceive(inp: array<bv8>, out: array<bv8>, length: nat, key: Key, iv: array<bv8>)
    requires inp != iv && out != iv && length <= inp.Length && length <= out.Length && iv.Length == 8
    modifies out, iv
    ensures length % 8 != 0 ==> out[..] == old(out[..]) && iv[..] == old(iv[..])
    ensures length % 8 == 0 ==>
      var (c, v) := Message(key, Receive, Decypher, old(inp[..length]), old(iv[..]));
      out[..] == Splice(old(out[..]), 0, c) && iv[..] == v
  {
    if length % 8 != 0 { return; }
    hide Splice, Message, ReceiveState;
    ghost var s, m := out[..], inp[..length];
    ghost var v0: Block := iv[..];
    ReceiveAll(inp, out, length, key, iv, length / 8);
    ReceiveEnds(key, m, v0, length / 8, s, out[..], inp[..], iv[..], inp == out);
  }

  method ReceiveAll(inp: array<bv8>, out: array<bv8>, length: nat, key: Key, iv: array<bv8>, ghost n: nat)
    requires inp != iv && out != iv && length <= inp.Length && length <= out.Length && iv.Length == 8
    requires length == 8 * n
    modifies out, iv
    ensures ReceiveState(key, old(inp[..length]), old(iv[..]), n, old(out[..]), out[..], inp[..], iv[..], inp == out)
  {
    hide ReceiveState;
    ghost var s, m := out[..], inp[..length];
    ghost var v0: Block := iv[..];
    var at := 0;
    ghost var k := 0;
    ReceiveStarts(key, m, v0, s, inp[..], inp == out);
    while at < length
      invariant at == 8 * k && k <= n
      invariant ReceiveState(key, m, v0, k, s, out[..], inp[..], iv[..], inp == out)
    {
      ReceiveTurn(inp, out, at, key, iv, m, v0, k, s);
      at := at + 8;
      k := k + 1;
    }
  }

  lemma ReceiveStarts(key: Key, m: seq<bv8>, iv: Block, s: seq<bv8>, i: seq<bv8>, same: bool)
    requires |m| <= |s| && |m| <= |i| && m == i[..|m|] && (same ==> s == i)
    ensures ReceiveState(key, m, iv, 0, s, s, i, iv, same)
  {
    NoneYet(key, Receive, Decypher, m, iv, s);
  }

  lemma ReceiveEnds(key: Key, m: seq<bv8>, iv: Block, k: nat, s: seq<bv8>, o: seq<bv8>, i: seq<bv8>,
                    v: seq<bv8>, same: bool)
    requires ReceiveState(key, m, iv, k, s, o, i, v, same) && |m| == 8 * k
    ensures o == Splice(s, 0, Message(key, Receive, Decypher, m, iv).0)
    ensures v == Message(key, Receive, Decypher, m, iv).1
  {
    hide Splice, Chain;
  }

  /** Receiving what was sent, from the same vector, in place at both ends. */
  method SendAndReceive(data: array<bv8>, length: nat, key: Key, iv: array<bv8>, peer: array<bv8>)
    requires data != iv && data != peer && iv != peer && iv.Length == 8 && peer.Length == 8
    requires length <= data.Length && iv[..] == peer[..] && Sound(key)
    modifies data, iv, peer
    ensures data[..] == old(data[..]) && iv[..] == peer[..]
  {
    if length % 8 == 0 {
      hide Message, Splice, Sound;
      ghost var s, m := data[..], data[..length];
      ghost var v0: Block := iv[..];
      ghost var (c, v) := Message(key, Send, Encypher, m, v0);
      RoundTrip(key, Send, Encypher, m, v0);
      TdesNxpSend(data, data, length, key, iv);
      Front(s, c, length);
      assert data[..length] == data[..][..length];
      TdesNxpReceive(data, data, length, key, peer);
      SpliceTwice(s, 0, c, m);
      Back(s, length);
    } else {
      TdesNxpSend(data, data, length, key, iv);
      TdesNxpReceive(data, data, length, key, peer);
    }
  }

  lemma Front(s: seq<bv8>, c: seq<bv8>, n: nat)
    requires |c| == n <= |s|
    ensures Splice(s, 0, c)[..n] == c
  {
  }

  lemma Back(s: seq<bv8>, n: nat)
    requires n <= |s|
    ensures Splice(s, 0, s[..n]) == s
  {
  }
}
