/**
 * The combined FPGA image (armsrc/fpgaloader.c:215-230, 340-347): N images cut
 * into blocks of 288 bytes and laid down block by block in turn, and each of
 * them a .bit file of named sections.
 */
module FpgaImage {
  import opened Types
  import opened Arithmetic

  const BLOCK: nat := 288
  const SEARCH_LIMIT: nat := 100

  /** bitparse_fixed_header */
  function FixedHeader(): (h: seq<Byte>)
    ensures |h| == 13
  {
    [0, 9, 0x0f, 0xf0, 0x0f, 0xf0, 0x0f, 0xf0, 0x0f, 0xf0, 0, 0, 1]
  }

  // ---- Interleaving -------------------------------------------------------

  /** The images have one length, a whole number of blocks. */
  ghost predicate SameLength(images: seq<seq<Byte>>, blocks: nat)
  {
    |images| > 0 && forall j :: 0 <= j < |images| ==> |images[j]| == blocks * BLOCK
  }

  function ImageBlocks(images: seq<seq<Byte>>, blocks: nat, b: nat): seq<Byte>
    requires SameLength(images, blocks) && b <= blocks
  {
    if b == 0 then [] else ImageBlocks(images, blocks, b - 1) + OneRound(images, blocks, b - 1, |images|)
  }

  /** Block b of the first n images, one after the other. */
  function OneRound(images: seq<seq<Byte>>, blocks: nat, b: nat, n: nat): seq<Byte>
    requires SameLength(images, blocks) && b < blocks && n <= |images|
  {
    if n == 0 then [] else OneRound(images, blocks, b, n - 1) + images[n - 1][b * BLOCK..(b + 1) * BLOCK]
  }

  function Combine(images: seq<seq<Byte>>, blocks: nat): seq<Byte>
    requires SameLength(images, blocks)
  {
    ImageBlocks(images, blocks, blocks)
  }

  /** Where byte k of image v (counted from 1) of n stands in the combined image. */
  function Place(n: nat, v: nat, k: nat): nat
    requires 1 <= v <= n
  {
    ((k / BLOCK) * n + (v - 1)) * BLOCK + k % BLOCK
  }

  lemma {:induction false} OneRoundLength(images: seq<seq<Byte>>, blocks: nat, b: nat, n: nat)
    requires SameLength(images, blocks) && b < blocks && n <= |images|
    ensures |OneRound(images, blocks, b, n)| == n * BLOCK
  {
    if n > 0 { OneRoundLength(images, blocks, b, n - 1); }
  }

  lemma {:induction false} OneRoundAt(images: seq<seq<Byte>>, blocks: nat, b: nat, n: nat, v: nat, o: nat)
    requires SameLength(images, blocks) && b < blocks && 1 <= v <= n <= |images| && o < BLOCK
    ensures (v - 1) * BLOCK + o < |OneRound(images, blocks, b, n)|
    ensures OneRound(images, blocks, b, n)[(v - 1) * BLOCK + o] == images[v - 1][b * BLOCK + o]
  {
    OneRoundLength(images, blocks, b, n);
    OneRoundLength(images, blocks, b, n - 1);
    if v < n { OneRoundAt(images, blocks, b, n - 1, v, o); }
  }

  lemma {:induction false} BlocksLength(images: seq<seq<Byte>>, blocks: nat, b: nat)
    requires SameLength(images, blocks) && b <= blocks
    ensures |ImageBlocks(images, blocks, b)| == (b * |images|) * BLOCK
  {
    hide OneRound;
    if b > 0 {
      BlocksLength(images, blocks, b - 1);
      OneRoundLength(images, blocks, b - 1, |images|);
      Distribute(b - 1, |images|);
    }
  }

  lemma {:induction false} BlocksAt(images: seq<seq<Byte>>, blocks: nat, b: nat, q: nat, v: nat, o: nat)
    requires SameLength(images, blocks) && q < b <= blocks && 1 <= v <= |images| && o < BLOCK
    ensures (q * |images| + (v - 1)) * BLOCK + o < |ImageBlocks(images, blocks, b)|
    ensures ImageBlocks(images, blocks, b)[(q * |images| + (v - 1)) * BLOCK + o] == images[v - 1][q * BLOCK + o]
  {
    hide OneRound;
    var n := |images|;
    BlocksLength(images, blocks, b - 1);
    OneRoundLength(images, blocks, b - 1, n);
    if q == b - 1 {
      OneRoundAt(images, blocks, q, n, v, o);
    } else {
      BlocksAt(images, blocks, b - 1, q, v, o);
    }
  }

  /** Byte k of image v is found at its place: the interleaving loses nothing. */
  lemma CombinedAt(images: seq<seq<Byte>>, blocks: nat, v: nat, k: nat)
    requires SameLength(images, blocks) && 1 <= v <= |images| && k < blocks * BLOCK
    ensures Place(|images|, v, k) == ((k / 288) * |images| + (v - 1)) * 288 + k % 288 < |Combine(images, blocks)|
    ensures Combine(images, blocks)[Place(|images|, v, k)] == images[v - 1][k]
  {
    BlocksAt(images, blocks, blocks, k / BLOCK, v, k % BLOCK);
  }

  // ---- Which positions belong to image v ----------------------------------

  /** The guard of the loader's skip loop, negated. */
  predicate Wanted(n: nat, v: nat, c: nat)
    requires 1 <= v <= n
  {
    (c / BLOCK) % n == v - 1
  }

  /** The first position not yet looked at once k bytes of image v were taken. */
  function After(n: nat, v: nat, k: nat): nat
    requires 1 <= v <= n
  {
    if k == 0 then 0 else Place(n, v, k - 1) + 1
  }

  lemma WantedAtPlace(n: nat, v: nat, k: nat)
    requires 1 <= v <= n
    ensures Wanted(n, v, Place(n, v, k))
  {
    var q := (k / BLOCK) * n + (v - 1);
    ModIs(Place(n, v, k), BLOCK, q, k % BLOCK);
    ModIs(q, n, k / BLOCK, v - 1);
  }

  lemma Adjacent(n: nat, v: nat, k: nat)
    requires 1 <= v <= n
    ensures k % BLOCK != 0 ==> After(n, v, k) == Place(n, v, k)
  {
    if k % BLOCK != 0 { assert (k - 1) / BLOCK == k / BLOCK; }
  }

  /** Nothing wanted lies between one byte of image v and the next. */
  lemma NothingBetween(n: nat, v: nat, k: nat, c: nat)
    requires 1 <= v <= n && After(n, v, k) <= c < Place(n, v, k)
    ensures !Wanted(n, v, c)
  {
    Adjacent(n, v, k);
    if k % BLOCK == 0 {
      var r := k / BLOCK;
      var b := c / BLOCK;
      assert b < r * n + (v - 1);
      if k == 0 {
        ModIs(b, n, 0, b);
      } else {
        assert (k - 1) / BLOCK == r - 1 && (k - 1) % BLOCK == BLOCK - 1;
        assert b >= (r - 1) * n + v;
        var j := b - (r - 1) * n;
        Distribute(r - 1, n);
        assert v <= j < n + v - 1;
        if j < n { ModIs(b, n, r - 1, j); } else { ModIs(b, n, r, j - n); }
      }
    }
  }

  lemma NotPast(n: nat, v: nat, k: nat, c: nat)
    requires 1 <= v <= n
    ensures After(n, v, k) <= c <= Place(n, v, k) && Wanted(n, v, c) ==> c == Place(n, v, k)
  {
    hide Place, After, Wanted;
    if After(n, v, k) <= c < Place(n, v, k) { NothingBetween(n, v, k, c); }
  }

  /** Taking byte k brings the reader behind it. */
  lemma AfterPlace(n: nat, v: nat, k: nat)
    requires 1 <= v <= n
    ensures After(n, v, k + 1) == Place(n, v, k) + 1
  {
    hide Place;
  }

  /** The skip loop has a place to stop at, wherever it starts. */
  lemma PlaceAhead(n: nat, v: nat, c: nat)
    requires 1 <= v <= n
    ensures c <= Place(n, v, c)
  {
    MulMono(1, n, c / BLOCK);
    assert (c / BLOCK) * n == n * (c / BLOCK);
  }

  lemma AfterBefore(n: nat, v: nat, k: nat)
    requires 1 <= v <= n
    ensures After(n, v, k) <= Place(n, v, k)
  {
    Adjacent(n, v, k);
    if k > 0 && k % BLOCK == 0 {
      assert (k - 1) / BLOCK == k / BLOCK - 1 && (k - 1) % BLOCK == BLOCK - 1;
      Distribute(k / BLOCK - 1, n);
    }
  }

  // ---- Sections -----------------------------------------------------------

  datatype Section = Section(name: char, content: seq<Byte>)

  /** A section that may stand before 'e'. */
  predicate Short(s: Section) { 'a' <= s.name <= 'd' && |s.content| < 256 }

  function SectionBytes(s: Section): seq<Byte>
    requires Short(s)
  {
    [s.name as int, 0, |s.content|] + s.content
  }

  function Header(ss: seq<Section>): seq<Byte>
    requires forall i :: 0 <= i < |ss| ==> Short(ss[i])
  {
    if ss == [] then [] else SectionBytes(ss[0]) + Header(ss[1..])
  }

  function BigEndian(x: Word32): seq<Byte> {
    [x / 0x1000000, x / 0x10000 % 256, x / 256 % 256, x % 256]
  }

  /** Byte k, or 0 behind the end. */
  function At(img: seq<Byte>, k: nat): Byte { if k < |img| then img[k] else 0 }

  datatype Search = Found(length: int, at: nat) | NotFound

  function Length2(img: seq<Byte>, k: nat): int { At(img, k) * 256 + At(img, k + 1) }
  function Length4(img: seq<Byte>, k: nat): int
  {
    At(img, k) * 0x1000000 + At(img, k + 1) * 0x10000 + Length2(img, k + 2)
  }

  function Min(a: int, b: int): int { if a < b then a else b }

  /** The search from byte k on, n bytes of its budget used. */
  function Find(img: seq<Byte>, k: nat, n: nat, name: char): Search
    decreases SEARCH_LIMIT - n
  {
    if n >= SEARCH_LIMIT then NotFound
    else
      var c := At(img, k);
      if c < 'a' as int || c > 'e' as int then NotFound
      else if c == 'e' as int then
        var length := Length4(img, k + 1);
        if c == name as int then Found(length, k + 5)
        else
          var skip := SkipCount(length, n + 5);
          Find(img, k + 5 + skip, n + 5 + skip, name)
      else
        var length := Length2(img, k + 1);
        if length > 255 then NotFound
        else if c == name as int then Found(length, k + 3)
        else
          var skip := SkipCount(length, n + 3);
          Find(img, k + 3 + skip, n + 3 + skip, name)
  }

  /** How much of a section's content is skipped before the budget is used up. */
  function SkipCount(length: int, n: nat): nat
  {
    if n >= SEARCH_LIMIT || length <= 0 then 0 else Min(length, SEARCH_LIMIT - n)
  }

  lemma {:induction false} FindLength(img: seq<Byte>, k: nat, n: nat, name: char)
    ensures Find(img, k, n, name).Found? ==> 0 <= Find(img, k, n, name).length < 0x1_0000_0000
    decreases SEARCH_LIMIT - n
  {
    if n < SEARCH_LIMIT {
      var s5, s3 := SkipCount(Length4(img, k + 1), n + 5), SkipCount(Length2(img, k + 1), n + 3);
      FindLength(img, k + 5 + s5, n + 5 + s5, name);
      FindLength(img, k + 3 + s3, n + 3 + s3, name);
    }
  }

  lemma FindStep(img: seq<Byte>, k: nat, n: nat, s: Section)
    requires Short(s) && k + |SectionBytes(s)| <= |img| && n < SEARCH_LIMIT
    requires img[k..k + |SectionBytes(s)|] == SectionBytes(s)
    ensures n + |SectionBytes(s)| < SEARCH_LIMIT ==>
      Find(img, k, n, 'e') == Find(img, k + |SectionBytes(s)|, n + |SectionBytes(s)|, 'e')
    ensures n + |SectionBytes(s)| >= SEARCH_LIMIT ==> Find(img, k, n, 'e') == NotFound
  {
    var t := img[k..k + |SectionBytes(s)|];
    assert t[0] == img[k] && t[1] == img[k + 1] && t[2] == img[k + 2];
    assert Length2(img, k + 1) == |s.content|;
  }

  /**
   * Section 'e' is found exactly when the sections before it take less than the
   * search limit; its length is then read correctly, and the reader stands at
   * its first byte.
   */
  lemma {:induction false} FindsBitstream(img: seq<Byte>, k: nat, n: nat, ss: seq<Section>, length: Word32)
    requires forall i :: 0 <= i < |ss| ==> Short(ss[i])
    requires var h := Header(ss) + Tail(length);
      k + |h| <= |img| && img[k..k + |h|] == h
    requires n < SEARCH_LIMIT
    ensures var h := |Header(ss)|;
      Find(img, k, n, 'e') == if n + h < SEARCH_LIMIT then Found(length, k + h + 5) else NotFound
    decreases |ss|
  {
    hide Find, SectionBytes, BigEndian;
    var tail := Tail(length);
    if ss == [] {
      assert Header(ss) + tail == tail && |tail| == 5 by { TailLength(length); }
      FindEnd(img, k, n, length);
    } else {
      var s := SectionBytes(ss[0]);
      assert Header(ss) + tail == s + (Header(ss[1..]) + tail);
      HeadOf(img, k, s, Header(ss[1..]) + tail);
      FindStep(img, k, n, ss[0]);
      if n + |s| < SEARCH_LIMIT {
        FindsBitstream(img, k + |s|, n + |s|, ss[1..], length);
      }
    }
  }

  function Tail(length: Word32): seq<Byte> { ['e' as int] + BigEndian(length) }

  lemma TailLength(length: Word32)
    ensures |Tail(length)| == 5
  {
  }

  lemma FindEnd(img: seq<Byte>, k: nat, n: nat, length: Word32)
    requires k + 5 <= |img| && img[k..k + 5] == Tail(length) && n < SEARCH_LIMIT
    ensures Find(img, k, n, 'e') == Found(length, k + 5)
  {
    var t := img[k..k + 5];
    assert t[0] == img[k] && t[1] == img[k + 1] && t[2] == img[k + 2] && t[3] == img[k + 3] && t[4] == img[k + 4];
    assert BigEndian(length) == t[1..];
    BigEndianBack(length);
  }

  lemma HeadOf(img: seq<Byte>, k: nat, a: seq<Byte>, b: seq<Byte>)
    requires k + |a + b| <= |img| && img[k..k + |a + b|] == a + b
    ensures img[k..k + |a|] == a && img[k + |a|..k + |a| + |b|] == b
  {
    assert img[k..k + |a|] == img[k..k + |a + b|][..|a|];
    assert img[k + |a|..k + |a| + |b|] == img[k..k + |a + b|][|a|..];
  }

  function FromBytes(a: int, b: int, c: int, d: int): int { a * 0x1000000 + b * 0x10000 + (c * 256 + d) }

  lemma BigEndianBack(x: Word32)
    ensures FromBytes(BigEndian(x)[0], BigEndian(x)[1], BigEndian(x)[2], BigEndian(x)[3]) == x
  {
    var a := x / 256;
    var b := a / 256;
    assert x / 0x10000 == b && x / 0x1000000 == b / 256;
    assert x == a * 256 + x % 256 && a == b * 256 + a % 256 && b == b / 256 * 256 + b % 256;
  }
}
