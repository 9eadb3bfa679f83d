/**
 * The FPGA loader (armsrc/fpgaloader.c:193-275, 340-347, 370-415): a ring buffer
 * refilled from compressed chunks, the de-interleaver, the search for section
 * 'e', and the bytes clocked into the FPGA, most significant bit first.
 * Decompression is abstract: chunk k yields its bytes or fails.
 */
module FpgaLoader {
  import opened Types
  import opened FpgaImage
  import Arithmetic

  const RING: nat := 1024 * 39

  /** One decompression: its bytes, or the result the decompressor failed with. */
  datatype Chunk = Data(bytes: seq<Byte>) | Bad(res: int)

  predicate Decompresses(c: Chunk) { match c case Data(b) => 0 < |b| <= RING case Bad(r) => r <= 0 }

  /** Every chunk but the last fills the ring buffer. */
  predicate Whole(chunks: seq<Chunk>)
  {
    (forall i :: 0 <= i < |chunks| ==> chunks[i].Data? && 0 < |chunks[i].bytes| <= RING) &&
    (forall i :: 0 <= i < |chunks| - 1 ==> |chunks[i].bytes| == RING)
  }

  function Uncompressed(chunks: seq<Chunk>, k: nat): seq<Byte>
    requires Whole(chunks) && k <= |chunks|
  {
    if k == 0 then [] else Uncompressed(chunks, k - 1) + chunks[k - 1].bytes
  }

  lemma {:induction false} UncompressedLength(chunks: seq<Chunk>, k: nat)
    requires Whole(chunks) && k < |chunks|
    ensures |Uncompressed(chunks, k)| == k * RING
  {
    if k > 0 { UncompressedLength(chunks, k - 1); }
  }

  lemma {:induction false} UncompressedAt(chunks: seq<Chunk>, k: nat, q: nat, o: nat)
    requires Whole(chunks) && q < k <= |chunks| && o < |chunks[q].bytes|
    ensures q * RING + o < |Uncompressed(chunks, k)|
    ensures Uncompressed(chunks, k)[q * RING + o] == chunks[q].bytes[o]
  {
    UncompressedLength(chunks, k - 1);
    if q < k - 1 { UncompressedAt(chunks, k - 1, q, o); }
  }

  function All(chunks: seq<Chunk>): seq<Byte>
    requires Whole(chunks)
  {
    Uncompressed(chunks, |chunks|)
  }

  /** A position within the data lies within its chunk. */
  lemma InChunk(chunks: seq<Chunk>, q: nat, o: nat)
    requires Whole(chunks) && o < RING && q * RING + o < |All(chunks)|
    ensures q < |chunks| && o < |chunks[q].bytes|
    ensures All(chunks)[q * RING + o] == chunks[q].bytes[o]
  {
    var n := |chunks|;
    UncompressedLength(chunks, n - 1);
    assert |All(chunks)| == (n - 1) * RING + |chunks[n - 1].bytes|;
    UncompressedAt(chunks, n, q, o);
  }

  lemma AllLength(chunks: seq<Chunk>)
    requires Whole(chunks)
    ensures |All(chunks)| <= |chunks| * RING
  {
    if |chunks| > 0 { UncompressedLength(chunks, |chunks| - 1); }
  }

  /** The levels of the data pin for one byte. */
  function ByteBits(w: Byte): seq<bool>
  {
    [PinLevel(w, 128), PinLevel(w, 64), PinLevel(w, 32), PinLevel(w, 16), PinLevel(w, 8), PinLevel(w, 4), PinLevel(w, 2), PinLevel(w, 1)]
  }

  /** w & mask, for a mask of one bit. */
  function PinLevel(w: Byte, mask: int): bool
    requires mask > 0
  {
    w / mask % 2 == 1
  }

  function AllBits(ws: seq<Byte>): seq<bool>
  {
    if ws == [] then [] else AllBits(ws[..|ws| - 1]) + ByteBits(ws[|ws| - 1])
  }

  function Level(b: bool): int { if b then 1 else 0 }

  /** The binary number that some levels of the pin spell, the first one weighing most. */
  function Weigh(levels: seq<bool>): nat
  {
    if levels == [] then 0 else 2 * Weigh(levels[..|levels| - 1]) + Level(levels[|levels| - 1])
  }

  /** The levels of the pin taken eight by eight, each eight as a binary number. */
  function Octets(levels: seq<bool>): seq<nat>
    requires |levels| % 8 == 0
  {
    if levels == [] then [] else Octets(levels[..|levels| - 8]) + [Weigh(levels[|levels| - 8..])]
  }

  /** Between din and din' exactly these bytes went over the pin, most significant bit first. */
  predicate Sent(din: seq<bool>, din': seq<bool>, ws: seq<Byte>)
  {
    |din'| == |din| + 8 * |ws| && din'[..|din|] == din && Octets(din'[|din|..]) == ws
  }

  /** The weight of level k of a byte. */
  function Weight(k: nat): int
    requires k < 8
  {
    [128, 64, 32, 16, 8, 4, 2, 1][k]
  }

  lemma Halved(w: Byte, k: nat)
    requires k < 8
    ensures w / Weight(k) == 2 * (w / (2 * Weight(k))) + w / Weight(k) % 2
  {
    hide Weight;
    var m := Weight(k);
    WeightPositive(k);
    DivTwice(w, m);
  }

  lemma WeightPositive(k: nat)
    requires k < 8
    ensures Weight(k) > 0 && (k > 0 ==> 2 * Weight(k) == Weight(k - 1))
  {
  }

  lemma DivTwice(w: nat, m: nat)
    requires m > 0
    ensures w / (2 * m) == w / m / 2
  {
    var q, r := w / m, w % m;
    var p := q / 2;
    Doubled(p, m);
    if q == 2 * p {
      Arithmetic.ModIs(w, 2 * m, p, r);
    } else {
      assert q == 2 * p + 1;
      Arithmetic.Distribute(2 * p, m);
      Arithmetic.ModIs(w, 2 * m, p, m + r);
    }
  }

  lemma Doubled(p: nat, m: nat)
    ensures p * (2 * m) == 2 * p * m
  {
  }

  /** The first k levels of a byte, weighed, are the byte without its other bits. */
  lemma {:induction false} WeighFirst(w: Byte, k: nat)
    requires k < 8
    ensures |ByteBits(w)| == 8 && Weigh(ByteBits(w)[..k + 1]) == w / Weight(k)
  {
    LevelAt(w, k);
    Halved(w, k);
    WeightPositive(k);
    hide ByteBits, Weight;
    var s := ByteBits(w);
    var t := s[..k + 1];
    assert t[..k] == s[..k] && t[k] == s[k];
    if k > 0 { WeighFirst(w, k - 1); } else { TopWeight(w); }
  }

  lemma LevelAt(w: Byte, k: nat)
    requires k < 8
    ensures |ByteBits(w)| == 8 && Weight(k) > 0 && ByteBits(w)[k] == PinLevel(w, Weight(k))
  {
    hide PinLevel;
  }

  lemma TopWeight(w: Byte)
    ensures w / (2 * Weight(0)) == 0
  {
  }

  /** The eight levels of a byte, weighed, are the byte. */
  lemma ByteWeighed(w: Byte)
    ensures |ByteBits(w)| == 8 && Weigh(ByteBits(w)) == w
  {
    hide Weigh, ByteBits;
    WeighFirst(w, 7);
    assert ByteBits(w)[..8] == ByteBits(w);
  }

  lemma {:induction false} AllBitsSent(din: seq<bool>, ws: seq<Byte>)
    ensures Sent(din, din + AllBits(ws), ws)
    decreases |ws|
  {
    hide ByteBits, Weigh;
    var sent := AllBits(ws);
    assert (din + sent)[|din|..] == sent;
    if ws != [] {
      var n := |ws| - 1;
      AllBitsSent([], ws[..n]);
      ByteWeighed(ws[n]);
      var s, t := AllBits(ws[..n]), ByteBits(ws[n]);
      assert ([] + s)[0..] == s;
      assert sent[..|sent| - 8] == s && sent[|sent| - 8..] == t;
      assert ws == ws[..n] + [ws[n]];
    }
  }

  /** The compressed image is sound: it expands to the images interleaved. */
  ghost predicate Sound(chunks: seq<Chunk>, images: seq<seq<Byte>>, blocks: nat)
  {
    Whole(chunks) && SameLength(images, blocks) && All(chunks) == Combine(images, blocks)
  }

  class Loader {
    const chunks: seq<Chunk>
    const buffer: array<Byte>
    var next: nat
    var ptr: nat
    var count: nat
    var din: seq<bool>

    ghost predicate Valid()
      reads this`next, this`ptr
    {
      buffer.Length == RING && ptr <= RING && next <= |chunks| &&
      forall i :: 0 <= i < |chunks| ==> Decompresses(chunks[i])
    }

    /** What the ring buffer holds is the chunk read last; count bytes are out. */
    ghost predicate InStep()
      requires Valid()
      reads this`next, this`ptr, this`count, buffer
    {
      Whole(chunks) &&
      if next == 0 then ptr == RING && count == 0
      else
        count == (next - 1) * RING + ptr && |chunks[next - 1].bytes| <= RING &&
        buffer[..|chunks[next - 1].bytes|] == chunks[next - 1].bytes
    }

    /** k bytes of image v have been delivered. */
    ghost predicate Reading(images: seq<seq<Byte>>, blocks: nat, v: nat, k: nat)
      requires Valid() && 1 <= v <= |images|
      reads this`next, this`ptr, this`count, buffer
    {
      Sound(chunks, images, blocks) && InStep() && count == After(|images|, v, k)
    }

    constructor (cs: seq<Chunk>)
      requires forall i :: 0 <= i < |cs| ==> Decompresses(cs[i])
      ensures Valid() && chunks == cs && din == [] && fresh(buffer)
    {
      chunks := cs;
      buffer := new Byte[RING](_ => 0);
      next, ptr, count, din := 0, RING, 0, [];
    }

    /** get_from_fpga_combined_stream */
    method PullCombined() returns (b: int)
      requires Valid()
      modifies this`next, this`ptr, this`count, buffer
      ensures Valid() && b < 256
      ensures count == old(count) + 1 || (count == old(count) && old(ptr) == RING && ptr == 0)
      ensures old(InStep()) && old(count) < |All(chunks)| ==>
        InStep() && count == old(count) + 1 && b == All(chunks)[old(count)]
    {
      if ptr == RING {
        var res := NextChunk();
        if res <= 0 { return res; }
      }
      if old(InStep()) && count < |All(chunks)| { InChunk(chunks, next - 1, ptr); }
      count := count + 1;
      b := buffer[ptr];
      ptr := ptr + 1;
    }

    /** The buffer is used up: decompress the next chunk into it. */
    method NextChunk() returns (res: int)
      requires Valid() && ptr == RING
      modifies this`next, this`ptr, buffer
      ensures Valid() && ptr == 0
      ensures old(InStep()) && count < |All(chunks)| ==> InStep() && res > 0 && next > 0
    {
      hide All;
      if Whole(chunks) { AllLength(chunks); }
      ptr := 0;
      if next == |chunks| { return 0; }
      match chunks[next] {
        case Bad(r) =>
          next := |chunks|;
          return r;
        case Data(bytes) =>
          Refill(bytes);
          next := next + 1;
          return |bytes|;
      }
    }

    method Refill(bytes: seq<Byte>)
      requires Valid() && |bytes| <= RING
      modifies buffer
      ensures buffer[..|bytes|] == bytes
    {
      var i := 0;
      while i < |bytes|
        invariant 0 <= i <= |bytes| && buffer[..i] == bytes[..i]
      {
        buffer[i] := bytes[i];
        i := i + 1;
      }
    }
  
    /** get_from_fpga_stream: skips what belongs to the other images. */
    method Pull(v: nat, n: nat, ghost images: seq<seq<Byte>>, ghost blocks: nat, ghost k: nat) returns (b: int)
      requires Valid() && 1 <= v <= n == |images|
      modifies this`next, this`ptr, this`count, buffer
      ensures Valid() && b < 256
      ensures old(Reading(images, blocks, v, k)) && k < blocks * BLOCK ==>
        Reading(images, blocks, v, k + 1) && b == images[v - 1][k]
    {
      hide Place, After, Wanted, InStep, Combine, All, Whole, SameLength;
      ghost var target := if old(Reading(images, blocks, v, k)) then Place(n, v, k) else Place(n, v, count);
      PlaceAhead(n, v, count);
      if old(Reading(images, blocks, v, k)) && k < blocks * BLOCK {
        CombinedAt(images, blocks, v, k);
      }
      AfterBefore(n, v, k);
      WantedAtPlace(n, v, k);
      WantedAtPlace(n, v, old(count));
      while !Wanted(n, v, count)
        invariant Valid()
        invariant old(Reading(images, blocks, v, k)) && k < blocks * BLOCK ==>
          Sound(chunks, images, blocks) && InStep() && After(n, v, k) <= count <= Place(n, v, k)
        invariant count <= target
        decreases target - count, if ptr == RING then 1 else 0
      {
        var _ := PullCombined();
      }
      NotPast(n, v, k, count);
      AfterPlace(n, v, k);
      b := PullCombined();
    }
  
    /** reset_fpga_stream: back to the first chunk, and the fixed header. */
    method ResetStream(v: nat, n: nat, ghost images: seq<seq<Byte>>, ghost blocks: nat) returns (ok: bool)
      requires Valid() && 1 <= v <= n == |images|
      modifies this`next, this`ptr, this`count, buffer
      ensures Valid()
      ensures Sound(chunks, images, blocks) && blocks > 0 ==>
        Reading(images, blocks, v, |FixedHeader()|) && (ok <==> images[v - 1][..|FixedHeader()|] == FixedHeader())
    {
      hide Place, Sound, Whole, Combine, All, FixedHeader;
      next, ptr, count := 0, RING, 0;
      var header: seq<int> := [];
      StartsReading(images, blocks, v);
      if Sound(chunks, images, blocks) && blocks > 0 { ReachesHeader(images, blocks, v); }
      var i := 0;
      while i < |FixedHeader()|
        invariant 0 <= i <= |FixedHeader()| && |header| == i && Valid()
        invariant Sound(chunks, images, blocks) && blocks > 0 ==>
          Reading(images, blocks, v, i) && header == images[v - 1][..i]
      {
        var b := Pull(v, n, images, blocks, i);
        header := header + [b];
        i := i + 1;
      }
      ok := header == FixedHeader();
    }

    lemma StartsReading(images: seq<seq<Byte>>, blocks: nat, v: nat)
      requires Valid() && 1 <= v <= |images| && next == 0 && ptr == RING && count == 0
      ensures Sound(chunks, images, blocks) ==> Reading(images, blocks, v, 0)
    {
      hide Combine, All;
    }

    lemma ReachesHeader(images: seq<seq<Byte>>, blocks: nat, v: nat)
      requires Sound(chunks, images, blocks) && blocks > 0 && 1 <= v <= |images|
      ensures blocks * BLOCK >= |FixedHeader()| + SEARCH_LIMIT + 10
      ensures |images[v - 1]| == blocks * BLOCK
    {
      hide Combine, All;
    }
  
    /** Two bytes of a length field, the more significant first. */
    method PullLength2(v: nat, n: nat, ghost images: seq<seq<Byte>>, ghost blocks: nat, ghost k: nat)
      returns (length: int)
      requires Valid() && 1 <= v <= n == |images|
      modifies this`next, this`ptr, this`count, buffer
      ensures Valid()
      ensures old(Reading(images, blocks, v, k)) && k + 2 <= blocks * BLOCK ==>
        Reading(images, blocks, v, k + 2) && length == Length2(images[v - 1], k)
    {
      hide Place, After, InStep, Combine, All, Whole;
      var a := Pull(v, n, images, blocks, k);
      var b := Pull(v, n, images, blocks, k + 1);
      length := a * 256 + b;
    }

    /** The skipping of a section's content, as far as the budget goes. */
    method SkipContent(v: nat, n: nat, length: int, used: nat,
                       ghost images: seq<seq<Byte>>, ghost blocks: nat, ghost k: nat)
      returns (used': nat)
      requires Valid() && 1 <= v <= n == |images|
      modifies this`next, this`ptr, this`count, buffer
      ensures Valid() && used' == used + SkipCount(length, used)
      ensures old(Reading(images, blocks, v, k)) && k + SEARCH_LIMIT <= blocks * BLOCK + used ==>
        Reading(images, blocks, v, k + (used' - used))
    {
      hide Reading, Place;
      var i := 0;
      used' := used;
      while i < length && used' < SEARCH_LIMIT
        invariant Valid() && used' == used + i && i <= SkipCount(length, used)
        invariant old(Reading(images, blocks, v, k)) && k + SEARCH_LIMIT <= blocks * BLOCK + used ==>
          Reading(images, blocks, v, k + i)
      {
        var _ := Pull(v, n, images, blocks, k + i);
        i := i + 1;
        used' := used' + 1;
      }
    }

    /** bitparse_find_section, on a stream that stands behind the fixed header. */
    method FindSection(v: nat, n: nat, name: char, ghost images: seq<seq<Byte>>, ghost blocks: nat)
      returns (found: bool, length: int)
      requires Valid() && 1 <= v <= n == |images|
      modifies this`next, this`ptr, this`count, buffer
      ensures Valid()
      ensures old(Reading(images, blocks, v, |FixedHeader()|)) && blocks > 0 ==>
        match Find(images[v - 1], |FixedHeader()|, 0, name)
        case NotFound => !found
        case Found(l, at) => found && length == l && Reading(images, blocks, v, at)
    {
      hide Reading, Place, Find;
      ghost var k := |FixedHeader()|;
      ghost var sure := Reading(images, blocks, v, k) && blocks > 0;
      ghost var img := images[v - 1];
      found, length := false, 0;
      if sure { ImageLength(images, blocks, v, k); }
      FindOver(img, name);
      var used := 0;
      while used < SEARCH_LIMIT
        invariant Valid() && !found && used < SEARCH_LIMIT + 5
        invariant sure ==> Reading(images, blocks, v, k + used)
        invariant sure ==> Find(img, k, 0, name) == Find(img, k + used, used, name)
        decreases SEARCH_LIMIT + 5 - used
      {
        FindAt(img, k + used, used, name);
        var c := Pull(v, n, images, blocks, k + used);
        used := used + 1;
        if c < 'a' as int || c > 'e' as int { return; }
        var high := 0;
        if c == 'e' as int {
          high := PullLength2(v, n, images, blocks, k + used);
          used := used + 2;
        }
        var low := PullLength2(v, n, images, blocks, k + used);
        used := used + 2;
        length := high * 0x10000 + low;
        if c != 'e' as int && length > 255 { return; }
        if c == name as int {
          found := true;
          return;
        }
        used := SkipContent(v, n, length, used, images, blocks, k + used);
      }
    }

    lemma FindOver(img: seq<Byte>, name: char)
      ensures forall k: nat, n: nat :: n >= SEARCH_LIMIT ==> Find(img, k, n, name) == NotFound
    {
    }

    /** Find, one section at a time. */
    lemma FindAt(img: seq<Byte>, k: nat, n: nat, name: char)
      requires n < SEARCH_LIMIT
      ensures var c := At(img, k);
        var head := if c == 'e' as int then 5 else 3;
        var length := if c == 'e' as int then Length4(img, k + 1) else Length2(img, k + 1);
        Find(img, k, n, name) ==
        if c < 'a' as int || c > 'e' as int || (c != 'e' as int && length > 255) then NotFound
        else if c == name as int then Found(length, k + head)
        else Find(img, k + head + SkipCount(length, n + head), n + head + SkipCount(length, n + head), name)
    {
      hide Length2, Length4, SkipCount;
    }

    /** DownloadFPGA_byte: eight levels of the data pin, each with a clock pulse. */
    method DownloadByte(w: Byte)
      modifies this`din
      ensures din == old(din) + ByteBits(w) && Sent(old(din), din, [w])
    {
      hide PinLevel;
      OneByteSent(din, w);
      ghost var before := din;
      var high, low := [PinLevel(w, 128), PinLevel(w, 64), PinLevel(w, 32), PinLevel(w, 16)],
        [PinLevel(w, 8), PinLevel(w, 4), PinLevel(w, 2), PinLevel(w, 1)];
      assert ByteBits(w) == high + low;
      assert before + (high + low) == before + high + low;
      SendNibble(PinLevel(w, 128), PinLevel(w, 64), PinLevel(w, 32), PinLevel(w, 16));
      SendNibble(PinLevel(w, 8), PinLevel(w, 4), PinLevel(w, 2), PinLevel(w, 1));
    }

    lemma OneByteSent(sent: seq<bool>, w: Byte)
      ensures Sent(sent, sent + ByteBits(w), [w])
    {
      hide ByteBits, Sent;
      AllBitsSent(sent, [w]);
      assert [w][..0] == [];
      assert AllBits([w]) == [] + ByteBits(w) == ByteBits(w);
    }

    method SendNibble(a: bool, b: bool, c: bool, d: bool)
      modifies this`din
      ensures din == old(din) + [a, b, c, d]
    {
      SendBit(a);
      SendBit(b);
      SendBit(c);
      SendBit(d);
    }

    method SendBit(high: bool)
      modifies this`din
      ensures din == old(din) + [high]
    {
      din := din + [high];
    }

    /** The sending loop of DownloadFPGA. */
    method Download(v: nat, n: nat, length: int, ghost images: seq<seq<Byte>>, ghost blocks: nat, ghost k: nat)
      requires Valid() && 1 <= v <= n == |images|
      modifies this`next, this`ptr, this`count, this`din, buffer
      ensures Valid()
      ensures old(Reading(images, blocks, v, k)) && 0 <= length && k + length <= |images[v - 1]| ==>
        Reading(images, blocks, v, k + length) && Sent(old(din), din, images[v - 1][k..k + length])
    {
      hide Reading, Place, ByteBits, AllBits, Sent;
      ghost var img := images[v - 1];
      ghost var sure := Reading(images, blocks, v, k) && 0 <= length && k + length <= |img|;
      if Reading(images, blocks, v, k) { ImageLength(images, blocks, v, k); }
      var i := 0;
      NoBits();
      assert sure ==> img[k..k + 0] == [];
      while i < length
        invariant 0 <= i && (0 <= length ==> i <= length) && Valid()
        invariant sure ==> Reading(images, blocks, v, k + i) && din == old(din) + AllBits(img[k..k + i])
      {
        var b := Pull(v, n, images, blocks, k + i);
        if b < 0 { break; }
        if sure { OneMore(img, k, i, old(din)); }
        DownloadByte(b);
        i := i + 1;
      }
      if sure { AllBitsSent(old(din), img[k..k + length]); }
    }

    lemma OneMore(img: seq<Byte>, k: nat, i: nat, sent: seq<bool>)
      requires k + i < |img|
      ensures sent + AllBits(img[k..k + i + 1]) == sent + AllBits(img[k..k + i]) + ByteBits(img[k + i])
    {
      hide ByteBits;
      var ws := img[k..k + i + 1];
      assert ws[..|ws| - 1] == img[k..k + i] && ws[|ws| - 1] == img[k + i];
    }

    lemma NoBits()
      ensures AllBits([]) == []
    {
    }

    lemma ImageLength(images: seq<seq<Byte>>, blocks: nat, v: nat, k: nat)
      requires Valid() && 1 <= v <= |images| && Reading(images, blocks, v, k)
      ensures |images[v - 1]| == blocks * BLOCK
    {
      hide Combine, All, Whole, InStep;
    }

    /** The loading part of FpgaDownloadAndGo. */
    method Load(v: nat, n: nat, ghost images: seq<seq<Byte>>, ghost blocks: nat) returns (loaded: bool)
      requires Valid() && 1 <= v <= n == |images|
      modifies this`next, this`ptr, this`count, this`din, buffer
      ensures Valid()
      ensures Sound(chunks, images, blocks) && blocks > 0 ==>
        Loaded(images[v - 1], old(din), din, loaded)
    {
      hide Reading, Place, Find, Sound, SameLength;
      var ok := ResetStream(v, n, images, blocks);
      if Sound(chunks, images, blocks) && blocks > 0 { ReachesHeader(images, blocks, v); }
      FindLength(images[v - 1], |FixedHeader()|, 0, 'e');
      if !ok { return false; }
      var found, length := FindSection(v, n, 'e', images, blocks);
      if found {
        ghost var s := Find(images[v - 1], |FixedHeader()|, 0, 'e');
        Download(v, n, ToInt32(length), images, blocks, if s.Found? then s.at else 0);
      }
      loaded := found;
    }
  }

  /** The length is passed on as a 32-bit int. */
  function ToInt32(x: int): int { if x >= 0x8000_0000 then x - 0x1_0000_0000 else x }

  /** What a load does with an image: nothing, or section 'e' goes out bit by bit. */
  predicate Loaded(img: seq<Byte>, din: seq<bool>, din': seq<bool>, loaded: bool)
    requires |img| >= |FixedHeader()|
  {
    if img[..|FixedHeader()|] != FixedHeader() then !loaded && din' == din
    else
      match Find(img, |FixedHeader()|, 0, 'e')
      case NotFound => !loaded && din' == din
      case Found(length, at) =>
        loaded && (0 <= ToInt32(length) && at + length <= |img| ==> Sent(din, din', img[at..at + length]))
  }

  /**
   * For an image made of the fixed header, sections 'a' to 'd' and section 'e':
   * exactly the body of section 'e' is clocked out if the sections before it take
   * less than 100 bytes, and nothing at all otherwise.
   */
  lemma DeliversBitstream(img: seq<Byte>, ss: seq<Section>, body: seq<Byte>, pad: seq<Byte>,
                          din: seq<bool>, din': seq<bool>, loaded: bool)
    requires forall i :: 0 <= i < |ss| ==> Short(ss[i])
    requires |body| < 0x8000_0000
    requires img == FixedHeader() + (Header(ss) + Tail(|body|)) + (body + pad)
    requires Loaded(img, din, din', loaded)
    ensures loaded <==> |Header(ss)| < 100
    ensures if loaded then Sent(din, din', body) else din' == din
  {
    hide Find, Header, FixedHeader, Tail, Sent;
    var f, h := FixedHeader(), Header(ss) + Tail(|body|);
    TailLength(|body|);
    Cut(f, h, body, pad);
    FindsBitstream(img, |f|, 0, ss, |body|);
  }

  lemma Cut(a: seq<Byte>, b: seq<Byte>, c: seq<Byte>, d: seq<Byte>)
    ensures var s := a + b + (c + d);
      s[..|a|] == a && s[|a|..|a| + |b|] == b && s[|a| + |b|..|a| + |b| + |c|] == c
  {
  }
}
