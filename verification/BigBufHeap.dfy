/**
 * The BigBuf allocator (armsrc/BigBuf.c:71-152, 281-323): chunks are taken from
 * the top downwards; the memory below the mark belongs to the trace.
 */
module BigBufHeap {
  import opened Types
  import ToSend

  const CARD_MEMORY_SIZE: nat := 4096
  const DMA_BUFFER_SIZE: nat := 256

  /** An address handed out and the number of bytes asked for. */
  datatype Chunk = Chunk(at: nat, len: nat)

  /** live lists what was handed out and not freed, the highest address first. */
  datatype Heap = Heap(size: nat, hi: nat, em: Option<nat>, toSend: Option<nat>, dma16: Option<nat>,
                       dma8: Option<nat>, live: seq<Chunk>)

  /** (chunksize + 3) & 0xfffc, in 16 bits. */
  function RoundUp(c: Word16): Word16 { (c + 3) / 4 * 4 % 0x1_0000 }

  function Malloc(h: Heap, c: Word16): (Heap, Option<nat>)
    requires h.hi >= RoundUp(c) || h.hi < c
  {
    if h.hi < c then (h, None)
    else
      var at := h.hi - RoundUp(c);
      (h.(hi := at, live := h.live + [Chunk(at, c)]), Some(at))
  }

  function Free(h: Heap): Heap
  {
    h.(hi := h.size, em := None, toSend := None, dma16 := None, dma8 := None, live := [])
  }

  /** The chunks from address a on. */
  function KeepFrom(live: seq<Chunk>, a: nat): seq<Chunk>
  {
    if live == [] then []
    else if live[|live| - 1].at < a then KeepFrom(live[..|live| - 1], a)
    else live
  }

  function FreeKeepEm(h: Heap): Heap
  {
    match h.em
    case Some(a) => h.(hi := a, toSend := None, dma16 := None, dma8 := None, live := KeepFrom(h.live, a))
    case None => h.(hi := h.size, toSend := None, dma16 := None, dma8 := None, live := [])
  }

  function GetEm(h: Heap): Heap
    requires Aligned(h)
  {
    if h.em.Some? then h
    else (var (h', p) := Malloc(h, CARD_MEMORY_SIZE); h'.(em := p))
  }

  function GetToSend(h: Heap): Heap
    requires Aligned(h)
  {
    if h.toSend.Some? then h
    else (var (h', p) := Malloc(h, ToSend.TOSEND_BUFFER_SIZE); h'.(toSend := p))
  }

  function GetDma16(h: Heap): Heap
    requires Aligned(h)
  {
    if h.dma16.Some? then h
    else (var (h', p) := Malloc(h, DMA_BUFFER_SIZE * 2); h'.(dma16 := p))
  }

  function GetDma8(h: Heap): Heap
    requires Aligned(h)
  {
    if h.dma8.Some? then h
    else (var (h', p) := Malloc(h, DMA_BUFFER_SIZE); h'.(dma8 := p))
  }

  // ---- The invariant ------------------------------------------------------

  predicate Aligned(h: Heap) { h.size % 4 == 0 && h.hi % 4 == 0 && h.hi <= h.size }

  /** The chunks lie one below the other, from top down to bottom. */
  predicate Stacked(live: seq<Chunk>, top: nat, bottom: nat)
  {
    if live == [] then bottom == top
    else
      var c := live[|live| - 1];
      c.at == bottom && c.at % 4 == 0 && c.len <= 65532 &&
      Stacked(live[..|live| - 1], top, bottom + (c.len + 3) / 4 * 4)
  }

  predicate Held(live: seq<Chunk>, p: Option<nat>, len: nat) { p.Some? ==> Chunk(p.value, len) in live }

  /** What holds in every state the allocator reaches. */
  predicate Valid(h: Heap)
  {
    Aligned(h) && h.size < 0x1_0000 && Stacked(h.live, h.size, h.hi) &&
    Held(h.live, h.em, CARD_MEMORY_SIZE) && Held(h.live, h.toSend, ToSend.TOSEND_BUFFER_SIZE) &&
    Held(h.live, h.dma16, DMA_BUFFER_SIZE * 2) && Held(h.live, h.dma8, DMA_BUFFER_SIZE)
  }

  function Init(size: nat): Heap { Heap(size, size, None, None, None, None, []) }

  datatype Call = CallMalloc(c: Word16) | CallFree | CallFreeKeepEm | CallEm | CallToSend | CallDma16 | CallDma8

  function Do(h: Heap, call: Call): Heap
    requires Aligned(h)
  {
    match call
    case CallMalloc(c) => Malloc(h, c).0
    case CallFree => Free(h)
    case CallFreeKeepEm => FreeKeepEm(h)
    case CallEm => GetEm(h)
    case CallToSend => GetToSend(h)
    case CallDma16 => GetDma16(h)
    case CallDma8 => GetDma8(h)
  }

  // ---- Each call keeps it ---------------------------------------------------

  lemma StackedPush(live: seq<Chunk>, top: nat, bottom: nat, c: Chunk)
    requires Stacked(live, top, bottom) && c.at % 4 == 0 && c.len <= 65532 && c.at + (c.len + 3) / 4 * 4 == bottom
    ensures Stacked(live + [c], top, c.at)
  {
    assert (live + [c])[..|live|] == live;
  }

  lemma HeldPush(live: seq<Chunk>, p: Option<nat>, len: nat, c: Chunk)
    requires Held(live, p, len)
    ensures Held(live + [c], p, len)
  {
  }

  lemma MallocKeeps(h: Heap, c: Word16)
    requires Valid(h)
    ensures Valid(Malloc(h, c).0)
    ensures Malloc(h, c).1.Some? ==> Chunk(Malloc(h, c).1.value, c) in Malloc(h, c).0.live
    ensures Malloc(h, c).1 == None <==> h.hi < c
  {
    hide Stacked, Held;
    if h.hi >= c {
      var n := Chunk(h.hi - RoundUp(c), c);
      StackedPush(h.live, h.size, h.hi, n);
      HeldPush(h.live, h.em, CARD_MEMORY_SIZE, n);
      HeldPush(h.live, h.toSend, ToSend.TOSEND_BUFFER_SIZE, n);
      HeldPush(h.live, h.dma16, DMA_BUFFER_SIZE * 2, n);
      HeldPush(h.live, h.dma8, DMA_BUFFER_SIZE, n);
      assert n in h.live + [n];
    }
  }

  /** Freeing down to a live chunk leaves a stack that ends with it. */
  lemma {:induction false} KeepFromStacked(live: seq<Chunk>, top: nat, bottom: nat, c: Chunk)
    requires Stacked(live, top, bottom) && c in live && c.len > 0
    ensures Stacked(KeepFrom(live, c.at), top, c.at) && c in KeepFrom(live, c.at)
    ensures bottom <= c.at
    decreases |live|
  {
    var l := live[|live| - 1];
    if l != c {
      assert live == live[..|live| - 1] + [l];
      KeepFromStacked(live[..|live| - 1], top, bottom + (l.len + 3) / 4 * 4, c);
    }
  }

  lemma FreeKeeps(h: Heap)
    requires Valid(h)
    ensures Valid(Free(h)) && Valid(FreeKeepEm(h))
    ensures h.em.Some? ==> Chunk(h.em.value, CARD_MEMORY_SIZE) in FreeKeepEm(h).live
  {
    hide KeepFrom;
    if h.em.Some? { KeepFromStacked(h.live, h.size, h.hi, Chunk(h.em.value, CARD_MEMORY_SIZE)); EmAligned(h); }
  }

  lemma {:induction false} InStack(live: seq<Chunk>, top: nat, bottom: nat, c: Chunk)
    requires Stacked(live, top, bottom) && c in live
    ensures bottom <= c.at && c.at + c.len <= top && c.at % 4 == 0
    ensures bottom <= top
    decreases |live|
  {
    var l := live[|live| - 1];
    StackHeight(live, top, bottom);
    if c != l {
      assert live == live[..|live| - 1] + [l];
      InStack(live[..|live| - 1], top, bottom + (l.len + 3) / 4 * 4, c);
    } else {
      StackHeight(live[..|live| - 1], top, bottom + (l.len + 3) / 4 * 4);
    }
  }

  lemma {:induction false} StackHeight(live: seq<Chunk>, top: nat, bottom: nat)
    requires Stacked(live, top, bottom)
    ensures bottom <= top
    decreases |live|
  {
    if live != [] {
      var l := live[|live| - 1];
      StackHeight(live[..|live| - 1], top, bottom + (l.len + 3) / 4 * 4);
    }
  }

  lemma EmAligned(h: Heap)
    requires Valid(h) && h.em.Some?
    ensures h.em.value % 4 == 0 && h.em.value <= h.size
  {
    InStack(h.live, h.size, h.hi, Chunk(h.em.value, CARD_MEMORY_SIZE));
  }

  lemma GettersKeep(h: Heap)
    requires Valid(h)
    ensures Valid(GetEm(h)) && Valid(GetToSend(h)) && Valid(GetDma16(h)) && Valid(GetDma8(h))
  {
    hide Stacked, RoundUp, Held, Malloc;
    MallocKeeps(h, CARD_MEMORY_SIZE);
    MallocKeeps(h, ToSend.TOSEND_BUFFER_SIZE);
    MallocKeeps(h, DMA_BUFFER_SIZE * 2);
    MallocKeeps(h, DMA_BUFFER_SIZE);
    GetKeeps(h, CARD_MEMORY_SIZE);
    GetKeeps(h, ToSend.TOSEND_BUFFER_SIZE);
    GetKeeps(h, DMA_BUFFER_SIZE * 2);
    GetKeeps(h, DMA_BUFFER_SIZE);
  }

  /** A pointer set to what malloc returned denotes the new chunk. */
  lemma GetKeeps(h: Heap, c: Word16)
    requires Valid(h)
    ensures var (h', p) := Malloc(h, c);
      Held(h'.live, p, c) && h' == h.(hi := h'.hi, live := h'.live)
  {
    MallocKeeps(h, c);
  }

  lemma DoKeeps(h: Heap, call: Call)
    requires Valid(h)
    ensures Valid(Do(h, call)) && Do(h, call).size == h.size
  {
    hide Valid, GetEm, GetToSend, GetDma16, GetDma8, Malloc, Aligned;
    SizeKept(h, call);
    match call
    case CallMalloc(c) => MallocKeeps(h, c);
    case CallFree => FreeKeeps(h);
    case CallFreeKeepEm => FreeKeeps(h);
    case CallEm => GettersKeep(h);
    case CallToSend => GettersKeep(h);
    case CallDma16 => GettersKeep(h);
    case CallDma8 => GettersKeep(h);
  }

  lemma SizeKept(h: Heap, call: Call)
    requires Valid(h)
    ensures Aligned(h) && Do(h, call).size == h.size
  {
    hide Stacked, Held, KeepFrom, RoundUp;
  }

  // ---- Every run ------------------------------------------------------------

  ghost function Run(h: Heap, calls: seq<Call>): (r: Heap)
    requires Valid(h)
    ensures Valid(r) && r.size == h.size
    decreases |calls|
  {
    hide Stacked, Held, Do;
    if calls == [] then h
    else
      DoKeeps(h, calls[0]);
      Run(Do(h, calls[0]), calls[1..])
  }

  predicate Apart(a: Chunk, b: Chunk) { a.at + a.len <= b.at || b.at + b.len <= a.at }

  lemma {:induction false} StackApart(live: seq<Chunk>, top: nat, bottom: nat, i: nat, j: nat)
    requires Stacked(live, top, bottom) && i < j < |live|
    ensures live[j].at + live[j].len <= live[i].at
    decreases |live|
  {
    var n := |live| - 1;
    var l := live[n];
    if j < n {
      StackApart(live[..n], top, bottom + (l.len + 3) / 4 * 4, i, j);
    } else {
      assert live[..n][i] == live[i];
      InStack(live[..n], top, bottom + (l.len + 3) / 4 * 4, live[i]);
    }
  }

  /**
   * From a 4-aligned size below 65536 and over every run of calls: the live chunks
   * are aligned, pairwise disjoint and inside [hi, size), and every buffer pointer
   * that is set denotes a live chunk of its full size.
   */
  lemma EveryRun(size: nat, calls: seq<Call>)
    requires size % 4 == 0 && size < 0x1_0000
    ensures Valid(Init(size))
    ensures var h := Run(Init(size), calls);
      && (forall i :: 0 <= i < |h.live| ==>
            h.live[i].at % 4 == 0 && h.hi <= h.live[i].at && h.live[i].at + h.live[i].len <= size)
      && (forall i, j :: 0 <= i < j < |h.live| ==> Apart(h.live[i], h.live[j]))
      && Held(h.live, h.em, CARD_MEMORY_SIZE) && Held(h.live, h.toSend, ToSend.TOSEND_BUFFER_SIZE)
      && Held(h.live, h.dma16, DMA_BUFFER_SIZE * 2) && Held(h.live, h.dma8, DMA_BUFFER_SIZE)
  {
    hide Run, Stacked, Held;
    StartsValid(size);
    var h := Run(Init(size), calls);
    forall i | 0 <= i < |h.live|
      ensures h.live[i].at % 4 == 0 && h.hi <= h.live[i].at && h.live[i].at + h.live[i].len <= size
    {
      InStack(h.live, h.size, h.hi, h.live[i]);
    }
    forall i, j | 0 <= i < j < |h.live| ensures Apart(h.live[i], h.live[j]) {
      StackApart(h.live, h.size, h.hi, i, j);
    }
  }

  lemma StartsValid(size: nat)
    requires size % 4 == 0 && size < 0x1_0000
    ensures Valid(Init(size))
  {
  }

  /** The rounding is exact up to 65532 and wraps to nothing above. */
  lemma RoundUpExact(c: Word16)
    ensures c <= RoundUp(c) < c + 4 <==> c <= 65532
    ensures c > 65532 ==> RoundUp(c) == 0
  {
  }

  /**
   * A memory of 65536 bytes or more would break this: a request above 65532 is
   * granted and reserves nothing, so the next one is given the same address.
   */
  lemma LargeRequestOverlaps(h: Heap, c: Word16)
    requires Aligned(h) && c > 65532 && h.hi >= c
    ensures var (h1, p) := Malloc(h, c);
      p == Some(h.hi) && h1.hi == h.hi && Malloc(h1, c).1 == p
  {
  }
}
