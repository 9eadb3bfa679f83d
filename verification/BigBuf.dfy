/**
 * BigBuf as it runs (armsrc/BigBuf.c:71-256, 281-323): the mark, the buffer
 * pointers and the trace are changed in place, and the allocator and the trace
 * share one memory.
 */
module BigBuf {
  import opened Types
  import ToSend
  import opened BigBufHeap
  import opened BigBufTrace

  /** The bytes of these chunks are the same in two memories. */
  predicate SameChunks(live: seq<Chunk>, a: seq<Byte>, b: seq<Byte>)
  {
    |a| == |b| &&
    forall i :: 0 <= i < |live| ==>
      live[i].at + live[i].len <= |a| &&
      a[live[i].at..live[i].at + live[i].len] == b[live[i].at..live[i].at + live[i].len]
  }

  /** Equal from the mark on means equal on every live chunk. */
  lemma AboveMark(h: BigBufHeap.Heap, a: seq<Byte>, b: seq<Byte>)
    requires BigBufHeap.Valid(h) && |a| == |b| == h.size && a[h.hi..] == b[h.hi..]
    ensures SameChunks(h.live, a, b)
  {
    forall i | 0 <= i < |h.live|
      ensures var c := h.live[i]; c.at + c.len <= |a| && a[c.at..c.at + c.len] == b[c.at..c.at + c.len]
    {
      var c := h.live[i];
      InStack(h.live, h.size, h.hi, c);
      assert a[c.at..c.at + c.len] == a[h.hi..][c.at - h.hi..c.at - h.hi + c.len];
      assert b[c.at..c.at + c.len] == b[h.hi..][c.at - h.hi..c.at - h.hi + c.len];
    }
  }

  class BigBuf {
    const mem: array<Byte>
    var hi: nat
    var em: Option<nat>
    var toSend: Option<nat>
    var dma16: Option<nat>
    var dma8: Option<nat>
    var traceLen: nat
    var tracing: bool
    /** What was handed out and not freed. */
    ghost var live: seq<Chunk>

    ghost function Heap(): BigBufHeap.Heap
      reads this
    {
      BigBufHeap.Heap(mem.Length, hi, em, toSend, dma16, dma8, live)
    }

    ghost function Trace(): BigBufTrace.Trace
      reads this, mem
    {
      BigBufTrace.Trace(mem[..], traceLen, tracing, hi)
    }

    /** BigBuf_initialize */
    constructor (size: nat)
      requires size % 4 == 0 && size < 0x1_0000
      ensures BigBufHeap.Valid(Heap()) && Heap() == Init(size)
      ensures fresh(mem) && traceLen == 0 && tracing
    {
      mem := new Byte[size](_ => 0);
      hi := size;
      em, toSend, dma16, dma8 := None, None, None, None;
      traceLen, tracing := 0, true;
      live := [];
    }

    method Malloc(chunksize: Word16) returns (p: Option<nat>)
      requires Aligned(Heap())
      modifies this`hi, this`live
      ensures Heap() == BigBufHeap.Malloc(old(Heap()), chunksize).0
      ensures p == BigBufHeap.Malloc(old(Heap()), chunksize).1
      ensures old(BigBufHeap.Valid(Heap())) ==> BigBufHeap.Valid(Heap())
    {
      hide BigBufHeap.Valid;
      if BigBufHeap.Valid(Heap()) { MallocKeeps(Heap(), chunksize); }
      if hi < chunksize { return None; }
      var rounded := RoundUp(chunksize);
      hi := hi - rounded;
      live := live + [Chunk(hi, chunksize)];
      p := Some(hi);
    }

    method FreeAll()
      requires BigBufHeap.Valid(Heap())
      modifies this`hi, this`em, this`toSend, this`dma16, this`dma8, this`live
      ensures Heap() == Free(old(Heap())) && BigBufHeap.Valid(Heap())
    {
      FreeKeeps(Heap());
      hi := mem.Length;
      em := None;
      toSend, dma16, dma8 := None, None, None;
      live := [];
    }

    method FreeAllKeepEm()
      requires BigBufHeap.Valid(Heap())
      modifies this`hi, this`toSend, this`dma16, this`dma8, this`live
      ensures Heap() == FreeKeepEm(old(Heap())) && BigBufHeap.Valid(Heap())
      ensures em.Some? ==> Chunk(em.value, CARD_MEMORY_SIZE) in live
    {
      FreeKeeps(Heap());
      match em {
        case Some(a) =>
          hi := a;
          live := KeepFrom(live, a);
        case None =>
          hi := mem.Length;
          live := [];
      }
      toSend, dma16, dma8 := None, None, None;
    }

    method EmAddr() returns (p: Option<nat>)
      requires BigBufHeap.Valid(Heap())
      modifies this`hi, this`em, this`live
      ensures Heap() == GetEm(old(Heap())) && p == em && BigBufHeap.Valid(Heap())
    {
      GettersKeep(Heap());
      if em == None { em := Malloc(CARD_MEMORY_SIZE); }
      p := em;
    }

    method ToSendBuffer() returns (p: Option<nat>)
      requires BigBufHeap.Valid(Heap())
      modifies this`hi, this`toSend, this`live
      ensures Heap() == GetToSend(old(Heap())) && p == toSend && BigBufHeap.Valid(Heap())
    {
      GettersKeep(Heap());
      if toSend == None { toSend := Malloc(ToSend.TOSEND_BUFFER_SIZE); }
      p := toSend;
    }

    method Dma16Buffer() returns (p: Option<nat>)
      requires BigBufHeap.Valid(Heap())
      modifies this`hi, this`dma16, this`live
      ensures Heap() == GetDma16(old(Heap())) && p == dma16 && BigBufHeap.Valid(Heap())
    {
      GettersKeep(Heap());
      if dma16 == None { dma16 := Malloc(DMA_BUFFER_SIZE * 2); }
      p := dma16;
    }

    method Dma8Buffer() returns (p: Option<nat>)
      requires BigBufHeap.Valid(Heap())
      modifies this`hi, this`dma8, this`live
      ensures Heap() == GetDma8(old(Heap())) && p == dma8 && BigBufHeap.Valid(Heap())
    {
      GettersKeep(Heap());
      if dma8 == None { dma8 := Malloc(DMA_BUFFER_SIZE); }
      p := dma8;
    }

    /** BigBuf_Clear_keep_EM: all below the mark, nothing above it. */
    method ClearKeepEm()
      requires BigBufHeap.Valid(Heap())
      modifies mem
      ensures mem[..hi] == Zeros(hi) && mem[hi..] == old(mem[hi..])
      ensures SameChunks(live, old(mem[..]), mem[..])
    {
      var i := 0;
      while i < hi
        invariant 0 <= i <= hi && forall j :: 0 <= j < i ==> mem[j] == 0
        invariant mem[hi..] == old(mem[hi..])
      {
        mem[i] := 0;
        i := i + 1;
      }
      assert mem[..][hi..] == old(mem[..])[hi..];
      AboveMark(Heap(), old(mem[..]), mem[..]);
    }

    /** memcpy into the trace. */
    method CopyIn(at: nat, s: seq<Byte>)
      requires at + |s| <= mem.Length
      modifies mem
      ensures mem[..] == Write(old(mem[..]), at, s)
    {
      ghost var m := mem[..];
      var i := 0;
      while i < |s|
        invariant 0 <= i <= |s| && mem[..] == Write(m, at, s[..i])
      {
        ghost var q := mem[..];
        WriteNext(m, at, s, i);
        mem[at + i] := s[i];
        assert mem[..] == q[at + i := s[i]];
        i := i + 1;
      }
      assert s[..|s|] == s;
    }

    lemma WriteNext(m: seq<Byte>, at: nat, s: seq<Byte>, i: nat)
      requires at + |s| <= |m| && i < |s|
      ensures Write(m, at, s[..i])[at + i := s[i]] == Write(m, at, s[..i + 1])
    {
    }

    lemma WriteTwice(m: seq<Byte>, at: nat, s: seq<Byte>, t: seq<Byte>)
      requires at + |s| + |t| <= |m|
      ensures Write(Write(m, at, s), at + |s|, t) == Write(m, at, s + t)
    {
    }

    /** LogTrace */
    method LogTrace(e: Entry) returns (logged: bool)
      requires InMemory(Trace(), e) && Proper(e)
      modifies this`traceLen, this`tracing, mem
      ensures Trace() == Log(old(Trace()), e) && logged == Accepts(old(Trace()), e)
      ensures BigBufHeap.Valid(Heap()) && old(traceLen) <= hi ==> SameChunks(live, old(mem[..]), mem[..]) && traceLen <= hi
    {
      hide EntryBytes, Write, ParityLen, SameChunks, BigBufHeap.Valid;
      ghost var t := Trace();
      ghost var below := BigBufHeap.Valid(Heap()) && traceLen <= hi;
      if below {
        MarkBounds(Heap());
        AboveMark(Heap(), mem[..], mem[..]);
        LogStaysBelow(t, e);
      }
      if !tracing { return false; }
      if HDR_LEN + e.len + ParityLen(e.len) >= (hi % 0x1_0000 - traceLen) % 0x1_0000_0000 {
        tracing := false;
        return false;
      }
      WriteEntry(e);
      if below { AboveMark(Heap(), t.mem, mem[..]); }
      logged := true;
    }

    lemma MarkBounds(h: BigBufHeap.Heap)
      requires BigBufHeap.Valid(h)
      ensures h.hi <= h.size < 0x1_0000
    {
    }

    method WriteEntry(e: Entry)
      requires Proper(e) && traceLen + |EntryBytes(e)| <= mem.Length
      modifies this`traceLen, mem
      ensures mem[..] == Write(old(mem[..]), old(traceLen), EntryBytes(e))
      ensures traceLen == old(traceLen) + |EntryBytes(e)|
    {
      hide Header, Write, ParityLen, Duration;
      ghost var m, at := mem[..], traceLen;
      var h := Header(e.start, Duration(e.start, e.end), e.len, !e.readerToTag);
      var d := if e.data.Some? && e.len != 0 then e.data.value else [];
      var p := if e.parity.Some? then e.parity.value else Zeros(ParityLen(e.len));
      assert EntryBytes(e) == h + d + p;
      WriteTwice(m, at, h, d);
      WriteTwice(m, at, h + d, p);
      CopyIn(traceLen, h);
      traceLen := traceLen + HDR_LEN;
      CopyIn(traceLen, d);
      traceLen := traceLen + |d|;
      CopyIn(traceLen, p);
      traceLen := traceLen + |p|;
    }
  }

  // ---- Allocator and trace together -----------------------------------------

  datatype State = State(heap: BigBufHeap.Heap, trace: BigBufTrace.Trace)

  datatype Act = Allocate(call: Call) | LogEntry(e: Entry) | ClearBelow

  /** The two halves agree, and no allocation has cut into the trace. */
  predicate Sound(s: State)
  {
    BigBufHeap.Valid(s.heap) && s.trace.hi == s.heap.hi && |s.trace.mem| == s.heap.size && s.trace.len <= s.heap.hi
  }

  ghost function Next(s: State, a: Act): State
    requires Sound(s) && (a.LogEntry? ==> Proper(a.e))
  {
    match a
    case Allocate(call) =>
      var h := Do(s.heap, call);
      State(h, s.trace.(hi := h.hi))
    case LogEntry(e) =>
      LogStaysBelow(s.trace, e);
      State(s.heap, Log(s.trace, e))
    case ClearBelow => State(s.heap, s.trace.(mem := Zeros(s.heap.hi) + s.trace.mem[s.heap.hi..]))
  }

  /** Every step keeps the bytes of what was live before it. */
  lemma NextKeepsLive(s: State, a: Act)
    requires Sound(s) && (a.LogEntry? ==> Proper(a.e))
    ensures SameChunks(s.heap.live, s.trace.mem, Next(s, a).trace.mem)
    ensures BigBufHeap.Valid(Next(s, a).heap)
    ensures Next(s, a).trace.len <= Next(s, a).heap.hi ==> Sound(Next(s, a))
  {
    hide BigBufHeap.Valid, SameChunks, Do, Log;
    MarkIn(s.heap);
    match a
    case Allocate(call) =>
      DoKeeps(s.heap, call);
      AboveMark(s.heap, s.trace.mem, s.trace.mem);
    case LogEntry(e) =>
      LogStaysBelow(s.trace, e);
      AboveMark(s.heap, s.trace.mem, Log(s.trace, e).mem);
    case ClearBelow =>
      var m := Next(s, a).trace.mem;
      assert m[s.heap.hi..] == s.trace.mem[s.heap.hi..];
      AboveMark(s.heap, s.trace.mem, m);
  }

  lemma MarkIn(h: BigBufHeap.Heap)
    requires BigBufHeap.Valid(h)
    ensures h.hi <= h.size < 0x1_0000 && Aligned(h)
  {
  }

  /** A run in which allocations never reach down into the trace. */
  ghost predicate RunOf(states: seq<State>, acts: seq<Act>)
  {
    |states| == |acts| + 1 &&
    (forall i :: 0 <= i < |states| ==> Sound(states[i])) &&
    forall i :: 0 <= i < |acts| ==>
      (acts[i].LogEntry? ==> Proper(acts[i].e)) && states[i + 1] == Next(states[i], acts[i])
  }

  /** Over such a run, a chunk that stays live keeps every byte. */
  lemma {:induction false} LiveThroughout(states: seq<State>, acts: seq<Act>, c: Chunk, n: nat)
    requires RunOf(states, acts) && n < |states|
    requires forall i :: 0 <= i <= n ==> c in states[i].heap.live
    ensures c.at + c.len <= |states[0].trace.mem| == |states[n].trace.mem|
    ensures states[n].trace.mem[c.at..c.at + c.len] == states[0].trace.mem[c.at..c.at + c.len]
    decreases n
  {
    hide Sound, Next;
    SoundChunk(states[n], c);
    if n > 0 {
      LiveThroughout(states, acts, c, n - 1);
      NextKeepsLive(states[n - 1], acts[n - 1]);
      assert states[n] == Next(states[n - 1], acts[n - 1]);
    }
  }

  lemma SoundChunk(s: State, c: Chunk)
    requires Sound(s) && c in s.heap.live
    ensures c.at + c.len <= |s.trace.mem|
  {
    InStack(s.heap.live, s.heap.size, s.heap.hi, c);
  }

  // ---- A trace that reaches above the mark ------------------------------------

  /** From the bottom of the stack on, every aligned address lies in a live chunk. */
  lemma {:induction false} AlignedIsLive(live: seq<Chunk>, top: nat, bottom: nat, a: nat) returns (i: nat)
    requires Stacked(live, top, bottom) && bottom <= a < top && a % 4 == 0
    ensures i < |live| && live[i].at <= a < live[i].at + live[i].len
    decreases |live|
  {
    StackHeight(live, top, bottom);
    var n := |live| - 1;
    var c := live[n];
    var next := bottom + (c.len + 3) / 4 * 4;
    if a < next {
      i := n;
    } else {
      i := AlignedIsLive(live[..n], top, next, a);
    }
  }

  /** Address a is written by the call and belongs to live chunk i. */
  predicate Hit(h: BigBufHeap.Heap, t: BigBufTrace.Trace, e: Entry, a: nat, i: nat)
  {
    t.len <= a < t.len + |EntryBytes(e)| && i < |h.live| && h.live[i].at <= a < h.live[i].at + h.live[i].len
  }

  /** The call writes an octet of a live chunk. */
  ghost predicate Touches(h: BigBufHeap.Heap, t: BigBufTrace.Trace, e: Entry)
  {
    exists a: nat, i: nat :: Hit(h, t, e, a, i)
  }

  /**
   * An accepted call writes into a live chunk exactly when the trace already
   * reaches above the mark.
   */
  lemma LogTouchesLive(h: BigBufHeap.Heap, t: BigBufTrace.Trace, e: Entry)
    requires BigBufHeap.Valid(h) && t.hi == h.hi && |t.mem| == h.size && Proper(e)
    requires Accepts(t, e) && InMemory(t, e)
    ensures Touches(h, t, e) <==> t.len > h.hi
  {
    hide Stacked, Held, EntryBytes, ParityLen;
    EntrySize(e);
    if t.len > h.hi {
      var a := (t.len + 3) / 4 * 4;
      var i := AlignedIsLive(h.live, h.size, h.hi, a);
      assert Hit(h, t, e, a, i);
    } else {
      LogStaysBelow(t, e);
      forall a: nat, i: nat ensures !Hit(h, t, e, a, i) { MissesBelow(h, t, e, a, i); }
    }
  }

  lemma MissesBelow(h: BigBufHeap.Heap, t: BigBufTrace.Trace, e: Entry, a: nat, i: nat)
    requires BigBufHeap.Valid(h) && t.len + |EntryBytes(e)| <= h.hi
    ensures !Hit(h, t, e, a, i)
  {
    hide Stacked, Held, EntryBytes;
    if i < |h.live| { InStack(h.live, h.size, h.hi, h.live[i]); }
  }

  /** A record of 121 octets. */
  function LongEntry(): Entry { Entry(Some(Zeros(100)), 100, 0, 1, None, true) }

  lemma LongEntrySize()
    ensures Proper(LongEntry()) && |EntryBytes(LongEntry())| == 121 && ParityLen(100) == 13
  {
    hide Header;
  }

  /** An empty trace in 400 octets takes it. */
  lemma LongEntryLogged(mem: seq<Byte>)
    requires |mem| == 400
    ensures var t := BigBufTrace.Trace(mem, 0, true, 400);
      InMemory(t, LongEntry()) && Log(t, LongEntry()).len == 121 && Log(t, LongEntry()).tracing &&
      Log(t, LongEntry()).hi == 400 && |Log(t, LongEntry()).mem| == 400
  {
    hide EntryBytes, LongEntry, Proper;
    LongEntrySize();
    LongLen();
    LogStaysBelow(BigBufTrace.Trace(mem, 0, true, 400), LongEntry());
  }

  lemma LongLen()
    ensures LongEntry().len == 100
  {
  }

  /**
   * Such states are reached: a record of 121 octets in 400, and an allocation of
   * 300 of them. From then on every call writes into that chunk.
   */
  lemma AllocationCutsTrace(mem: seq<Byte>, e: Entry)
    requires |mem| == 400 && Proper(e) && |EntryBytes(e)| <= 279
    ensures var s0 := State(Init(400), BigBufTrace.Trace(mem, 0, true, 400));
      Sound(s0) && Proper(LongEntry()) && Sound(Next(s0, LogEntry(LongEntry()))) &&
      var s := Next(Next(s0, LogEntry(LongEntry())), Allocate(CallMalloc(300)));
      && s.heap.hi == 100 < s.trace.len == 121 && BigBufHeap.Valid(s.heap) && s.trace.hi == s.heap.hi
      && Accepts(s.trace, e) && InMemory(s.trace, e) && Touches(s.heap, s.trace, e)
  {
    hide Stacked, Held, EntryBytes, Touches, Log, LongEntry, Proper, Accepts, Room;
    var s0 := State(Init(400), BigBufTrace.Trace(mem, 0, true, 400));
    StartsValid(400);
    LongEntrySize();
    LongEntryLogged(mem);
    var s1 := Next(s0, LogEntry(LongEntry()));
    assert s1.heap == Init(400);
    NextKeepsLive(s1, Allocate(CallMalloc(300)));
    var s := Next(s1, Allocate(CallMalloc(300)));
    LogAboveAccepts(s.trace, e);
    LogTouchesLive(s.heap, s.trace, e);
  }
}
