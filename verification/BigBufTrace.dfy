/**
 * The trace log (armsrc/BigBuf.c:168-256; the header is that of
 * include/pm3_cmd.h:134-146): records laid down one behind the other from the
 * bottom of BigBuf upwards.
 */
module BigBufTrace {
  import opened Types
  import opened BigBufHeap

  const HDR_LEN: nat := 8

  // ---- Records --------------------------------------------------------------

  datatype Record = Record(timestamp: Word32, duration: Word16, isResponse: bool, data: seq<Byte>, parity: seq<Byte>)

  /** (n - 1) / 8 + 1, where C's division of -1 gives 0: one octet for no data. */
  function ParityLen(n: nat): nat { if n == 0 then 1 else (n - 1) / 8 + 1 }

  /** The length field has 15 bits, and the parity octets go by it. */
  predicate WellFormed(r: Record) { |r.data| < 0x8000 && |r.parity| == ParityLen(|r.data|) }

  function Le32(x: Word32): (s: seq<Byte>)
    ensures |s| == 4
  {
    [x % 256, x / 256 % 256, x / 0x10000 % 256, x / 0x1000000]
  }

  function Le16(x: Word16): (s: seq<Byte>)
    ensures |s| == 2
  {
    [x % 256, x / 256]
  }

  /** data_len and isResponse share the last two octets. */
  function Flags(n: nat, response: bool): (s: seq<Byte>)
    ensures |s| == 2
  {
    [n % 256, n / 256 % 128 + if response then 128 else 0]
  }

  function Header(timestamp: Word32, duration: Word16, n: nat, response: bool): (s: seq<Byte>)
    ensures |s| == HDR_LEN
  {
    Le32(timestamp) + Le16(duration) + Flags(n, response)
  }

  function Encode(r: Record): (s: seq<Byte>)
    ensures |s| == HDR_LEN + |r.data| + |r.parity|
  {
    Header(r.timestamp, r.duration, |r.data|, r.isResponse) + r.data + r.parity
  }

  function EncodeAll(rs: seq<Record>): seq<Byte>
  {
    if rs == [] then [] else Encode(rs[0]) + EncodeAll(rs[1..])
  }

  // ---- Reading a trace back ---------------------------------------------------

  function Half(a: int, b: int): int { a + b * 256 }
  function Full(a: int, b: int, c: int, d: int): int { a + b * 256 + c * 0x10000 + d * 0x1000000 }

  function DataLen(s: seq<Byte>): nat
    requires |s| >= HDR_LEN
  {
    Half(s[6], s[7] % 128)
  }

  /** The record at the head of a trace: header, data length, parity length. */
  function First(s: seq<Byte>): Option<Record>
  {
    if |s| < HDR_LEN || |s| < HDR_LEN + DataLen(s) + ParityLen(DataLen(s)) then None
    else
      var n := DataLen(s);
      var p := HDR_LEN + n;
      Some(Record(Full(s[0], s[1], s[2], s[3]), Half(s[4], s[5]), s[7] >= 128,
                  s[HDR_LEN..p], s[p..p + ParityLen(n)]))
  }

  function Split(s: seq<Byte>): Option<seq<Record>>
    decreases |s|
  {
    if s == [] then Some([])
    else
      match First(s)
      case None => None
      case Some(r) =>
        match Split(s[|Encode(r)|..])
        case None => None
        case Some(rs) => Some([r] + rs)
  }

  lemma Le32Back(x: Word32)
    ensures var s := Le32(x); Full(s[0], s[1], s[2], s[3]) == x
  {
    assert x / 0x1000000 == x / 0x10000 / 256 && x / 0x10000 == x / 256 / 256;
  }

  lemma HeaderFields(r: Record, x: seq<Byte>)
    requires WellFormed(r)
    ensures var s := Encode(r) + x;
      s[..8] == Header(r.timestamp, r.duration, |r.data|, r.isResponse) &&
      s[8..8 + |r.data|] == r.data && s[8 + |r.data|..|Encode(r)|] == r.parity && s[|Encode(r)|..] == x
  {
    hide Header, ParityLen;
  }

  /** The header gives back what it was made of, the length modulo 32768. */
  lemma HeaderBack(ts: Word32, d: Word16, n: Word16, response: bool)
    ensures var h := Header(ts, d, n, response);
      Full(h[0], h[1], h[2], h[3]) == ts && Half(h[4], h[5]) == d &&
      DataLen(h) == n % 0x8000 && (h[7] >= 128 <==> response)
  {
    hide Le32, Le16, Flags;
    Le32Back(ts);
    Le16Back(d);
    FlagsBack(n, response);
    var h, a, b, c := Header(ts, d, n, response), Le32(ts), Le16(d), Flags(n, response);
    assert h[0] == a[0] && h[1] == a[1] && h[2] == a[2] && h[3] == a[3];
    assert h[4] == b[0] && h[5] == b[1] && h[6] == c[0] && h[7] == c[1];
  }

  lemma Le16Back(x: Word16)
    ensures var s := Le16(x); Half(s[0], s[1]) == x
  {
  }

  lemma FlagsBack(n: Word16, response: bool)
    ensures var s := Flags(n, response); Half(s[0], s[1] % 128) == n % 0x8000 && (s[1] >= 128 <==> response)
  {
    var q := n / 256;
    assert n == q * 256 + n % 256 && q == q / 128 * 128 + q % 128;
    assert n % 0x8000 == q % 128 * 256 + n % 256;
  }

  lemma FirstBack(r: Record, x: seq<Byte>)
    requires WellFormed(r)
    ensures First(Encode(r) + x) == Some(r)
  {
    hide Header, Encode, ParityLen, Half, Full;
    var s := Encode(r) + x;
    HeaderFields(r, x);
    HeaderBack(r.timestamp, r.duration, |r.data|, r.isResponse);
    var h := s[..8];
    assert s[0] == h[0] && s[1] == h[1] && s[2] == h[2] && s[3] == h[3];
    assert s[4] == h[4] && s[5] == h[5] && s[6] == h[6] && s[7] == h[7];
    assert DataLen(s) == DataLen(h) == |r.data|;
  }

  /** A trace splits into exactly the records it was made of. */
  lemma {:induction false} SplitBack(rs: seq<Record>)
    requires forall i :: 0 <= i < |rs| ==> WellFormed(rs[i])
    ensures Split(EncodeAll(rs)) == Some(rs)
    decreases |rs|
  {
    hide First, Encode;
    if rs != [] {
      var x := EncodeAll(rs[1..]);
      FirstBack(rs[0], x);
      SplitBack(rs[1..]);
      assert (Encode(rs[0]) + x)[|Encode(rs[0])|..] == x;
      assert [rs[0]] + rs[1..] == rs;
    }
  }

  // ---- LogTrace -----------------------------------------------------------------

  /** The arguments of one call; a NULL pointer is None. */
  datatype Entry = Entry(data: Option<seq<Byte>>, len: Word16, start: Word32, end: Word32,
                         parity: Option<seq<Byte>>, readerToTag: bool)

  predicate Proper(e: Entry)
  {
    (e.data.Some? ==> |e.data.value| == e.len) && (e.parity.Some? ==> |e.parity.value| == ParityLen(e.len))
  }

  /** The duration, one tick short when the clock wrapped, and 0 when it has no room. */
  function Duration(start: Word32, end: Word32): Word16
  {
    var d := if end > start then end - start else 0xffff_ffff - start + end;
    if d > 0xffff then 0 else d
  }

  function Zeros(n: nat): seq<Byte> { seq(n, _ => 0) }

  function EntryData(e: Entry): seq<Byte> { if e.data.Some? && e.len != 0 then e.data.value else [] }
  function EntryParity(e: Entry): seq<Byte>
  {
    if e.parity.Some? then e.parity.value else Zeros(ParityLen(e.len))
  }

  /** The octets a call writes. */
  function EntryBytes(e: Entry): seq<Byte>
  {
    Header(e.start, Duration(e.start, e.end), e.len, !e.readerToTag) + EntryData(e) + EntryParity(e)
  }

  /** The record a call stands for. */
  function EntryRecord(e: Entry): Record
  {
    Record(e.start, Duration(e.start, e.end), !e.readerToTag, EntryData(e), EntryParity(e))
  }

  /** Data is there when a length is given, and the length fits its field. */
  predicate Loggable(e: Entry) { (e.len != 0 ==> e.data.Some?) && e.len < 0x8000 }

  lemma LoggableEntry(e: Entry)
    requires Proper(e) && Loggable(e)
    ensures EntryBytes(e) == Encode(EntryRecord(e)) && WellFormed(EntryRecord(e))
    ensures |EntryBytes(e)| == HDR_LEN + e.len + ParityLen(e.len)
  {
    hide Header, Duration;
  }

  datatype Trace = Trace(mem: seq<Byte>, len: nat, tracing: bool, hi: nat)

  /** BigBuf_max_traceLen() - trace_len, in 32 bits. */
  function Room(t: Trace): nat { (t.hi % 0x1_0000 - t.len) % 0x1_0000_0000 }

  predicate Accepts(t: Trace, e: Entry) { t.tracing && HDR_LEN + e.len + ParityLen(e.len) < Room(t) }

  /** The octets written lie in memory: so whenever the trace is below the mark. */
  predicate InMemory(t: Trace, e: Entry)
  {
    t.hi <= |t.mem| && (Accepts(t, e) ==> t.len + |EntryBytes(e)| <= |t.mem|)
  }

  function Write(mem: seq<Byte>, at: nat, s: seq<Byte>): (r: seq<Byte>)
    requires at + |s| <= |mem|
    ensures |r| == |mem|
  {
    mem[..at] + s + mem[at + |s|..]
  }

  function Log(t: Trace, e: Entry): Trace
    requires InMemory(t, e)
  {
    if !t.tracing then t
    else if !Accepts(t, e) then t.(tracing := false)
    else t.(mem := Write(t.mem, t.len, EntryBytes(e)), len := t.len + |EntryBytes(e)|)
  }

  /** The trace is below the mark, and the mark within 16 bits. */
  predicate Below(t: Trace) { t.len <= t.hi <= |t.mem| && t.hi < 0x1_0000 }

  /**
   * Below the mark, logging stays in memory and below the mark: no byte of the
   * allocated part changes, and nothing logged before does.
   */
  lemma LogStaysBelow(t: Trace, e: Entry)
    requires Below(t) && Proper(e)
    ensures InMemory(t, e) && Below(Log(t, e)) && Log(t, e).hi == t.hi
    ensures Log(t, e).mem[t.hi..] == t.mem[t.hi..] && |Log(t, e).mem| == |t.mem|
    ensures Log(t, e).mem[..t.len] == t.mem[..t.len]
  {
    hide Header, ParityLen;
    EntrySize(e);
    if Accepts(t, e) {
      assert t.len + |EntryBytes(e)| < t.hi;
    }
  }

  lemma EntrySize(e: Entry)
    requires Proper(e)
    ensures HDR_LEN <= |EntryBytes(e)| <= HDR_LEN + e.len + ParityLen(e.len)
  {
    hide Header, Duration;
  }

  /** The parity octets of n data octets: one for every eight begun, and one for none. */
  function Parities(n: nat): nat { if n == 0 then 1 else (n + 7) / 8 }

  /**
   * Below the mark a call is logged exactly when tracing is on and its header of
   * eight octets, its data and its parity octets leave at least one octet free;
   * otherwise tracing goes off and nothing else changes.
   */
  lemma LoggedExactly(t: Trace, e: Entry)
    requires Below(t) && Proper(e)
    ensures InMemory(t, e)
    ensures Log(t, e).len > t.len <==> t.tracing && 8 + e.len + Parities(e.len) < t.hi - t.len
    ensures Log(t, e).len <= t.len ==> Log(t, e) == t.(tracing := false)
  {
    hide EntryBytes;
    EntrySize(e);
    LogStaysBelow(t, e);
  }

  /** The header's fields in memory: little-endian, the response flag on top of the length. */
  lemma HeaderLayout()
    ensures Header(0x0102_0304, 0x0506, 0x0708, true) == [4, 3, 2, 1, 6, 5, 8, 0x87]
    ensures Header(0x0102_0304, 0x0506, 0x0708, false) == [4, 3, 2, 1, 6, 5, 8, 7]
  {
  }

  /** Above the mark the room wraps around: every call is accepted. */
  lemma LogAboveAccepts(t: Trace, e: Entry)
    requires t.tracing && t.hi < t.len < 0x8000_0000 && t.hi < 0x1_0000
    ensures Accepts(t, e)
  {
  }

  /** The duration is right exactly when the clock did not wrap and it fits 16 bits. */
  lemma DurationExact(start: Word32, end: Word32)
    ensures Duration(start, end) == (end - start) % 0x1_0000_0000 <==>
            start == end || (start < end && end - start <= 0xffff)
  {
  }

  // ---- Every run of calls --------------------------------------------------------

  ghost function LogAll(t: Trace, es: seq<Entry>): (r: Trace)
    requires Below(t) && forall i :: 0 <= i < |es| ==> Proper(es[i])
    ensures Below(r)
    decreases |es|
  {
    hide Below, Log;
    if es == [] then t
    else
      var n := |es| - 1;
      var u := LogAll(t, es[..n]);
      LogStaysBelow(u, es[n]);
      Log(u, es[n])
  }

  /** The calls that were accepted. */
  ghost function Accepted(t: Trace, es: seq<Entry>): seq<Entry>
    requires Below(t) && forall i :: 0 <= i < |es| ==> Proper(es[i])
    decreases |es|
  {
    if es == [] then []
    else
      var n := |es| - 1;
      Accepted(t, es[..n]) + if Accepts(LogAll(t, es[..n]), es[n]) then [es[n]] else []
  }

  lemma {:induction false} AcceptedProper(t: Trace, es: seq<Entry>)
    requires Below(t) && forall i :: 0 <= i < |es| ==> Proper(es[i])
    ensures forall i :: 0 <= i < |Accepted(t, es)| ==> Proper(Accepted(t, es)[i])
    decreases |es|
  {
    hide Proper, LogAll, Accepts;
    if es != [] { AcceptedProper(t, es[..|es| - 1]); }
  }

  function BytesOf(es: seq<Entry>): seq<Byte>
  {
    if es == [] then [] else EntryBytes(es[0]) + BytesOf(es[1..])
  }

  function RecordsOf(es: seq<Entry>): seq<Record>
  {
    if es == [] then [] else [EntryRecord(es[0])] + RecordsOf(es[1..])
  }

  lemma {:induction false} BytesAppend(a: seq<Entry>, e: Entry)
    ensures BytesOf(a + [e]) == BytesOf(a) + EntryBytes(e)
    decreases |a|
  {
    hide EntryBytes;
    if a == [] {
      assert a + [e] == [e] && [e][1..] == [];
      assert BytesOf([e]) == EntryBytes(e) + BytesOf([]);
    } else {
      assert (a + [e])[1..] == a[1..] + [e];
      BytesAppend(a[1..], e);
    }
  }

  lemma WriteExtends(mem: seq<Byte>, at: nat, s: seq<Byte>)
    requires at + |s| <= |mem|
    ensures Write(mem, at, s)[..at + |s|] == mem[..at] + s
  {
  }

  lemma {:induction false} TraceIs(t: Trace, es: seq<Entry>)
    requires Below(t) && t.len == 0 && forall i :: 0 <= i < |es| ==> Proper(es[i])
    ensures var r := LogAll(t, es); r.mem[..r.len] == BytesOf(Accepted(t, es))
    decreases |es|
  {
    hide EntryBytes, Room, ParityLen, Proper, Write;
    if es != [] {
      var n := |es| - 1;
      TraceIs(t, es[..n]);
      var u := LogAll(t, es[..n]);
      LogStaysBelow(u, es[n]);
      if Accepts(u, es[n]) {
        WriteExtends(u.mem, u.len, EntryBytes(es[n]));
        BytesAppend(Accepted(t, es[..n]), es[n]);
      } else {
        assert Accepted(t, es[..n]) + [] == Accepted(t, es[..n]);
      }
    }
  }

  lemma FirstForm(s: seq<Byte>)
    requires First(s).Some?
    ensures WellFormed(First(s).value) && |First(s).value.data| == DataLen(s)
  {
  }

  /** The length that is read back from a call's octets. */
  lemma EntryLength(e: Entry, x: seq<Byte>)
    ensures var s := EntryBytes(e) + x; |s| >= HDR_LEN && DataLen(s) == e.len % 0x8000
  {
    hide Header, Duration;
    var h := Header(e.start, Duration(e.start, e.end), e.len, !e.readerToTag);
    var s := EntryBytes(e) + x;
    HeaderBack(e.start, Duration(e.start, e.end), e.len, !e.readerToTag);
    assert s[6] == h[6] && s[7] == h[7];
  }

  /** A call without its data, or too long for the length field, is never read back. */
  lemma Misread(e: Entry, x: seq<Byte>)
    requires Proper(e) && !Loggable(e)
    ensures First(EntryBytes(e) + x) != Some(EntryRecord(e))
  {
    hide EntryBytes, First;
    var s := EntryBytes(e) + x;
    EntryLength(e, x);
    if First(s).Some? { FirstForm(s); }
  }

  lemma SplitHead(s: seq<Byte>, r: Record, rs: seq<Record>)
    requires s != [] && Split(s) == Some([r] + rs)
    ensures First(s) == Some(r) && Split(s[|Encode(r)|..]) == Some(rs)
  {
    var q := First(s).value;
    var qs := Split(s[|Encode(q)|..]).value;
    assert ([q] + qs)[0] == ([r] + rs)[0] && ([q] + qs)[1..] == qs && ([r] + rs)[1..] == rs;
  }

  predicate AllLoggable(es: seq<Entry>) { forall i :: 0 <= i < |es| ==> Loggable(es[i]) }

  lemma {:induction false} SplitsWhenLoggable(es: seq<Entry>)
    requires forall i :: 0 <= i < |es| ==> Proper(es[i])
    ensures AllLoggable(es) <==> Split(BytesOf(es)) == Some(RecordsOf(es))
    decreases |es|
  {
    hide EntryBytes, EntryRecord, First, Encode, Loggable, Proper;
    if es != [] {
      var e, x := es[0], BytesOf(es[1..]);
      var s := EntryBytes(e) + x;
      SplitsWhenLoggable(es[1..]);
      EntryLength(e, x);
      if Loggable(e) {
        LoggableEntry(e);
        FirstBack(EntryRecord(e), x);
        assert s[|Encode(EntryRecord(e))|..] == x;
        assert AllLoggable(es) <==> AllLoggable(es[1..]) by {
          assert forall i :: 0 <= i < |es[1..]| ==> es[1..][i] == es[i + 1];
        }
        if Split(s) == Some(RecordsOf(es)) { SplitHead(s, EntryRecord(e), RecordsOf(es[1..])); }
      } else {
        Misread(e, x);
        if Split(s) == Some(RecordsOf(es)) { SplitHead(s, EntryRecord(e), RecordsOf(es[1..])); }
      }
    }
  }

  /**
   * After any sequence of calls the trace splits into exactly the records of the
   * accepted calls, in order, if and only if every accepted call had its data and
   * a length that fits the 15 bits of its field.
   */
  lemma TraceSplits(t: Trace, es: seq<Entry>)
    requires Below(t) && t.len == 0 && forall i :: 0 <= i < |es| ==> Proper(es[i])
    ensures var r := LogAll(t, es);
      && r.mem[..r.len] == BytesOf(Accepted(t, es))
      && (Split(r.mem[..r.len]) == Some(RecordsOf(Accepted(t, es))) <==> AllLoggable(Accepted(t, es)))
  {
    hide Split, BytesOf, RecordsOf, AllLoggable, Proper, Accepted, LogAll;
    TraceIs(t, es);
    AcceptedProper(t, es);
    SplitsWhenLoggable(Accepted(t, es));
  }

  /** 32768 octets of data are accepted by an empty trace and cannot be read back. */
  lemma LongEntryMisread(mem: seq<Byte>)
    requires |mem| == 65532
    ensures var t := Trace(mem, 0, true, 65532);
      var e := Entry(Some(Zeros(0x8000)), 0x8000, 0, 1, None, true);
      && Below(t) && Proper(e) && Accepted(t, [e]) == [e]
      && Split(LogAll(t, [e]).mem[..LogAll(t, [e]).len]) != Some(RecordsOf([e]))
  {
    hide Split, RecordsOf, EntryBytes;
    var t := Trace(mem, 0, true, 65532);
    var e := Entry(Some(Zeros(0x8000)), 0x8000, 0, 1, None, true);
    assert [e][..0] == [];
    assert LogAll(t, []) == t && Accepts(t, e);
    assert Accepted(t, [e]) == Accepted(t, []) + [e];
    TraceSplits(t, [e]);
    assert !Loggable([e][0]);
  }

  /** With tracing off nothing is logged until it is set again. */
  lemma {:induction false} FullStaysFull(t: Trace, es: seq<Entry>)
    requires Below(t) && !t.tracing && forall i :: 0 <= i < |es| ==> Proper(es[i])
    ensures LogAll(t, es) == t && Accepted(t, es) == []
    decreases |es|
  {
    if es != [] { FullStaysFull(t, es[..|es| - 1]); }
  }

  /**
   * The first call that finds the buffer full ends the trace: of all that follow
   * none is accepted, and memory and trace length stay as they are.
   */
  lemma {:induction false} NothingAfterFull(t: Trace, es: seq<Entry>, i: nat)
    requires Below(t) && i < |es| && forall k :: 0 <= k < |es| ==> Proper(es[k])
    requires !Accepts(LogAll(t, es[..i]), es[i])
    ensures var u, r := LogAll(t, es[..i]), LogAll(t, es);
      Accepted(t, es) == Accepted(t, es[..i]) && r.mem == u.mem && r.len == u.len && !r.tracing
    decreases |es|
  {
    hide Proper, Room, EntryBytes;
    var n := |es| - 1;
    var u := LogAll(t, es[..n]);
    LogStaysBelow(u, es[n]);
    if i < n {
      assert es[..n][..i] == es[..i];
      NothingAfterFull(t, es[..n], i);
    }
    assert Accepted(t, es[..n]) + [] == Accepted(t, es[..n]);
  }
}
