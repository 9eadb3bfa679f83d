/** The EM4x50 word decoder of armsrc/em4x50.c: Manchester decoding from the
    distances between falling edges, with a tolerance on every distance. */
module Em4x50 {

  const T0: int := 192
  const HALF_PERIOD: int := 32
  const FULL_PERIOD: int := 64
  const TOLERANCE: int := 8

  /** The entries of the caller's array, and the result it waits for. */
  const WORD: nat := 45

  /** Is the pulse length `pl`, in timer ticks, the given length in units? */
  predicate CheckPulseLength(pl: int, length: int) {
    T0 * (length - TOLERANCE) <= pl <= T0 * (length + TOLERANCE)
  }

  // ---------------------------------------------------------------------
  // The decoder
  // ---------------------------------------------------------------------

  /** The bits written so far, whether the next length of 1.5 periods adds two
      bits, and whether a listen window has ended the word. */
  datatype Word = Word(bits: seq<bool>, change: bool, ended: bool)

  /** The first pulse starts in the listen window before the word. */
  function First(pl: int): Word {
    if CheckPulseLength(pl, 3 * HALF_PERIOD) then Word([true], false, false)
    else if CheckPulseLength(pl, 2 * FULL_PERIOD) then Word([false], true, false)
    else Word([false, true], false, false)
  }

  /** How many entries a pulse fills. */
  function Width(pl: int, change: bool): nat {
    if CheckPulseLength(pl, FULL_PERIOD) then 1
    else if CheckPulseLength(pl, 3 * HALF_PERIOD) then if change then 2 else 1
    else if CheckPulseLength(pl, 2 * FULL_PERIOD) then 2
    else if CheckPulseLength(pl, 3 * FULL_PERIOD) then 0
    else 1
  }

  /** One more pulse. A length that is none of the expected ones skips an entry
      of the buffer, which keeps what it held in `was`. */
  function Next(d: Word, pl: int, was: seq<bool>): (r: Word)
    requires d.bits != [] && |d.bits| + Width(pl, d.change) <= |was|
    ensures |r.bits| == |d.bits| + Width(pl, d.change)
    ensures r.change == ChangeAfter(pl, d.change) && r.ended == (d.ended || Width(pl, d.change) == 0)
  {
    var last := d.bits[|d.bits| - 1];
    if CheckPulseLength(pl, FULL_PERIOD) then d.(bits := d.bits + [last])
    else if CheckPulseLength(pl, 3 * HALF_PERIOD) then
      if d.change then d.(bits := d.bits + [last, !last], change := false)
      else d.(bits := d.bits + [!last], change := true)
    else if CheckPulseLength(pl, 2 * FULL_PERIOD) then d.(bits := d.bits + [false, true])
    else if CheckPulseLength(pl, 3 * FULL_PERIOD) then d.(ended := true)
    else d.(bits := d.bits + [was[|d.bits|]])
  }

  predicate ChangeAfter(pl: int, change: bool) {
    if !CheckPulseLength(pl, FULL_PERIOD) && CheckPulseLength(pl, 3 * HALF_PERIOD) then !change else change
  }

  /** The entries that the rest of the pulses fill, up to a listen window. */
  function Entries(pulses: seq<int>, change: bool): nat
    decreases |pulses|
  {
    if pulses == [] then 0
    else
      var n := Width(pulses[0], change);
      if n == 0 then 0 else n + Entries(pulses[1..], ChangeAfter(pulses[0], change))
  }

  function Run(d: Word, pulses: seq<int>, was: seq<bool>): (r: Word)
    requires d.bits != [] && |d.bits| + Entries(pulses, d.change) <= |was|
    ensures r.bits != [] && |r.bits| <= |was|
    decreases |pulses|
  {
    if d.ended || pulses == [] then d
    else
      var e := Next(d, pulses[0], was);
      if e.ended then e else Run(e, pulses[1..], was)
  }

  /** Decode one word: fill `bits` and return the number of bits without the
      last one, which belongs to the listen window. */
  method GetWord(pulses: seq<int>, bits: array<bool>) returns (n: int, ended: bool)
    requires pulses != []
    requires |First(pulses[0]).bits| + Entries(pulses[1..], First(pulses[0]).change) <= bits.Length
    modifies bits
    ensures var d := Run(First(pulses[0]), pulses[1..], old(bits[..]));
            && bits[..|d.bits|] == d.bits && n == |d.bits| - 1 && ended == d.ended
  {
    hide CheckPulseLength, Width, ChangeAfter, First, Next;
    ghost var was := bits[..];
    ended := false;
    var i, bbitchange := TakeFirst(pulses[0], bits);
    ghost var d := First(pulses[0]);
    var k := 1;
    while k < |pulses| && !ended
      invariant 1 <= k <= |pulses| && 0 <= i < bits.Length
      invariant d == Word(bits[..i + 1], bbitchange, ended)
      invariant forall j | i < j < bits.Length :: bits[j] == was[j]
      invariant ended || i + 1 + Entries(pulses[k..], bbitchange) <= bits.Length
      invariant Run(First(pulses[0]), pulses[1..], was) == if ended then d else Run(d, pulses[k..], was)
    {
      assert pulses[k..][1..] == pulses[k + 1..];
      SameRest(was, bits[..], i, d, pulses[k]);
      d := Next(d, pulses[k], was);
      i, bbitchange, ended := TakePulse(pulses[k], bits, i, bbitchange);
      k := k + 1;
    }
    n := i;
  }

  lemma SameRest(was: seq<bool>, now: seq<bool>, i: nat, d: Word, pl: int)
    requires i < |was| == |now| && d.bits == now[..i + 1]
    requires forall j | i < j < |was| :: now[j] == was[j]
    requires |d.bits| + Width(pl, d.change) <= |was|
    ensures Next(d, pl, was) == Next(d, pl, now)
  {
  }

  method TakeFirst(pl: int, bits: array<bool>) returns (i: nat, bbitchange: bool)
    requires |First(pl).bits| <= bits.Length
    modifies bits
    ensures i < bits.Length && First(pl) == Word(bits[..i + 1], bbitchange, false)
    ensures forall j | i < j < bits.Length :: bits[j] == old(bits[j])
  {
    hide CheckPulseLength;
    i, bbitchange := 0, false;
    if CheckPulseLength(pl, 3 * HALF_PERIOD) {
      bits[0] := true;
    } else if CheckPulseLength(pl, 2 * FULL_PERIOD) {
      bits[0] := false;
      bbitchange := true;
    } else {
      bits[0] := false;
      bits[1] := true;
      i := i + 1;
    }
  }

  /** One turn of the loop. */
  method TakePulse(pl: int, bits: array<bool>, i0: nat, change: bool) returns (i: nat, bbitchange: bool, ended: bool)
    requires i0 + 1 + Width(pl, change) <= bits.Length
    modifies bits
    ensures i < bits.Length && Word(bits[..i + 1], bbitchange, ended) == Next(Word(old(bits[..i0 + 1]), change, false), pl, old(bits[..]))
    ensures forall j | i < j < bits.Length :: bits[j] == old(bits[j])
  {
    hide CheckPulseLength;
    ghost var d := bits[..i0 + 1];
    ghost var last := d[i0];
    bbitchange, ended := change, false;
    i := i0 + 1;
    if CheckPulseLength(pl, FULL_PERIOD) {
      bits[i] := bits[i - 1];
      assert bits[..i + 1] == d + [last];
    } else if CheckPulseLength(pl, 3 * HALF_PERIOD) {
      if bbitchange {
        bits[i] := bits[i - 1];
        bits[i + 1] := !bits[i];
        i := i + 1;
        bbitchange := false;
        assert bits[..i + 1] == d + [last, !last];
      } else {
        bits[i] := !bits[i - 1];
        assert bits[..i + 1] == d + [!last];
        bbitchange := true;
      }
    } else if CheckPulseLength(pl, 2 * FULL_PERIOD) {
      bits[i] := false;
      bits[i + 1] := true;
      i := i + 1;
      assert bits[..i + 1] == d + [false, true];
    } else if CheckPulseLength(pl, 3 * FULL_PERIOD) {
      i := i - 1;
      ended := true;
    } else {
      assert bits[..i + 1] == d + [bits[..][|d|]];
    }
  }

  // ---------------------------------------------------------------------
  // The signal
  // ---------------------------------------------------------------------

  /** The level in half bit `h`: a one is high then low, a zero low then high. */
  predicate High(w: seq<bool>, h: nat)
    requires h < 2 * |w|
  {
    w[h / 2] == (h % 2 == 0)
  }

  /** A falling edge before half bit `p`. */
  predicate FallingEdge(w: seq<bool>, p: int) {
    1 <= p < 2 * |w| && High(w, p - 1) && !High(w, p)
  }

  /** All falling edges of the signal, in order. */
  ghost predicate Edges(w: seq<bool>, es: seq<int>) {
    && (forall i, j | 0 <= i < j < |es| :: es[i] < es[j])
    && (forall p :: FallingEdge(w, p) <==> p in es)
  }

  /** The edge before the word lies one period ahead of its first bit. */
  function EdgeBefore(es: seq<int>, j: nat): int
    requires j <= |es|
  {
    if j == 0 then -2 else es[j - 1]
  }

  /** A pulse of `halves` half bits, 32 units of 192 ticks each, off by at most 8 units. */
  predicate Lasts(pl: int, halves: int) { -8 * 192 <= pl - 192 * 32 * halves <= 8 * 192 }

  lemma LastsIs(pl: int, halves: int)
    ensures CheckPulseLength(pl, HALF_PERIOD * halves) <==> Lasts(pl, halves)
  {
  }

  /** The pulses are the distances of the edges, each with its own jitter. */
  predicate Timed(pulses: seq<int>, es: seq<int>) {
    |pulses| == |es| && forall j | 0 <= j < |pulses| :: Lasts(pulses[j], es[j] - EdgeBefore(es, j))
  }

  /** The test accepts a pulse exactly when it is off by at most 8 units of 192 ticks. */
  lemma ToleranceExact(pl: int, length: int)
    ensures CheckPulseLength(pl, length) <==> -1536 <= pl - 192 * length <= 1536
  {
  }

  /** What the edges seen so far tell: everything up to the bit of the last
      edge, and whether that edge lay between two zeros. */
  predicate Fixed(w: seq<bool>, p: int, d: Word) {
    && FallingEdge(w, p) && !d.ended
    && d.bits == w[..(p + 1) / 2] && (d.change <==> p % 2 == 0)
  }

  /** Edges are in the middle of a one or between two zeros. */
  lemma EdgeMeans(w: seq<bool>, p: int)
    ensures p % 2 == 1 ==> (FallingEdge(w, p) <==> 1 <= p < 2 * |w| && w[p / 2])
    ensures p % 2 == 0 ==> (FallingEdge(w, p) <==> 2 <= p < 2 * |w| && !w[p / 2 - 1] && !w[p / 2])
  {
  }

  /** There is no edge between two successive ones. */
  lemma NoneBetween(w: seq<bool>, es: seq<int>, j: nat, p: int)
    requires Edges(w, es) && j < |es| && EdgeBefore(es, j) < p < es[j]
    ensures !FallingEdge(w, p)
  {
    forall i | 0 <= i < |es| ensures es[i] != p {
      if i < j {
        assert es[i] <= es[j - 1];
      } else {
        assert es[j] <= es[i];
      }
    }
  }

  /** The distance to the next edge is 1, 1.5 or 2 periods, and says which bits
      lie in between. */
  lemma NextEdge(w: seq<bool>, es: seq<int>, j: nat)
    requires Edges(w, es) && 0 < j < |es|
    ensures var p, q := es[j - 1], es[j];
            && FallingEdge(w, p) && FallingEdge(w, q)
            && (p % 2 == 1 ==> q == p + 2 || q == p + 3 || q == p + 4)
            && (p % 2 == 0 ==> q == p + 2 || q == p + 3)
            && (p % 2 == 1 && q > p + 2 ==> !w[p / 2 + 1])
            && w[q / 2 - (if q % 2 == 0 then 1 else 0)] == (q % 2 == 1)
  {
    var p, q := es[j - 1], es[j];
    assert p in es && q in es;
    EdgeMeans(w, p);
    EdgeMeans(w, q);
    forall r | p < r < q ensures !FallingEdge(w, r) { NoneBetween(w, es, j, r); }
    EdgeMeans(w, p + 1);
    EdgeMeans(w, p + 2);
    EdgeMeans(w, p + 3);
    EdgeMeans(w, p + 4);
  }

  lemma Lengths(pl: int, halves: int)
    requires halves == 2 || halves == 3 || halves == 4
    requires CheckPulseLength(pl, HALF_PERIOD * halves)
    ensures CheckPulseLength(pl, FULL_PERIOD) <==> halves == 2
    ensures CheckPulseLength(pl, 3 * HALF_PERIOD) <==> halves == 3
    ensures CheckPulseLength(pl, 2 * FULL_PERIOD) <==> halves == 4
    ensures !CheckPulseLength(pl, 3 * FULL_PERIOD)
  {
  }

  lemma FirstFixed(w: seq<bool>, es: seq<int>, pl: int)
    requires Edges(w, es) && es != [] && CheckPulseLength(pl, HALF_PERIOD * (es[0] + 2))
    ensures Fixed(w, es[0], First(pl))
  {
    var q := es[0];
    assert q in es;
    EdgeMeans(w, q);
    forall r | -2 < r < q ensures !FallingEdge(w, r) { NoneBetween(w, es, 0, r); }
    EdgeMeans(w, 1);
    EdgeMeans(w, 2);
    EdgeMeans(w, 3);
    assert q == 1 || q == 2 || q == 3;
  }

  /** One pulse more fixes the bits up to the next edge. */
  lemma NextFixed(w: seq<bool>, es: seq<int>, j: nat, d: Word, pl: int, was: seq<bool>)
    requires Edges(w, es) && 0 < j < |es| && Fixed(w, es[j - 1], d)
    requires CheckPulseLength(pl, HALF_PERIOD * (es[j] - es[j - 1]))
    requires |d.bits| + Width(pl, d.change) <= |was|
    ensures Fixed(w, es[j], Next(d, pl, was))
  {
    hide CheckPulseLength, FallingEdge;
    var p, q := es[j - 1], es[j];
    NextEdge(w, es, j);
    EdgeMeans(w, p);
    EdgeMeans(w, q);
    Lengths(pl, q - p);
    var e := Next(d, pl, was);
    var k := (p + 1) / 2;
    assert e.bits == w[..(q + 1) / 2] by {
      assert |e.bits| == (q + 1) / 2;
    }
  }

  /** From one edge on to a later one: the pulses in between need exactly the
      room of the bits that they fix. */
  lemma {:induction false} Along(w: seq<bool>, es: seq<int>, pulses: seq<int>, j: nat, n: nat, d: Word, was: seq<bool>)
    requires Edges(w, es) && Timed(pulses, es) && 0 < j <= n <= |es| == |pulses|
    requires Fixed(w, es[j - 1], d) && |w| <= |was|
    ensures |d.bits| + Entries(pulses[j..n], d.change) == (es[n - 1] + 1) / 2 <= |w|
    ensures Fixed(w, es[n - 1], Run(d, pulses[j..n], was))
    decreases n - j
  {
    hide CheckPulseLength, FallingEdge, Width, ChangeAfter, Edges, Fixed, Timed, Next;
    LastBit(w, es, n);
    FixedMeans(w, es[j - 1], d);
    if j == n {
      assert pulses[j..n] == [];
    } else {
      var rest := pulses[j..n];
      assert rest[0] == pulses[j] && rest[1..] == pulses[j + 1..n];
      TimedAt(pulses, es, j);
      OnePulse(w, es, j, d, pulses[j], was);
      FixedMeans(w, es[j], Next(d, pulses[j], was));
      Along(w, es, pulses, j + 1, n, Next(d, pulses[j], was), was);
    }
  }

  lemma TimedAt(pulses: seq<int>, es: seq<int>, j: nat)
    requires Timed(pulses, es) && 0 < j < |es|
    ensures |pulses| == |es| && CheckPulseLength(pulses[j], HALF_PERIOD * (es[j] - es[j - 1]))
  {
    assert EdgeBefore(es, j) == es[j - 1];
    LastsIs(pulses[j], es[j] - es[j - 1]);
  }

  lemma FixedMeans(w: seq<bool>, p: int, d: Word)
    requires Fixed(w, p, d)
    ensures !d.ended && d.bits != [] && |d.bits| == (p + 1) / 2 <= |w|
  {
  }

  lemma LastBit(w: seq<bool>, es: seq<int>, n: nat)
    requires Edges(w, es) && 0 < n <= |es|
    ensures 1 <= es[n - 1] && (es[n - 1] + 1) / 2 <= |w|
  {
    assert es[n - 1] in es;
  }

  lemma OnePulse(w: seq<bool>, es: seq<int>, j: nat, d: Word, pl: int, was: seq<bool>)
    requires Edges(w, es) && 0 < j < |es| && Fixed(w, es[j - 1], d) && |w| <= |was|
    requires CheckPulseLength(pl, HALF_PERIOD * (es[j] - es[j - 1]))
    ensures d.bits != [] && 0 < Width(pl, d.change) && |d.bits| + Width(pl, d.change) <= |was|
    ensures Fixed(w, es[j], Next(d, pl, was))
  {
    hide CheckPulseLength;
    NextEdge(w, es, j);
    Lengths(pl, es[j] - es[j - 1]);
    assert |d.bits| + Width(pl, d.change) == (es[j] + 1) / 2;
    NextFixed(w, es, j, d, pl, was);
  }

  /** After every single pulse, and whatever the jitter, the decoder has written
      exactly the bits that the falling edges seen so far fix. */
  lemma DecodesManchester(w: seq<bool>, es: seq<int>, pulses: seq<int>, n: nat, was: seq<bool>)
    requires Edges(w, es) && Timed(pulses, es) && 0 < n <= |es| && |w| <= |was|
    ensures var d := First(pulses[0]);
            && |d.bits| + Entries(pulses[1..n], d.change) <= |was|
            && Fixed(w, es[n - 1], Run(d, pulses[1..n], was))
  {
    hide CheckPulseLength, FallingEdge, Fixed, First;
    assert EdgeBefore(es, 0) == -2;
    LastsIs(pulses[0], es[0] + 2);
    FirstFixed(w, es, pulses[0]);
    Along(w, es, pulses, 1, n, First(pulses[0]), was);
  }

  /** A listen window ends the word and leaves its bits alone. */
  lemma ListenWindow(d: Word, pl: int, was: seq<bool>)
    requires Lasts(pl, 6) && d.bits != [] && |d.bits| <= |was|
    ensures Width(pl, d.change) == 0 && Next(d, pl, was) == d.(ended := true)
  {
    LastsIs(pl, 6);
  }

  /** A pulse of any other length skips an entry, which keeps what it held. */
  lemma OtherPulse(d: Word, pl: int, was: seq<bool>)
    requires !Lasts(pl, 2) && !Lasts(pl, 3) && !Lasts(pl, 4) && !Lasts(pl, 6) && d.bits != [] && |d.bits| < |was|
    ensures Width(pl, d.change) == 1 && Next(d, pl, was) == d.(bits := d.bits + [was[|d.bits|]])
  {
    LastsIs(pl, 2);
    LastsIs(pl, 3);
    LastsIs(pl, 4);
    LastsIs(pl, 6);
  }

  /** Pulses of one period, as long bits of one value give them. */
  function Periods(n: nat): seq<int> { seq(n, _ => T0 * FULL_PERIOD) }

  lemma {:induction false} PeriodsFill(n: nat, change: bool)
    ensures Entries(Periods(n), change) == n
  {
    if n > 0 {
      assert Periods(n)[1..] == Periods(n - 1);
      assert Width(Periods(n)[0], change) == 1 && ChangeAfter(Periods(n)[0], change) == change;
      PeriodsFill(n - 1, change);
    }
  }

  /**
   * The loop counts no entries: after any first pulse and n pulses of one period
   * it has filled the caller's 45 entries and gone on exactly when n exceeds what
   * the first pulse left.
   */
  lemma NoBoundOnEntries(first: int, n: nat)
    ensures |First(first).bits| + Entries(Periods(n), First(first).change) > WORD <==> n > WORD - |First(first).bits|
  {
    PeriodsFill(n, First(first).change);
  }

  lemma {:induction false} RunLength(d: Word, pulses: seq<int>, was: seq<bool>)
    requires d.bits != [] && !d.ended && |d.bits| + Entries(pulses, d.change) <= |was|
    ensures |Run(d, pulses, was).bits| == |d.bits| + Entries(pulses, d.change)
    decreases |pulses|
  {
    hide CheckPulseLength, Width;
    if pulses != [] {
      var e := Next(d, pulses[0], was);
      if !e.ended { RunLength(e, pulses[1..], was); }
    }
  }

  /**
   * The result is one less than the entries written. So the caller, which takes a
   * word when the result is 45, takes exactly the words that filled 46 entries:
   * one more than its array has.
   */
  lemma AcceptedWordOverruns(pulses: seq<int>, was: seq<bool>)
    requires pulses != [] && |First(pulses[0]).bits| + Entries(pulses[1..], First(pulses[0]).change) <= |was|
    ensures |Run(First(pulses[0]), pulses[1..], was).bits| - 1 == WORD <==>
            |First(pulses[0]).bits| + Entries(pulses[1..], First(pulses[0]).change) == WORD + 1
  {
    hide Run;
    RunLength(First(pulses[0]), pulses[1..], was);
  }
}
