/**
 * The writing commands of the Hitag S emulator (armsrc/hitagS.c:371-376, 482-513,
 * 569-597). LCON and LKP are fixed while the emulator runs.
 */
module HitagS {
  type Page = p: seq<bv8> | |p| == 4 witness [0, 0, 0, 0]

  const PAGES: nat := 64

  datatype Phase = NoOp | PageData | BlockData

  /** page and left are page_to_be_written and block_data_left. */
  datatype Tag = Tag(pages: seq<Page>, phase: Phase, page: nat, left: int, lcon: bool, lkp: bool)

  /** A received frame, as far as it matters for writing. */
  datatype Frame = UidRequest | WriteData(data: Page) | WritePage(page: nat) | WriteBlock(page: nat) | Other

  function High(x: bv8): (n: nat)
    ensures n < 16
  {
    (x >> 4) as nat
  }

  function Low(x: bv8): (n: nat)
    ensures n < 16
  {
    (x & 0xf) as nat
  }

  /** The frame from its length in bits and its octets. */
  function Parse(rx: seq<bv8>, rxlen: nat): Frame
    requires 8 * |rx| >= rxlen
  {
    if rxlen == 5 then UidRequest
    else if rxlen == 40 then WriteData(rx[0..4])
    else if rxlen == 20 && High(rx[0]) == 8 then WritePage(Low(rx[0]) * 16 + High(rx[1]))
    else if rxlen == 20 && High(rx[0]) == 9 then WriteBlock(Low(rx[0]) * 6 + High(rx[1]))
    else Other // selects, challenges and reads change nothing below
  }

  /** The block command weighs the upper half of the page number by 6 instead of 16. */
  lemma BlockAddress(rx: seq<bv8>)
    requires |rx| >= 3 && High(rx[0]) == 9
    ensures Parse(rx, 20) == WriteBlock(Low(rx[0]) * 16 + High(rx[1])) <==> Low(rx[0]) == 0
  {
    hide Low, High;
  }

  predicate Protected(t: Tag, page: nat)
  {
    (t.lcon && page == 1) || (t.lkp && (page == 2 || page == 3))
  }

  /** The pages array has 64 entries: the code checks no bound. */
  predicate InRange(f: Frame)
  {
    match f
    case WritePage(p) => p < PAGES
    case WriteBlock(p) => p < PAGES
    case _ => true
  }

  datatype Reply = Nothing | Ack | Unmodelled

  function Step(t: Tag, f: Frame): (Tag, Reply)
    requires |t.pages| == PAGES && (f.WriteData? && t.phase != NoOp ==> t.page < PAGES)
  {
    match f
    case UidRequest => (t.(phase := NoOp), Unmodelled)
    case WriteData(data) =>
      if t.phase == PageData then (t.(pages := t.pages[t.page := data], phase := NoOp, page := 0), Ack)
      else if t.phase == BlockData then
        var u := t.(pages := t.pages[t.page := data], page := t.page + 1, left := t.left - 1);
        (if u.left == 0 then u.(phase := NoOp, page := 0) else u, Ack)
      else (t, Nothing)
    case WritePage(p) =>
      if Protected(t, p) then (t, Nothing) else (t.(phase := PageData, page := p), Ack)
    case WriteBlock(p) =>
      if p % 4 != 0 || p == 0 then (t, Nothing) else (t.(phase := BlockData, page := p, left := 4), Ack)
    case Other => (t, Unmodelled)
  }

  // ---- The invariant ---------------------------------------------------------

  /**
   * A page about to be written is not protected; within a block the number of pages
   * left tells the position in an aligned group of four from page 4 on.
   */
  predicate Valid(t: Tag)
  {
    |t.pages| == PAGES &&
    (t.phase == PageData ==> t.page < PAGES && !Protected(t, t.page)) &&
    (t.phase == BlockData ==>
       1 <= t.left <= 4 && 4 <= t.page < PAGES && t.page % 4 == 4 - t.left)
  }

  lemma StepKeeps(t: Tag, f: Frame)
    requires Valid(t) && InRange(f)
    ensures Valid(Step(t, f).0) && Step(t, f).0.lcon == t.lcon && Step(t, f).0.lkp == t.lkp
  {
  }

  /** One step changes at most the page announced, and never a protected one. */
  lemma StepWrites(t: Tag, f: Frame, k: nat)
    requires Valid(t) && InRange(f) && k < PAGES
    ensures Step(t, f).0.pages[k] != t.pages[k] ==>
      f.WriteData? && t.phase != NoOp && k == t.page && !Protected(t, k) && Step(t, f).0.pages[k] == f.data
    ensures Step(t, f).0.pages[k] != t.pages[k] && t.phase == BlockData ==>
      GroupStart(t) >= 4 && GroupStart(t) % 4 == 0 && k == GroupStart(t) + (4 - t.left)
  {
  }

  /** The first page of the block being written. */
  function GroupStart(t: Tag): int { t.page - (4 - t.left) }

  function Run(t: Tag, fs: seq<Frame>): (r: Tag)
    requires Valid(t) && forall i :: 0 <= i < |fs| ==> InRange(fs[i])
    ensures Valid(r) && r.lcon == t.lcon && r.lkp == t.lkp
    decreases |fs|
  {
    if fs == [] then t
    else
      var u := Run(t, fs[..|fs| - 1]);
      StepKeeps(u, fs[|fs| - 1]);
      Step(u, fs[|fs| - 1]).0
  }

  /** Over every run: page 1 under LCON, and pages 2 and 3 under LKP, never change. */
  lemma {:induction false} ProtectedForever(t: Tag, fs: seq<Frame>, k: nat)
    requires Valid(t) && forall i :: 0 <= i < |fs| ==> InRange(fs[i])
    requires k < PAGES && Protected(t, k)
    ensures Run(t, fs).pages[k] == t.pages[k]
    decreases |fs|
  {
    hide Step;
    if fs != [] {
      var n := |fs| - 1;
      ProtectedForever(t, fs[..n], k);
      StepWrites(Run(t, fs[..n]), fs[n], k);
    }
  }

  /** A page command and its data write that page and nothing else, if it is not protected. */
  lemma PageWrite(t: Tag, p: nat, data: Page)
    requires Valid(t) && t.phase == NoOp && p < PAGES
    ensures Valid(Step(t, WritePage(p)).0)
    ensures Step(Step(t, WritePage(p)).0, WriteData(data)).0.pages ==
            if Protected(t, p) then t.pages else t.pages[p := data]
  {
  }

  // ---- Whole block writes --------------------------------------------------------

  /** A frame that neither ends nor replaces a block write: data, a refused command, or another. */
  predicate Quiet(t: Tag, f: Frame)
  {
    match f
    case UidRequest => false
    case WriteData(_) => true
    case WritePage(p) => Protected(t, p)
    case WriteBlock(p) => p % 4 != 0 || p == 0
    case Other => true
  }

  /** The data frames among fs. */
  function DataOf(fs: seq<Frame>): seq<Page>
    decreases |fs|
  {
    if fs == [] then []
    else
      var f := fs[|fs| - 1];
      DataOf(fs[..|fs| - 1]) + if f.WriteData? then [f.data] else []
  }

  function Min(a: nat, b: nat): nat { if a < b then a else b }

  /** The first n of the data laid down from page p on. */
  function Fill(pages: seq<Page>, p: nat, data: seq<Page>, n: nat): (r: seq<Page>)
    requires p + n <= |pages| && n <= |data|
    ensures |r| == |pages|
  {
    if n == 0 then pages else Fill(pages, p, data, n - 1)[p + n - 1 := data[n - 1]]
  }

  lemma {:induction false} FillPrefix(pages: seq<Page>, p: nat, data: seq<Page>, more: seq<Page>, n: nat)
    requires p + n <= |pages| && n <= |data|
    ensures Fill(pages, p, data + more, n) == Fill(pages, p, data, n)
    decreases n
  {
    if n > 0 { FillPrefix(pages, p, data, more, n - 1); }
  }

  /**
   * After an accepted block command for page p, whatever quiet frames follow: the
   * first four data frames go to pages p to p + 3 in order, nothing else changes,
   * block_data_left counts them down, and the fourth ends the command.
   */
  lemma {:induction false} BlockRun(t: Tag, p: nat, fs: seq<Frame>)
    requires Valid(t) && 0 < p < PAGES && p % 4 == 0
    requires forall i :: 0 <= i < |fs| ==> InRange(fs[i]) && Quiet(t, fs[i])
    ensures Valid(Step(t, WriteBlock(p)).0)
    ensures var r := Run(Step(t, WriteBlock(p)).0, fs);
      var n := Min(|DataOf(fs)|, 4);
      && r.pages == Fill(t.pages, p, DataOf(fs), n)
      && (n < 4 ==> r.phase == BlockData && r.left == 4 - n && r.page == p + n)
      && (n == 4 ==> r.phase == NoOp)
    decreases |fs|
  {
    hide Fill, Valid;
    StepKeeps(t, WriteBlock(p));
    BoundsOf(t);
    var t0 := Step(t, WriteBlock(p)).0;
    if fs == [] {
      FillNone(t.pages, p);
    } else {
      var k := |fs| - 1;
      BlockRun(t, p, fs[..k]);
      var u := Run(t0, fs[..k]);
      var f, d := fs[k], DataOf(fs[..k]);
      BoundsOf(u);
      BlockStep(t, p, u, f, d);
    }
  }

  lemma BoundsOf(t: Tag)
    requires Valid(t)
    ensures |t.pages| == PAGES && (t.phase != NoOp ==> t.page < PAGES)
  {
  }

  lemma FillNone(pages: seq<Page>, p: nat)
    requires p <= |pages|
    ensures Fill(pages, p, [], 0) == pages
  {
  }

  lemma BlockStep(t: Tag, p: nat, u: Tag, f: Frame, d: seq<Page>)
    requires Valid(t) && Valid(u) && 0 < p < PAGES && p % 4 == 0 && Quiet(t, f)
    requires u.lcon == t.lcon && u.lkp == t.lkp
    requires var n := Min(|d|, 4);
      u.pages == Fill(t.pages, p, d, n) &&
      (n < 4 ==> u.phase == BlockData && u.left == 4 - n && u.page == p + n) && (n == 4 ==> u.phase == NoOp)
    ensures var d' := d + if f.WriteData? then [f.data] else [];
      var n' := Min(|d'|, 4);
      var r := Step(u, f).0;
      && r.pages == Fill(t.pages, p, d', n')
      && (n' < 4 ==> r.phase == BlockData && r.left == 4 - n' && r.page == p + n')
      && (n' == 4 ==> r.phase == NoOp)
  {
    if f.WriteData? {
      FillPrefix(t.pages, p, d, [f.data], Min(|d|, 4));
    } else {
      assert d + [] == d;
    }
  }

  // ---- From the air ------------------------------------------------------------------

  /** Octets and the number of bits received. */
  datatype Air = Air(rx: seq<bv8>, bits: nat)

  /** The octets hold the bits, and a page number lies within the 64 pages. */
  predicate Fits(a: Air)
  {
    && a.bits <= 8 * |a.rx|
    && (a.bits == 20 ==>
          && (a.rx[0] as nat / 16 == 8 ==> a.rx[0] as nat % 16 < 4)
          && (a.rx[0] as nat / 16 == 9 ==> 6 * (a.rx[0] as nat % 16) + a.rx[1] as nat / 16 < 64))
  }

  /** The emulator after some receptions. */
  function Heard(t: Tag, air: seq<Air>): (r: Tag)
    requires Valid(t) && forall i :: 0 <= i < |air| ==> Fits(air[i])
    ensures Valid(r) && r.lcon == t.lcon && r.lkp == t.lkp
    decreases |air|
  {
    if air == [] then t
    else
      var u, a := Heard(t, air[..|air| - 1]), air[|air| - 1];
      FitsInRange(a);
      StepKeeps(u, Parse(a.rx, a.bits));
      Step(u, Parse(a.rx, a.bits)).0
  }

  lemma Nibbles(x: bv8)
    ensures High(x) == x as nat / 16 && Low(x) == x as nat % 16
  {
    var h, l := x >> 4, x & 0xf;
    assert x == (h << 4) | l;
  }

  lemma FitsInRange(a: Air)
    requires Fits(a)
    ensures InRange(Parse(a.rx, a.bits))
  {
    hide High, Low;
    if a.bits == 20 {
      Nibbles(a.rx[0]);
      Nibbles(a.rx[1]);
    }
  }

  /** Whatever is received: page 1 under LCON, and pages 2 and 3 under LKP, stay as they are. */
  lemma {:induction false} NeverOverwritten(t: Tag, air: seq<Air>, k: nat)
    requires Valid(t) && forall i :: 0 <= i < |air| ==> Fits(air[i])
    requires (t.lcon && k == 1) || (t.lkp && (k == 2 || k == 3))
    ensures Heard(t, air).pages[k] == t.pages[k]
    decreases |air|
  {
    hide Step, Parse;
    if air != [] {
      var n := |air| - 1;
      var a := air[n];
      NeverOverwritten(t, air[..n], k);
      FitsInRange(a);
      StepWrites(Heard(t, air[..n]), Parse(a.rx, a.bits), k);
    }
  }

  /** 1000, eight bits of page number and eight more bits. */
  predicate AsksPage(a: Air, p: nat)
  {
    a.bits == 20 && |a.rx| >= 3 && a.rx[0] as nat == 128 + p / 16 && a.rx[1] as nat / 16 == p % 16
  }

  lemma PageAsked(a: Air, p: nat)
    requires AsksPage(a, p) && p < PAGES
    ensures Fits(a) && Parse(a.rx, a.bits) == WritePage(p)
  {
    hide High, Low;
    Nibbles(a.rx[0]);
    Nibbles(a.rx[1]);
  }

  /** A page command and a data frame: the four octets go to that page and nowhere else, unless it is protected. */
  lemma PageHeard(t: Tag, a: Air, p: nat, d: Air)
    requires Valid(t) && t.phase == NoOp && p < PAGES && AsksPage(a, p) && d.bits == 40 && |d.rx| >= 5
    ensures Fits(a) && Fits(d)
    ensures Heard(t, [a, d]).pages ==
      if (t.lcon && p == 1) || (t.lkp && (p == 2 || p == 3)) then t.pages else t.pages[p := d.rx[0..4]]
  {
    hide Step, Parse, Fits, AsksPage;
    PageAsked(a, p);
    DataHeard(d);
    assert [a, d][..1] == [a] && [a][..0] == [];
    assert Heard(t, [a]) == Step(t, WritePage(p)).0;
    PageWrite(t, p, d.rx[0..4]);
  }

  lemma DataHeard(d: Air)
    requires d.bits == 40 && |d.rx| >= 5
    ensures Fits(d) && Parse(d.rx, d.bits) == WriteData(d.rx[0..4])
  {
  }

  // ---- As it runs ------------------------------------------------------------------

  class Emulator {
    const lcon: bool
    const lkp: bool
    var pages: seq<Page>
    var phase: Phase
    var page: nat
    var left: int

    ghost function View(): Tag
      reads this
    {
      Tag(pages, phase, page, left, lcon, lkp)
    }

    constructor (memory: seq<Page>, lcon: bool, lkp: bool)
      requires |memory| == PAGES
      ensures Valid(View()) && View() == Tag(memory, NoOp, 0, 0, lcon, lkp)
    {
      this.lcon, this.lkp := lcon, lkp;
      pages, phase, page, left := memory, NoOp, 0, 0;
    }

    /** The writing cases of hitagS_handle_reader_command. */
    method HandleReaderCommand(rx: seq<bv8>, rxlen: nat) returns (reply: Reply)
      requires Valid(View()) && 8 * |rx| >= rxlen && InRange(Parse(rx, rxlen))
      modifies this
      ensures Valid(View()) && (View(), reply) == Step(old(View()), Parse(rx, rxlen))
    {
      hide High, Low;
      StepKeeps(View(), Parse(rx, rxlen));
      reply := Unmodelled;
      if rxlen == 5 {
        phase := NoOp;
      } else if rxlen == 40 {
        reply := HandleData(rx[0..4]);
      } else if rxlen == 20 {
        if High(rx[0]) == 8 {
          var p := Low(rx[0]) * 16 + High(rx[1]);
          if (lcon && p == 1) || (lkp && (p == 2 || p == 3)) {
            reply := Nothing;
          } else {
            reply := Ack;
            page := p;
            phase := PageData;
          }
        } else if High(rx[0]) == 9 {
          var p := Low(rx[0]) * 6 + High(rx[1]);
          if p % 4 != 0 || p == 0 {
            reply := Nothing;
          } else {
            reply := Ack;
            page := p;
            left := 4;
            phase := BlockData;
          }
        }
      }
    }

    method HandleData(data: Page) returns (reply: Reply)
      requires Valid(View())
      modifies this
      ensures (View(), reply) == Step(old(View()), WriteData(data))
    {
      reply := Nothing;
      if phase == PageData {
        phase := NoOp;
        pages := pages[page := data];
        reply := Ack;
        page := 0;
      } else if phase == BlockData {
        pages := pages[page := data];
        reply := Ack;
        page := page + 1;
        left := left - 1;
        if left == 0 {
          phase := NoOp;
          page := 0;
        }
      }
    }
  }
}
