/**
 * JSON texts as sections 2 to 7 of RFC 8259 lay them out, and the proof that the
 * walker's parser reads each of them completely and gets its tree. The concrete
 * trees carry the white space; their tokens may be anything the parser's own
 * lexical rules accept, which contains the RFC's tokens and more.
 */
module JsonGrammar {
  import opened JsonParse

  // ---- Tokens -----------------------------------------------------------

  predicate AllSpace(ws: string) { forall i :: 0 <= i < |ws| ==> IsSpace(ws[i]) }

  /** raw is the text of a token of kind k, quotes excluded. */
  predicate Token(k: Kind, raw: string)
  {
    match k
    case KString => StringBody(raw + "\"") == Lexed(raw, "")
    case KNumber => raw != "" && StartsNumber(raw[0]) && Number(raw) == Lexed(raw, "")
    case _ => raw == Word(k)
  }

  /** A text that cannot prolong a number standing before it. */
  predicate Stops(x: string) { x == "" || !(IsWord(x[0]) || x[0] == '.') }

  lemma {:induction false} SpanOf(p: char -> bool, r: string, x: string)
    requires forall i :: 0 <= i < |r| ==> p(r[i])
    requires x == "" || !p(x[0])
    ensures Span(p, r + x) == |r|
  {
    if r == "" {
      assert r + x == x;
    } else {
      assert (r + x)[1..] == r[1..] + x;
      SpanOf(p, r[1..], x);
    }
  }

  lemma SkipSpaces(ws: string, u: string)
    requires AllSpace(ws) && (u == "" || !IsSpace(u[0]))
    ensures SkipWs(ws + u) == u
  {
    SpanOf(IsSpace, ws, u);
  }

  lemma CharStepLocal(t: string, u: string)
    requires t != "" && CharStep(t) > 0
    requires |u| >= CharStep(t) && u[..CharStep(t)] == t[..CharStep(t)]
    ensures CharStep(u) == CharStep(t)
  {
    hide IsXDigit;
    var n := CharStep(t);
    assert forall i :: 0 <= i < n ==> u[i] == t[..n][i];
    assert forall i :: 0 <= i < n ==> u[i] == t[i];
    if t[0] == '\\' {
      assert forall i :: 0 <= i < n - 1 ==> u[1..][i] == t[1..][i];
    }
  }

  lemma Pieces(p: string, r: string, x: string)
    ensures var u := p + r + "\"" + x;
      u[..|p|] == p && u[|p|..] == r + "\"" + x && (p != "" ==> u[0] == p[0])
  {
  }

  /** What a string token reads does not depend on what follows its closing quote. */
  lemma {:induction false} StringLocal(t: string, x: string)
    requires StringBody(t).Lexed?
    ensures StringBody(StringBody(t).raw + "\"" + x) == Lexed(StringBody(t).raw, x)
    decreases |t|
  {
    hide CharStep;
    var r := StringBody(t).raw;
    if t[0] == '"' {
      assert r + "\"" + x == "\"" + x;
    } else {
      var n := CharStep(t);
      var r' := StringBody(t[n..]).raw;
      StringLocal(t[n..], x);
      var u := r + "\"" + x;
      Pieces(t[..n], r', x);
      assert u[0] == t[..n][0];
      CharStepLocal(t, u);
    }
  }

  lemma RunLocal(p: char -> bool, t: string, x: string)
    requires Run(p, t).Lexed?
    requires x == "" || !p(x[0])
    ensures Run(p, Run(p, t).raw + x) == Lexed(Run(p, t).raw, x)
  {
    var r := Run(p, t).raw;
    SpanOf(p, r, x);
    assert (r + x)[|r|..] == x && (r + x)[..|r|] == r;
    assert (r + x)[0] == r[0];
  }

  lemma FractionLocal(t: string, x: string)
    requires Fraction(t).Lexed?
    requires x == "" || !(IsDigit(x[0]) || x[0] == '.')
    ensures Fraction(Fraction(t).raw + x) == Lexed(Fraction(t).raw, x)
  {
    hide Run;
    var r := Fraction(t).raw;
    if Starts('.', t) {
      var d := Digits(t[1..]).raw;
      RunLocal(IsDigit, t[1..], x);
      assert (r + x)[1..] == d + x;
    } else {
      assert r + x == x;
    }
  }

  lemma DigitsHead(t: string)
    requires Digits(t).Lexed?
    ensures Digits(t).raw != "" && Digits(t).raw[0] == t[0]
  {
  }

  lemma HeadAndTail(a: string, d: string, x: string)
    requires |a| == 1
    ensures (a + d + x)[0] == a[0] && (a + d + x)[..1] == a && (a + d + x)[1..] == d + x
  {
  }

  lemma SignedDigitsLocal(t: string, x: string)
    requires SignedDigits(t).Lexed?
    requires x == "" || !IsDigit(x[0])
    ensures SignedDigits(SignedDigits(t).raw + x) == Lexed(SignedDigits(t).raw, x)
  {
    hide Run;
    var r := SignedDigits(t).raw;
    if Starts('+', t) || Starts('-', t) {
      RunLocal(IsDigit, t[1..], x);
      HeadAndTail(t[..1], Digits(t[1..]).raw, x);
    } else {
      RunLocal(IsDigit, t, x);
      DigitsHead(t);
      assert (r + x)[0] == r[0];
    }
  }

  lemma ExponentLocal(t: string, x: string)
    requires Exponent(t).Lexed?
    requires x == "" || !(IsDigit(x[0]) || x[0] == 'e' || x[0] == 'E')
    ensures Exponent(Exponent(t).raw + x) == Lexed(Exponent(t).raw, x)
  {
    hide SignedDigits;
    var r := Exponent(t).raw;
    if Starts('e', t) || Starts('E', t) {
      SignedDigitsLocal(t[1..], x);
      HeadAndTail(t[..1], SignedDigits(t[1..]).raw, x);
    } else {
      assert r + x == x;
    }
  }

  lemma ExponentHead(t: string)
    requires Exponent(t).Lexed? && Exponent(t).raw != ""
    ensures Exponent(t).raw[0] == 'e' || Exponent(t).raw[0] == 'E'
  {
  }

  lemma FractionHead(t: string)
    requires Fraction(t).Lexed? && Fraction(t).raw != ""
    ensures Fraction(t).raw[0] == '.'
  {
  }

  lemma TailLocal(t: string, x: string)
    requires Tail(t).Lexed? && Stops(x)
    ensures Tail(Tail(t).raw + x) == Lexed(Tail(t).raw, x)
    ensures Tail(t).raw + x == "" || !IsDigit((Tail(t).raw + x)[0])
    ensures Tail(t).raw + x == "" || (Tail(t).raw + x)[0] != 'x'
  {
    hide Fraction, Exponent;
    var f := Fraction(t);
    var e := Exponent(f.rest);
    var y := e.raw + x;
    if e.raw != "" { ExponentHead(f.rest); assert y[0] == e.raw[0]; } else { assert y == x; }
    if f.raw != "" { FractionHead(t); }
    FractionLocal(t, y);
    ExponentLocal(f.rest, x);
    assert Tail(t).raw + x == f.raw + y;
    assert f.raw + y != "" ==> (f.raw + y)[0] == if f.raw != "" then f.raw[0] else y[0];
  }

  lemma UnprefixedLocal(t: string, x: string)
    requires Unprefixed(t).Lexed? && Stops(x)
    ensures Unprefixed(Unprefixed(t).raw + x) == Lexed(Unprefixed(t).raw, x)
    ensures !StartsHex(t) ==> !StartsHex(Unprefixed(t).raw + x)
  {
    hide Run, Tail;
    var d := Digits(t);
    var y := Tail(d.rest).raw + x;
    TailLocal(d.rest, x);
    RunLocal(IsDigit, t, y);
    var r := Unprefixed(t).raw;
    assert r + x == d.raw + y;
    assert r == d.raw + Tail(d.rest).raw;
    if |r| >= 2 {
      assert t[0] == (r + x)[0] && t[1] == (r + x)[1];
    } else {
      assert x != "" ==> (r + x)[1] == x[0];
    }
  }

  lemma UnsignedLocal(t: string, x: string)
    requires Unsigned(t).Lexed? && Stops(x)
    ensures Unsigned(Unsigned(t).raw + x) == Lexed(Unsigned(t).raw, x)
  {
    hide Unprefixed, Run;
    var r := Unsigned(t).raw;
    if StartsHex(t) {
      RunLocal(IsXDigit, t[2..], x);
      assert (r + x)[2..] == Run(IsXDigit, t[2..]).raw + x;
      assert (r + x)[0] == '0' && (r + x)[1] == 'x';
    } else {
      UnprefixedLocal(t, x);
    }
  }

  /** What a number token reads does not depend on a following text that cannot prolong it. */
  lemma NumberLocal(t: string, x: string)
    requires Number(t).Lexed? && Stops(x)
    ensures Number(Number(t).raw + x) == Lexed(Number(t).raw, x)
  {
    hide Unsigned;
    var r := Number(t).raw;
    if Starts('-', t) {
      UnsignedLocal(t[1..], x);
      assert (r + x)[1..] == Unsigned(t[1..]).raw + x;
      assert (r + x)[0] == '-';
    } else {
      UnsignedLocal(t, x);
      assert (r + x)[0] == r[0] == t[0];
    }
  }

  lemma {:induction false} ExpectReads(w: string, x: string)
    ensures Expect(w + x, w) == Lexed(w, x)
  {
    if w == "" {
      assert w + x == x;
    } else {
      assert (w + x)[1..] == w[1..] + x;
      ExpectReads(w[1..], x);
      assert w[..1] + w[1..] == w;
    }
  }

  function Quoted(raw: string): string { "\"" + raw + "\"" }

  /** The text of a scalar as it stands in a document. */
  function ScalarText(k: Kind, raw: string): string { if k == KString then Quoted(raw) else raw }

  predicate Heads(c: char) { c != ']' && c != '}' && c != ',' && !IsSpace(c) }

  lemma StringReads(raw: string, x: string)
    requires Token(KString, raw)
    ensures StringBody((Quoted(raw) + x)[1..]) == Lexed(raw, x)
    ensures ScalarOf(Quoted(raw) + x) == Parsed(Scalar(KString, raw), x)
  {
    hide StringBody, Number;
    assert (Quoted(raw) + x)[1..] == raw + "\"" + x;
    StringLocal(raw + "\"", x);
  }

  lemma NumberReads(raw: string, x: string)
    requires Token(KNumber, raw) && Number(raw + x) == Lexed(raw, x)
    ensures Heads(raw[0]) && ScalarOf(raw + x) == Parsed(Scalar(KNumber, raw), x)
  {
    hide StringBody, Number, Expect;
    assert (raw + x)[0] == raw[0];
  }

  lemma WordReads(k: Kind, x: string)
    requires k != KString && k != KNumber
    ensures Word(k) != "" && Heads(Word(k)[0])
    ensures ScalarOf(Word(k) + x) == Parsed(Scalar(k, Word(k)), x)
  {
    hide StringBody, Number, Expect;
    assert (Word(k) + x)[0] == Word(k)[0];
    ExpectReads(Word(k), x);
  }

  lemma ScalarReads(k: Kind, raw: string, x: string)
    requires Token(k, raw) && (k == KNumber ==> Number(raw + x) == Lexed(raw, x))
    ensures ScalarOf(ScalarText(k, raw) + x) == Parsed(Scalar(k, raw), x)
  {
    hide StringBody, Number, ScalarOf;
    match k
    case KString => StringReads(raw, x);
    case KNumber => NumberReads(raw, x);
    case _ => WordReads(k, x);
  }

  lemma ScalarHead(k: Kind, raw: string)
    requires Token(k, raw)
    ensures ScalarText(k, raw) != "" && Heads(ScalarText(k, raw)[0])
    ensures ScalarText(k, raw)[0] != '{' && ScalarText(k, raw)[0] != '['
  {
    hide StringBody, Number;
  }

  // ---- Concrete trees ---------------------------------------------------

  /**
   * A text, piece by piece. The comma after an item or a member may be missing, and
   * one may stand before the closing bracket; a key may be bare.
   */
  datatype Cst =
    | CScalar(kind: Kind, raw: string)
    | CArray(items: CItems)
    | CObject(members: CMembers)
  datatype CItems = CEnd(ws: string) | CItem(pre: string, v: Cst, post: string, comma: bool, more: CItems)
  datatype CMembers =
    | CClose(ws: string)
    | CMember(pre: string, bare: bool, key: string, mid: string, pad: string, v: Cst, post: string, comma: bool,
              more: CMembers)

  function Comma(comma: bool): string { if comma then "," else "" }

  /** A key as it stands in the text. */
  function KeyWord(bare: bool, key: string): string { if bare then key else Quoted(key) }

  predicate BareKey(key: string)
  {
    key != "" && IsAlpha(key[0]) && forall i :: 0 <= i < |key| ==> IsWord(key[i])
  }

  function Text(c: Cst): string
  {
    match c
    case CScalar(k, raw) => ScalarText(k, raw)
    case CArray(items) => "[" + ItemsText(items)
    case CObject(ms) => "{" + MembersText(ms)
  }
  function ItemsText(c: CItems): string
  {
    match c
    case CEnd(ws) => ws + "]"
    case CItem(pre, v, post, comma, more) =>
      pre + (Text(v) + (post + (Comma(comma) + ItemsText(more))))
  }
  function MembersText(c: CMembers): string
  {
    match c
    case CClose(ws) => ws + "}"
    case CMember(pre, bare, key, mid, pad, v, post, comma, more) =>
      pre + (KeyWord(bare, key) + (mid + (":" + (pad + (Text(v) + (post + (Comma(comma) + MembersText(more))))))))
  }

  function Tree(c: Cst): Json
  {
    match c
    case CScalar(k, raw) => Scalar(k, raw)
    case CArray(items) => Arr(TreeItems(items))
    case CObject(ms) => Obj(TreeMembers(ms))
  }
  function TreeItems(c: CItems): Items
  {
    match c
    case CEnd(_) => NoItems
    case CItem(_, v, _, _, more) => Item(Tree(v), TreeItems(more))
  }
  function TreeMembers(c: CMembers): Members
  {
    match c
    case CClose(_) => NoMembers
    case CMember(_, _, key, _, _, v, _, _, more) => Member(key, Tree(v), TreeMembers(more))
  }

  /** What stands behind an item: white space, perhaps a comma, and all the rest. */
  function AfterItem(post: string, comma: bool, more: CItems, x: string): string {
    post + (Comma(comma) + ItemsText(more)) + x
  }
  function AfterMember(post: string, comma: bool, more: CMembers, x: string): string {
    post + (Comma(comma) + MembersText(more)) + x
  }

  /** c, with x behind it, is made of tokens, and no number runs on into what follows. */
  predicate Spells(c: Cst, x: string)
  {
    match c
    case CScalar(k, raw) => Token(k, raw) && (k == KNumber ==> Number(raw + x) == Lexed(raw, x))
    case CArray(items) => SpellsItems(items, x)
    case CObject(ms) => SpellsMembers(ms, x)
  }
  predicate SpellsItems(c: CItems, x: string)
  {
    match c
    case CEnd(ws) => AllSpace(ws)
    case CItem(pre, v, post, comma, more) =>
      AllSpace(pre) && AllSpace(post) && Spells(v, AfterItem(post, comma, more, x)) && SpellsItems(more, x)
  }
  predicate SpellsMembers(c: CMembers, x: string)
  {
    match c
    case CClose(ws) => AllSpace(ws)
    case CMember(pre, bare, key, mid, pad, v, post, comma, more) =>
      AllSpace(pre) && (if bare then BareKey(key) else Token(KString, key)) && AllSpace(mid) && AllSpace(pad) &&
      AllSpace(post) && Spells(v, AfterMember(post, comma, more, x)) && SpellsMembers(more, x)
  }

  // ---- Every such text is read --------------------------------------------

  lemma TextHead(c: Cst, x: string)
    requires Spells(c, x)
    ensures Text(c) != "" && Heads(Text(c)[0])
    ensures c.CScalar? ==> Text(c)[0] != '{' && Text(c)[0] != '['
  {
    hide Token, ScalarText, Number;
    if c.CScalar? { ScalarHead(c.kind, c.raw); }
  }

  lemma SkipMore(ws: string, u: string)
    requires AllSpace(ws)
    ensures SkipWs(ws + u) == SkipWs(u)
  {
    hide SkipWs;
    var v := SkipWs(u);
    var pre := u[..|u| - |v|];
    SkipWsPrefix(u);
    assert u == pre + v;
    assert ws + u == (ws + pre) + v;
    SkipSpaces(ws + pre, v);
  }

  lemma SkipWsPrefix(t: string)
    ensures AllSpace(t[..|t| - |SkipWs(t)|])
  {
  }

  /** No white space stands at the head of t. */
  predicate AtToken(t: string) { t == "" || !IsSpace(t[0]) }

  lemma AtTokenSkips(t: string)
    requires AtToken(t)
    ensures SkipWs(t) == t
  {
    hide SkipWs;
    assert "" + t == t;
    SkipSpaces("", t);
  }

  lemma ItemsAgain(t: string)
    ensures ItemsOf(SkipWs(t)) == ItemsOf(t)
  {
    hide SkipWs, ItemsAt;
    AtTokenSkips(SkipWs(t));
  }

  lemma MembersAgain(t: string)
    ensures MembersOf(SkipWs(t)) == MembersOf(t)
  {
    hide SkipWs, MembersAt;
    AtTokenSkips(SkipWs(t));
  }

  lemma SpacesBeforeValue(pad: string, t: string)
    requires AllSpace(pad) && AtToken(t)
    ensures Value(pad + t) == Value(t)
  {
    hide ValueAt, SkipWs;
    SkipSpaces(pad, t);
    ValueHere(t);
  }

  lemma ValueHere(t: string)
    requires AtToken(t)
    ensures Value(t) == ValueAt(t)
  {
    hide ValueAt, SkipWs;
    AtTokenSkips(t);
  }

  /** After white space, optionally a comma, the reader stands where the rest is. */
  lemma CommaSkipped(post: string, comma: bool, u: string)
    requires AllSpace(post) && !Starts(',', SkipWs(u))
    ensures SkipComma(post + (Comma(comma) + u)) == if comma then u else SkipWs(u)
  {
    hide SkipWs;
    if comma {
      SkipSpaces(post, "," + u);
      assert ("," + u)[1..] == u;
    } else {
      assert "" + u == u;
      SkipMore(post, u);
    }
  }

  function ItemsBehind(c: CItems, x: string): string
  {
    match c
    case CEnd(_) => "]" + x
    case CItem(_, v, post, comma, more) => Text(v) + AfterItem(post, comma, more, x)
  }

  /** The white space at the head of the items, and what is behind it. */
  lemma ItemsHead(c: CItems, x: string)
    requires SpellsItems(c, x)
    ensures var t := ItemsText(c) + x;
      !Starts(',', SkipWs(t)) && SkipWs(t) == ItemsBehind(c, x)
  {
    hide Spells, Text, SkipWs;
    match c
    case CEnd(ws) =>
      assert ItemsText(c) + x == ws + ("]" + x);
      SkipSpaces(ws, "]" + x);
    case CItem(pre, v, post, comma, more) =>
      var y := post + (Comma(comma) + ItemsText(more));
      var tail := AfterItem(post, comma, more, x);
      TextHead(v, tail);
      Shift(pre, Text(v), y, x);
      assert (Text(v) + tail)[0] == Text(v)[0];
      SkipSpaces(pre, Text(v) + tail);
  }

  lemma Shift(a: string, c: string, y: string, x: string)
    ensures (a + (c + y)) + x == a + (c + (y + x))
  {
    assert (c + y) + x == c + (y + x);
  }

  /**
   * The parser reads every such text: it consumes exactly that text and yields the
   * tree it denotes.
   */
  lemma {:induction false} Reads(c: Cst, x: string)
    requires Spells(c, x)
    ensures Value(Text(c) + x) == Parsed(Tree(c), x)
    decreases c
  {
    hide Token, ScalarText, ScalarOf, Value, IsSpace, ItemsText, MembersText, ItemsOf, MembersOf, Number;
    TextHead(c, x);
    var u := Text(c) + x;
    assert u[0] == Text(c)[0];
    ValueHere(u);
    match c
    case CScalar(k, raw) => ScalarReads(k, raw, x);
    case CArray(items) =>
      assert u[1..] == ItemsText(items) + x;
      ReadsItems(items, x);
    case CObject(ms) =>
      assert u[1..] == MembersText(ms) + x;
      ReadsMembers(ms, x);
  }

  lemma {:induction false} ReadsItems(c: CItems, x: string)
    requires SpellsItems(c, x)
    ensures ItemsOf(ItemsText(c) + x) == Parsed(TreeItems(c), x)
    decreases c
  {
    hide SkipWs, Value, Spells, Text, IsSpace, SkipComma, ItemsText, AfterItem;
    ItemsHead(c, x);
    match c
    case CEnd(ws) => assert ("]" + x)[1..] == x;
    case CItem(pre, v, post, comma, more) =>
      var tail := AfterItem(post, comma, more, x);
      TextHead(v, tail);
      assert (Text(v) + tail)[0] == Text(v)[0];
      Reads(v, tail);
      AfterItemReads(post, comma, more, x);
      ReadsItems(more, x);
  }

  lemma AfterItemReads(post: string, comma: bool, more: CItems, x: string)
    requires AllSpace(post) && SpellsItems(more, x)
    ensures ItemsOf(SkipComma(AfterItem(post, comma, more, x))) == ItemsOf(ItemsText(more) + x)
  {
    hide SkipWs, SkipComma, ItemsOf, Spells, ItemsText, SpellsItems;
    ItemsHead(more, x);
    var u := ItemsText(more) + x;
    Shift(post, Comma(comma), ItemsText(more), x);
    CommaSkipped(post, comma, u);
    ItemsAgain(u);
  }

  /** A key, its colon and the white space around them. */
  lemma KeyReads(bare: bool, key: string, mid: string, u: string)
    requires (if bare then BareKey(key) else Token(KString, key)) && AllSpace(mid)
    ensures KeyColon(KeyWord(bare, key) + (mid + (":" + u))) == Lexed(key, u)
    ensures KeyWord(bare, key) != "" && Heads(KeyWord(bare, key)[0])
  {
    hide Key, SkipWs, KeyWord, Token, BareKey;
    var x := mid + (":" + u);
    var t := KeyWord(bare, key) + x;
    assert x[0] == if mid == "" then ':' else mid[0];
    KeyWordReads(bare, key, x);
    assert t[0] == KeyWord(bare, key)[0];
    AtTokenSkips(t);
    SkipSpaces(mid, ":" + u);
    assert (":" + u)[1..] == u;
  }

  lemma KeyWordReads(bare: bool, key: string, x: string)
    requires (if bare then BareKey(key) else Token(KString, key)) && x != "" && !IsWord(x[0])
    ensures KeyWord(bare, key) != "" && Heads(KeyWord(bare, key)[0])
    ensures Key(KeyWord(bare, key) + x) == Lexed(key, x)
  {
    if bare {
      BareReads(key, x);
    } else {
      hide StringBody, ScalarOf;
      StringReads(key, x);
    }
  }

  lemma BareReads(key: string, x: string)
    requires BareKey(key)
    ensures x != "" && !IsWord(x[0]) ==> Key(key + x) == Lexed(key, x)
    ensures Heads(key[0])
  {
    if x != "" && !IsWord(x[0]) {
      SpanOf(IsWord, key, x);
      assert (key + x)[..|key|] == key && (key + x)[|key|..] == x && (key + x)[0] == key[0];
    }
  }

  function MembersBehind(c: CMembers, x: string): string
  {
    match c
    case CClose(_) => "}" + x
    case CMember(_, bare, key, mid, pad, v, post, comma, more) =>
      KeyWord(bare, key) + (mid + (":" + (pad + (Text(v) + AfterMember(post, comma, more, x)))))
  }

  lemma MembersHead(c: CMembers, x: string)
    requires SpellsMembers(c, x)
    ensures var t := MembersText(c) + x;
      !Starts(',', SkipWs(t)) && SkipWs(t) == MembersBehind(c, x)
  {
    hide Spells, Text, SkipWs, KeyWord, KeyColon;
    match c
    case CClose(ws) =>
      assert MembersText(c) + x == ws + ("}" + x);
      SkipSpaces(ws, "}" + x);
    case CMember(pre, bare, key, mid, pad, v, post, comma, more) =>
      var u := pad + (Text(v) + AfterMember(post, comma, more, x));
      var k := KeyWord(bare, key) + (mid + (":" + u));
      KeyReads(bare, key, mid, u);
      MemberText(c, x);
      assert k[0] == KeyWord(bare, key)[0];
      SkipSpaces(pre, k);
  }

  lemma MemberText(c: CMembers, x: string)
    requires c.CMember?
    ensures MembersText(c) + x == c.pre + (KeyWord(c.bare, c.key) + (c.mid + (":" + (c.pad +
      (Text(c.v) + AfterMember(c.post, c.comma, c.more, x))))))
  {
    hide Text, KeyWord;
    var y := c.post + (Comma(c.comma) + MembersText(c.more));
    var k := KeyWord(c.bare, c.key);
    var z := Text(c.v) + y;
    assert Text(c.v) + (y + x) == z + x;
    Shift(":", c.pad, z, x);
    var w := ":" + (c.pad + z);
    Shift(k, c.mid, w, x);
    assert (c.pre + (k + (c.mid + w))) + x == c.pre + ((k + (c.mid + w)) + x);
  }

  lemma {:induction false} ReadsMembers(c: CMembers, x: string)
    requires SpellsMembers(c, x)
    ensures MembersOf(MembersText(c) + x) == Parsed(TreeMembers(c), x)
    decreases c
  {
    hide SkipWs, Value, Spells, Text, IsSpace, SkipComma, MembersText, AfterMember, KeyColon, KeyWord, Token;
    MembersHead(c, x);
    match c
    case CClose(ws) => assert ("}" + x)[1..] == x;
    case CMember(pre, bare, key, mid, pad, v, post, comma, more) =>
      var tail := AfterMember(post, comma, more, x);
      var u := Text(v) + tail;
      TextHead(v, tail);
      assert u[0] == Text(v)[0];
      var k := KeyWord(bare, key) + (mid + (":" + (pad + u)));
      KeyReads(bare, key, mid, pad + u);
      assert k[0] == KeyWord(bare, key)[0];
      SpacesBeforeValue(pad, u);
      Reads(v, tail);
      AfterMemberReads(post, comma, more, x);
      ReadsMembers(more, x);
  }

  lemma AfterMemberReads(post: string, comma: bool, more: CMembers, x: string)
    requires AllSpace(post) && SpellsMembers(more, x)
    ensures MembersOf(SkipComma(AfterMember(post, comma, more, x))) == MembersOf(MembersText(more) + x)
  {
    hide SkipWs, SkipComma, MembersOf, Spells, MembersText, SpellsMembers;
    MembersHead(more, x);
    var u := MembersText(more) + x;
    Shift(post, Comma(comma), MembersText(more), x);
    CommaSkipped(post, comma, u);
    MembersAgain(u);
  }

  // ---- Texts with commas and quotes where they belong --------------------------

  predicate WellFormed(c: Cst)
  {
    match c
    case CScalar(k, raw) => Token(k, raw)
    case CArray(items) => WellFormedItems(items)
    case CObject(ms) => WellFormedMembers(ms)
  }
  predicate WellFormedItems(c: CItems)
  {
    match c
    case CEnd(ws) => AllSpace(ws)
    case CItem(pre, v, post, comma, more) =>
      AllSpace(pre) && WellFormed(v) && AllSpace(post) && comma == !more.CEnd? && WellFormedItems(more)
  }
  predicate WellFormedMembers(c: CMembers)
  {
    match c
    case CClose(ws) => AllSpace(ws)
    case CMember(pre, bare, key, mid, pad, v, post, comma, more) =>
      AllSpace(pre) && !bare && Token(KString, key) && AllSpace(mid) && AllSpace(pad) &&
      WellFormed(v) && AllSpace(post) && comma == !more.CClose? && WellFormedMembers(more)
  }

  /** What may stand after c: only a number can run on into the text that follows. */
  predicate MayFollow(c: Cst, x: string) { c.CScalar? && c.kind == KNumber ==> Stops(x) }

  /** White space, then a comma or a closing bracket, prolongs no number. */
  lemma TailStops(post: string, sep: char, x: string)
    requires AllSpace(post) && (sep == ',' || sep == ']' || sep == '}')
    ensures Stops(post + ([sep] + x)) && SkipWs(post + ([sep] + x)) == [sep] + x
  {
    SkipSpaces(post, [sep] + x);
    assert post != "" ==> (post + ([sep] + x))[0] == post[0];
  }

  lemma AfterItemStops(post: string, more: CItems, x: string)
    requires AllSpace(post) && WellFormedItems(more)
    ensures Stops(AfterItem(post, !more.CEnd?, more, x))
  {
    hide WellFormed, Text, IsSpace, IsWord, SkipWs;
    if more.CEnd? {
      assert AfterItem(post, false, more, x) == (post + more.ws) + ("]" + x);
      TailStops(post + more.ws, ']', x);
    } else {
      hide ItemsText;
      Shift(post, ",", ItemsText(more), x);
      TailStops(post, ',', ItemsText(more) + x);
    }
  }

  lemma AfterMemberStops(post: string, more: CMembers, x: string)
    requires AllSpace(post) && WellFormedMembers(more)
    ensures Stops(AfterMember(post, !more.CClose?, more, x))
  {
    hide WellFormed, Text, IsSpace, IsWord, SkipWs, Token;
    if more.CClose? {
      assert AfterMember(post, false, more, x) == (post + more.ws) + ("}" + x);
      TailStops(post + more.ws, '}', x);
    } else {
      hide MembersText;
      Shift(post, ",", MembersText(more), x);
      TailStops(post, ',', MembersText(more) + x);
    }
  }

  lemma {:induction false} StrictSpells(c: Cst, x: string)
    requires WellFormed(c) && MayFollow(c, x)
    ensures Spells(c, x)
    decreases c
  {
    hide StringBody, Number, Stops;
    match c
    case CScalar(k, raw) => if k == KNumber { NumberLocal(raw, x); }
    case CArray(items) => StrictSpellsItems(items, x);
    case CObject(ms) => StrictSpellsMembers(ms, x);
  }

  lemma {:induction false} StrictSpellsItems(c: CItems, x: string)
    requires WellFormedItems(c)
    ensures SpellsItems(c, x)
    decreases c
  {
    hide WellFormed, Spells, AfterItem, Stops;
    if c.CItem? {
      AfterItemStops(c.post, c.more, x);
      StrictSpells(c.v, AfterItem(c.post, c.comma, c.more, x));
      StrictSpellsItems(c.more, x);
    }
  }

  lemma {:induction false} StrictSpellsMembers(c: CMembers, x: string)
    requires WellFormedMembers(c)
    ensures SpellsMembers(c, x)
    decreases c
  {
    hide WellFormed, Spells, AfterMember, Stops, Token;
    if c.CMember? {
      AfterMemberStops(c.post, c.more, x);
      StrictSpells(c.v, AfterMember(c.post, c.comma, c.more, x));
      StrictSpellsMembers(c.more, x);
    }
  }

  lemma ReadsStrict(c: Cst, x: string)
    requires WellFormed(c) && MayFollow(c, x)
    ensures Value(Text(c) + x) == Parsed(Tree(c), x)
    ensures Text(c) != "" && Heads(Text(c)[0])
  {
    hide WellFormed, MayFollow, Value, Spells, Text, Tree;
    StrictSpells(c, x);
    Reads(c, x);
    TextHead(c, x);
  }

  // ---- Nothing else is read ------------------------------------------------------

  /** t is white space, then c, then rest. */
  predicate Splits(t: string, ws: string, c: Cst, rest: string)
  {
    AllSpace(ws) && t == ws + (Text(c) + rest) && Spells(c, rest)
  }

  lemma {:induction false} SpeltValue(t: string) returns (ws: string, c: Cst)
    requires Value(t).Parsed?
    ensures Splits(t, ws, c, Value(t).rest) && Tree(c) == Value(t).value
    decreases |t|, 1
  {
    hide SkipWs, ScalarOf, ItemsOf, MembersOf, ItemsText, MembersText, SpellsItems, SpellsMembers;
    var u, rest := SkipWs(t), Value(t).rest;
    ws := t[..|t| - |u|];
    SkipWsPrefix(t);
    assert t == ws + u;
    if u[0] == '{' {
      var ms := SpeltMembers(u[1..]);
      c := CObject(ms);
      assert u == ("{" + MembersText(ms)) + rest;
    } else if u[0] == '[' {
      var items := SpeltItems(u[1..]);
      c := CArray(items);
      assert u == ("[" + ItemsText(items)) + rest;
    } else {
      c := SpeltScalar(u);
    }
  }

  lemma SpeltScalar(u: string) returns (c: Cst)
    requires u != "" && ScalarOf(u).Parsed?
    ensures u == Text(c) + ScalarOf(u).rest && Spells(c, ScalarOf(u).rest) && Tree(c) == ScalarOf(u).value
  {
    hide StringBody, Number, Expect;
    var j, rest := ScalarOf(u).value, ScalarOf(u).rest;
    c := CScalar(j.kind, j.raw);
    if u[0] == '"' {
      StringLocal(u[1..], "");
      assert j.raw + "\"" + "" == j.raw + "\"";
      assert u == "\"" + (j.raw + "\"" + rest);
      assert "\"" + (j.raw + "\"" + rest) == "\"" + j.raw + "\"" + rest;
    } else if StartsNumber(u[0]) {
      NumberLocal(u, "");
      assert j.raw + "" == j.raw;
      assert u == j.raw + rest;
      assert j.raw[0] == u[0];
    }
  }

  /** What was skipped between an item and the next is white space and a comma. */
  lemma SpeltComma(t: string) returns (post: string, comma: bool)
    ensures AllSpace(post) && t == post + (Comma(comma) + SkipComma(t))
  {
    hide SkipWs;
    var w := SkipWs(t);
    SkipWsPrefix(t);
    post, comma := t[..|t| - |w|], Starts(',', w);
    assert t == post + w;
    if comma { assert w == "," + w[1..]; } else { assert "" + w == w; }
  }

  lemma SpeltSpace(t: string) returns (ws: string)
    ensures AllSpace(ws) && t == ws + SkipWs(t)
  {
    hide SkipWs;
    SkipWsPrefix(t);
    ws := t[..|t| - |SkipWs(t)|];
  }

  lemma {:induction false} SpeltItems(t: string) returns (c: CItems)
    requires ItemsOf(t).Parsed?
    ensures t == ItemsText(c) + ItemsOf(t).rest && SpellsItems(c, ItemsOf(t).rest) && TreeItems(c) == ItemsOf(t).value
    decreases |t|, 3
  {
    hide SkipWs, SkipComma, Value, Spells, Text, Tree, ItemsText, SpellsItems, TreeItems;
    var u, rest := SkipWs(t), ItemsOf(t).rest;
    var pre := SpeltSpace(t);
    if Starts(']', u) {
      c := CEnd(pre);
      EndBuilt(pre, u[1..]);
      assert u == "]" + u[1..];
    } else {
      var ws, v := SpeltValue(u);
      var after := Value(u).rest;
      var post, comma := SpeltComma(after);
      var more := SpeltItems(SkipComma(after));
      c := CItem(pre + ws, v, post, comma, more);
      ItemBuilt(pre, ws, v, post, comma, more, rest);
    }
  }

  lemma EndBuilt(ws: string, rest: string)
    requires AllSpace(ws)
    ensures ItemsText(CEnd(ws)) + rest == ws + ("]" + rest) && SpellsItems(CEnd(ws), rest)
    ensures TreeItems(CEnd(ws)) == NoItems
  {
    Assoc(ws, "]", rest);
  }

  lemma Assoc(a: string, b: string, c: string)
    ensures a + b + c == a + (b + c)
  {
  }

  lemma ItemBuilt(pre: string, ws: string, v: Cst, post: string, comma: bool, more: CItems, rest: string)
    requires AllSpace(pre) && AllSpace(ws) && AllSpace(post) && SpellsItems(more, rest)
    ensures var c, after := CItem(pre + ws, v, post, comma, more), post + (Comma(comma) + (ItemsText(more) + rest));
      && ItemsText(c) + rest == pre + (ws + (Text(v) + after))
      && (Spells(v, after) ==> SpellsItems(c, rest)) && TreeItems(c) == Item(Tree(v), TreeItems(more))
  {
    hide Text, Comma, Spells, Tree;
    var y := post + (Comma(comma) + ItemsText(more));
    Shift(post, Comma(comma), ItemsText(more), rest);
    Shift(pre + ws, Text(v), y, rest);
    Assoc(pre, ws, Text(v) + (y + rest));
    SpacesJoin(pre, ws);
  }

  lemma SpacesJoin(a: string, b: string)
    requires AllSpace(a) && AllSpace(b)
    ensures AllSpace(a + b)
  {
    hide IsSpace;
  }

  /** A key that was read, as it stood in the text. */
  lemma SpeltKeyWord(u: string) returns (bare: bool)
    requires Key(u).Lexed?
    ensures var key := Key(u).raw;
      (if bare then BareKey(key) else Token(KString, key)) && u == KeyWord(bare, key) + Key(u).rest
  {
    var key, behind := Key(u).raw, Key(u).rest;
    bare := IsAlpha(u[0]);
    if !bare {
      hide StringBody;
      StringLocal(u[1..], "");
      Assoc(key, "\"", "");
      assert u == "\"" + u[1..];
      QuotedPieces(key, behind);
    } else {
      assert u == key + behind && key[0] == u[0];
    }
  }

  lemma QuotedPieces(key: string, x: string)
    ensures "\"" + (key + "\"" + x) == Quoted(key) + x && "\"" + "" == "\""
  {
  }

  lemma SpeltKey(t: string) returns (pre: string, bare: bool, mid: string)
    requires KeyColon(t).Lexed?
    ensures var key, rest := KeyColon(t).raw, KeyColon(t).rest;
      && AllSpace(pre) && AllSpace(mid) && (if bare then BareKey(key) else Token(KString, key))
      && t == pre + (KeyWord(bare, key) + (mid + (":" + rest)))
  {
    hide SkipWs, Key, BareKey, Token, KeyWord;
    pre := SpeltSpace(t);
    bare := SpeltKeyWord(SkipWs(t));
    var behind := Key(SkipWs(t)).rest;
    mid := SpeltSpace(behind);
    var w := SkipWs(behind);
    assert w == ":" + w[1..];
  }

  lemma {:induction false} SpeltMembers(t: string) returns (c: CMembers)
    requires MembersOf(t).Parsed?
    ensures t == MembersText(c) + MembersOf(t).rest && SpellsMembers(c, MembersOf(t).rest)
    ensures TreeMembers(c) == MembersOf(t).value
    decreases |t|, 3
  {
    hide SkipWs, SkipComma, Value, Spells, Text, Tree, KeyColon, KeyWord, Token, BareKey,
         MembersText, SpellsMembers, TreeMembers;
    var u, rest := SkipWs(t), MembersOf(t).rest;
    var skipped := SpeltSpace(t);
    if Starts('}', u) {
      c := CClose(skipped);
      CloseBuilt(skipped, u[1..]);
      assert u == "}" + u[1..];
    } else {
      var pre, bare, mid := SpeltKey(u);
      var key, behind := KeyColon(u).raw, KeyColon(u).rest;
      var pad, v := SpeltValue(behind);
      var after := Value(behind).rest;
      var post, comma := SpeltComma(after);
      var more := SpeltMembers(SkipComma(after));
      c := CMember(skipped + pre, bare, key, mid, pad, v, post, comma, more);
      MemberBuilt(skipped, c, pre, rest);
    }
  }

  lemma CloseBuilt(ws: string, rest: string)
    requires AllSpace(ws)
    ensures MembersText(CClose(ws)) + rest == ws + ("}" + rest) && SpellsMembers(CClose(ws), rest)
    ensures TreeMembers(CClose(ws)) == NoMembers
  {
    Assoc(ws, "}", rest);
  }

  lemma MemberBuilt(skipped: string, c: CMembers, pre: string, rest: string)
    requires c.CMember? && c.pre == skipped + pre && AllSpace(skipped) && AllSpace(pre) && AllSpace(c.mid)
    requires AllSpace(c.pad) && AllSpace(c.post) && SpellsMembers(c.more, rest)
    requires if c.bare then BareKey(c.key) else Token(KString, c.key)
    ensures var after := c.post + (Comma(c.comma) + (MembersText(c.more) + rest));
      && MembersText(c) + rest ==
         skipped + (pre + (KeyWord(c.bare, c.key) + (c.mid + (":" + (c.pad + (Text(c.v) + after))))))
      && (Spells(c.v, after) ==> SpellsMembers(c, rest))
      && TreeMembers(c) == Member(c.key, Tree(c.v), TreeMembers(c.more))
  {
    hide Text, Comma, Spells, Tree, KeyWord, Token, BareKey;
    Shift(c.post, Comma(c.comma), MembersText(c.more), rest);
    MemberText(c, rest);
    SpacesJoin(skipped, pre);
    var after := c.post + (Comma(c.comma) + (MembersText(c.more) + rest));
    Assoc(skipped, pre, KeyWord(c.bare, c.key) + (c.mid + (":" + (c.pad + (Text(c.v) + after)))));
  }

  /**
   * The language that is read: a text is accepted with tree j and with rest left
   * over if and only if it is white space, a text for j and rest.
   */
  lemma Language(t: string, j: Json, rest: string)
    ensures Value(t) == Parsed(j, rest) <==> exists ws, c :: Splits(t, ws, c, rest) && Tree(c) == j
  {
    hide Value, Spells, Tree, Text;
    if Value(t) == Parsed(j, rest) {
      var ws, c := SpeltValue(t);
      assert Splits(t, ws, c, rest) && Tree(c) == j;
    }
    if exists ws, c :: Splits(t, ws, c, rest) && Tree(c) == j {
      var ws, c :| Splits(t, ws, c, rest) && Tree(c) == j;
      Reads(c, rest);
      TextHead(c, rest);
      assert (Text(c) + rest)[0] == Text(c)[0];
      SpacesBeforeValue(ws, Text(c) + rest);
    }
  }
}
