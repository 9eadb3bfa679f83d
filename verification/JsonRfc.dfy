/**
 * The tokens of RFC 8259, sections 6 and 7, and the proof that every complete RFC
 * value is accepted by the walker's parser (armsrc/frozen.c:122-437), which consumes
 * exactly that value.
 */
module JsonRfc {
  import opened JsonParse
  import opened JsonGrammar
  import opened JsonTokens

  // ---- Strings, section 7 -----------------------------------------------

  predicate Continues(c: char) { 0x80 <= c as int < 0xc0 }

  predicate ValidChar(p: Piece)
  {
    match p
    case Plain(c) => 0x20 <= c as int < 0x80 && c != '"' && c != '\\'
    case Utf8(o) =>
      o != "" &&
      (match |o|
       case 2 => 0xc2 <= o[0] as int <= 0xdf
       case 3 => 0xe0 <= o[0] as int <= 0xef
       case 4 => 0xf0 <= o[0] as int <= 0xf4
       case _ => false) &&
      forall i :: 0 < i < |o| ==> Continues(o[i])
    case Escape(c) => c in "\"\\/bfnrt"
    case UEscape(h) => |h| == 4 && AllHexDigits(h)
  }

  predicate ValidChars(ps: seq<Piece>) { forall i :: 0 <= i < |ps| ==> ValidChar(ps[i]) }

  lemma CharsRead(ps: seq<Piece>)
    requires ValidChars(ps)
    ensures Token(KString, PiecesText(ps))
  {
    hide StringBody, PiecesText, Taken, ValidChar;
    forall i | 0 <= i < |ps| ensures Taken(ps[i]) { ValidTaken(ps[i]); }
    PiecesRead(ps, "");
    assert PiecesText(ps) + "\"" + "" == PiecesText(ps) + "\"";
  }

  lemma ValidTaken(p: Piece)
    requires ValidChar(p)
    ensures Taken(p)
  {
  }

  // ---- Numbers, section 6 -----------------------------------------------

  /** No hexadecimal numbers, no leading zeros. */
  predicate ValidNumber(n: Numeral) { n.Decimal? && TakenNumeral(n) && (n.whole[0] == '0' ==> |n.whole| == 1) }

  lemma NumberReadsRfc(n: Numeral)
    requires ValidNumber(n)
    ensures Token(KNumber, NumeralText(n))
  {
    hide Token, NumeralText;
    NumberTokenIs(NumeralText(n));
  }

  // ---- Values, sections 3 to 5 ------------------------------------------

  ghost predicate RfcToken(k: Kind, raw: string)
  {
    match k
    case KString => exists ps :: ValidChars(ps) && raw == PiecesText(ps)
    case KNumber => exists n :: ValidNumber(n) && raw == NumeralText(n)
    case _ => raw == Word(k)
  }

  ghost predicate Rfc(c: Cst)
  {
    match c
    case CScalar(k, raw) => RfcToken(k, raw)
    case CArray(items) => RfcItems(items)
    case CObject(ms) => RfcMembers(ms)
  }
  ghost predicate RfcItems(c: CItems)
  {
    match c
    case CEnd(ws) => AllSpace(ws)
    case CItem(pre, v, post, comma, more) =>
      AllSpace(pre) && Rfc(v) && AllSpace(post) && comma == !more.CEnd? && RfcItems(more)
  }
  ghost predicate RfcMembers(c: CMembers)
  {
    match c
    case CClose(ws) => AllSpace(ws)
    case CMember(pre, bare, key, mid, pad, v, post, comma, more) =>
      AllSpace(pre) && !bare && RfcToken(KString, key) && AllSpace(mid) && AllSpace(pad) &&
      Rfc(v) && AllSpace(post) && comma == !more.CClose? && RfcMembers(more)
  }

  lemma RfcTokenReads(k: Kind, raw: string)
    requires RfcToken(k, raw)
    ensures Token(k, raw)
  {
    hide ValidChars, ValidNumber, StringBody, Number, PiecesText, NumeralText;
    match k
    case KString =>
      var ps :| ValidChars(ps) && raw == PiecesText(ps);
      CharsRead(ps);
    case KNumber =>
      var n :| ValidNumber(n) && raw == NumeralText(n);
      NumberReadsRfc(n);
    case _ =>
  }

  lemma {:induction false} RfcWellFormed(c: Cst)
    requires Rfc(c)
    ensures WellFormed(c)
    decreases c
  {
    hide Token, RfcToken;
    match c
    case CScalar(k, raw) => RfcTokenReads(k, raw);
    case CArray(items) => RfcItemsWellFormed(items);
    case CObject(ms) => RfcMembersWellFormed(ms);
  }
  lemma {:induction false} RfcItemsWellFormed(c: CItems)
    requires RfcItems(c)
    ensures WellFormedItems(c)
    decreases c
  {
    hide Token, RfcToken;
    if c.CItem? { RfcWellFormed(c.v); RfcItemsWellFormed(c.more); }
  }
  lemma {:induction false} RfcMembersWellFormed(c: CMembers)
    requires RfcMembers(c)
    ensures WellFormedMembers(c)
    decreases c
  {
    hide Token, RfcToken;
    if c.CMember? { RfcTokenReads(KString, c.key); RfcWellFormed(c.v); RfcMembersWellFormed(c.more); }
  }

  /**
   * Every RFC 8259 value, after any white space and before any text that does
   * not prolong it, is accepted, and exactly that value is consumed.
   */
  lemma RfcAccepted(c: Cst, ws: string, x: string)
    requires Rfc(c) && AllSpace(ws) && MayFollow(c, x)
    ensures Value(ws + (Text(c) + x)) == Parsed(Tree(c), x)
  {
    hide Rfc, Value, WellFormed, MayFollow;
    RfcWellFormed(c);
    ReadsStrict(c, x);
    assert (Text(c) + x)[0] == Text(c)[0];
    SpacesBeforeValue(ws, Text(c) + x);
  }

  // ---- Beyond the RFC -------------------------------------------------------

  /** [1 0x2,]: no comma between the items, one behind the last, and a hexadecimal number. */
  lemma MoreThanRfc()
    ensures Value("[1 0x2,]") == Parsed(Arr(Item(Scalar(KNumber, "1"), Item(Scalar(KNumber, "0x2"), NoItems))), "")
  {
    hide Value, Token, Number, Text, Spells;
    var two := CItem("", CScalar(KNumber, "0x2"), "", true, CEnd(""));
    var items := CItem("", CScalar(KNumber, "1"), " ", false, two);
    HexToken();
    OneToken();
    TwoItems(two, items);
    Reads(CArray(items), "");
    assert "[1 0x2,]" + "" == "[1 0x2,]";
  }

  lemma HexToken()
    ensures Token(KNumber, "0x2")
  {
    SpanOf(IsXDigit, "2", "");
    assert "2" + "" == "2" && "0x2"[2..] == "2" && "2"[..1] == "2" && "2"[1..] == "" && "0x" + "2" == "0x2";
  }

  lemma OneToken()
    ensures Token(KNumber, "1")
  {
    SpanOf(IsDigit, "1", "");
    assert "1" + "" == "1" && "1"[..1] == "1" && "1"[1..] == "";
  }

  lemma TwoItems(two: CItems, items: CItems)
    requires two == CItem("", CScalar(KNumber, "0x2"), "", true, CEnd(""))
    requires items == CItem("", CScalar(KNumber, "1"), " ", false, two)
    requires Token(KNumber, "0x2") && Token(KNumber, "1")
    ensures Text(CArray(items)) == "[1 0x2,]" && Spells(CArray(items), "")
    ensures Tree(CArray(items)) == Arr(Item(Scalar(KNumber, "1"), Item(Scalar(KNumber, "0x2"), NoItems)))
  {
    hide Number;
    assert ItemsText(CEnd("")) == "]";
    assert ItemsText(two) == "0x2,]";
    assert ItemsText(items) == "1 0x2,]";
    assert AfterItem("", true, CEnd(""), "") == ",]";
    assert AfterItem(" ", false, two, "") == " 0x2,]";
    NumberLocal("0x2", ",]");
    NumberLocal("1", " 0x2,]");
    assert SpellsItems(CEnd(""), "");
    assert SpellsItems(two, "");
  }

  /** {a:1}: a bare key. */
  lemma BareKeyAccepted()
    ensures Value("{a:1}") == Parsed(Obj(Member("a", Scalar(KNumber, "1"), NoMembers)), "")
  {
    hide Value, Token, Number;
    var ms := CMember("", true, "a", "", "", CScalar(KNumber, "1"), "", false, CClose(""));
    OneToken();
    assert MembersText(CClose("")) == "}";
    assert AfterMember("", false, CClose(""), "") == "}";
    NumberLocalOne();
    assert SpellsMembers(CClose(""), "");
    assert SpellsMembers(ms, "");
    assert TreeMembers(CClose("")) == NoMembers;
    assert MembersText(ms) == "a:1}";
    assert Text(CObject(ms)) == "{a:1}";
    Reads(CObject(ms), "");
    assert "{a:1}" + "" == "{a:1}";
  }

  lemma NumberLocalOne()
    ensures Number("1" + "}") == Lexed("1", "}")
  {
    hide Number;
    OneNumber();
    NumberLocal("1", "}");
  }

  lemma OneNumber()
    ensures Number("1") == Lexed("1", "")
  {
    OneToken();
  }
}
