/**
 * The tokens and texts read by the JSON walker, laid out by character codes and
 * without any of the parser's own rules (armsrc/frozen.c:135-292), and the proof
 * that the parser reads these texts and no others.
 */
module JsonTokens {
  import opened JsonParse
  import opened JsonGrammar

  // ---- Characters ---------------------------------------------------------

  predicate Digit(c: char) { 48 <= c as int <= 57 }
  predicate HexDigit(c: char) { Digit(c) || 65 <= c as int <= 70 || 97 <= c as int <= 102 }
  predicate Letter(c: char) { 65 <= c as int <= 90 || 97 <= c as int <= 122 }
  predicate Blank(c: char) { c as int == 9 || c as int == 10 || c as int == 13 || c as int == 32 }

  predicate AllDigits(s: string) { forall i :: 0 <= i < |s| ==> Digit(s[i]) }
  predicate AllHexDigits(s: string) { forall i :: 0 <= i < |s| ==> HexDigit(s[i]) }
  predicate AllBlank(s: string) { forall i :: 0 <= i < |s| ==> Blank(s[i]) }

  lemma CharClasses(c: char)
    ensures IsDigit(c) == Digit(c) && IsXDigit(c) == HexDigit(c) && IsAlpha(c) == Letter(c) && IsSpace(c) == Blank(c)
    ensures IsWord(c) == (Letter(c) || Digit(c) || c as int == 95)
  {
  }

  // ---- Strings ------------------------------------------------------------

  /** One turn of the string loop: a plain octet, a UTF-8 sequence or an escape. */
  datatype Piece =
    | Plain(c: char)
    | Utf8(octets: string)
    | Escape(c: char)
    | UEscape(hex: string)

  /** The octets that are called for by the first one of a UTF-8 sequence. */
  predicate Utf8Length(lead: int, n: nat)
  {
    (n == 2 && 0x80 <= lead < 0xe0) || (n == 3 && 0xe0 <= lead < 0xf0) || (n == 4 && 0xf0 <= lead)
  }

  /** Any octets may follow the first one of a UTF-8 sequence. */
  predicate Taken(p: Piece)
  {
    match p
    case Plain(c) => 32 <= c as int < 0x80 && c as int != 34 && c as int != 92
    case Utf8(o) => o != "" && Utf8Length(o[0] as int, |o|)
    case Escape(c) => c in "\"\\/bfnrt"
    case UEscape(h) => |h| == 4 && AllHexDigits(h)
  }

  function PieceText(p: Piece): string
  {
    match p
    case Plain(c) => [c]
    case Utf8(o) => o
    case Escape(c) => ['\\', c]
    case UEscape(h) => "\\u" + h
  }

  predicate AllTaken(ps: seq<Piece>) { forall i :: 0 <= i < |ps| ==> Taken(ps[i]) }

  function PiecesText(ps: seq<Piece>): string
  {
    if ps == [] then "" else PieceText(ps[0]) + PiecesText(ps[1..])
  }

  /** raw is made of such pieces. */
  ghost predicate StringToken(raw: string) { exists ps :: AllTaken(ps) && raw == PiecesText(ps) }

  lemma PieceReads(p: Piece, x: string)
    requires Taken(p)
    ensures PieceText(p) != "" && PieceText(p)[0] != '"'
    ensures CharStep(PieceText(p) + x) == |PieceText(p)|
  {
    var t := PieceText(p) + x;
    match p
    case Plain(c) =>
    case Utf8(o) => assert t[0] == o[0];
    case Escape(c) => assert t[1..][0] == c;
    case UEscape(h) =>
      assert t[1..] == "u" + h + x;
      assert forall i :: 0 <= i < 4 ==> t[1..][1 + i] == h[i];
  }

  lemma PieceOf(t: string) returns (p: Piece)
    requires t != "" && t[0] != '"' && CharStep(t) > 0
    ensures Taken(p) && PieceText(p) == t[..CharStep(t)]
  {
    if t[0] == '\\' {
      if t[1] == 'u' {
        p := UEscape(t[2..6]);
        assert forall i :: 0 <= i < 4 ==> t[2..6][i] == t[1..][1 + i];
      } else {
        p := Escape(t[1]);
      }
    } else if t[0] as int < 0x80 {
      p := Plain(t[0]);
    } else {
      p := Utf8(t[..CharLen(t[0])]);
    }
  }

  lemma {:induction false} PiecesRead(ps: seq<Piece>, x: string)
    requires AllTaken(ps)
    ensures StringBody(PiecesText(ps) + "\"" + x) == Lexed(PiecesText(ps), x)
  {
    hide CharStep, PieceText, Taken;
    if ps == [] {
      assert PiecesText(ps) + "\"" + x == "\"" + x;
    } else {
      var a, b := PieceText(ps[0]), PiecesText(ps[1..]);
      PiecesRead(ps[1..], x);
      PieceReads(ps[0], b + "\"" + x);
      Pieces(a, b, x);
      assert a + (b + "\"" + x) == a + b + "\"" + x;
    }
  }

  lemma {:induction false} PiecesOf(t: string) returns (ps: seq<Piece>)
    requires StringBody(t).Lexed?
    ensures AllTaken(ps) && StringBody(t).raw == PiecesText(ps)
    decreases |t|
  {
    hide CharStep, PieceText, Taken;
    if t[0] == '"' {
      ps := [];
    } else {
      var p := PieceOf(t);
      var more := PiecesOf(t[CharStep(t)..]);
      ps := [p] + more;
      assert ps[1..] == more;
    }
  }

  /**
   * A string after its opening quote: raw is read and rest is left if and only if
   * raw is made of pieces and the closing quote stands behind it.
   */
  lemma StringIs(t: string, raw: string, rest: string)
    ensures StringBody(t) == Lexed(raw, rest) <==> StringToken(raw) && t == raw + "\"" + rest
  {
    hide StringBody, AllTaken, PiecesText;
    if StringBody(t) == Lexed(raw, rest) {
      var ps := PiecesOf(t);
      StringCut(t);
    }
    if StringToken(raw) && t == raw + "\"" + rest {
      var ps :| AllTaken(ps) && raw == PiecesText(ps);
      PiecesRead(ps, rest);
    }
  }

  lemma StringCut(t: string)
    ensures StringBody(t).Lexed? ==> t == StringBody(t).raw + "\"" + StringBody(t).rest
  {
  }

  lemma StringTokenIs(raw: string)
    ensures Token(KString, raw) <==> StringToken(raw)
  {
    hide StringBody, StringToken;
    StringIs(raw + "\"", raw, "");
    assert raw + "\"" + "" == raw + "\"";
  }

  // ---- Numbers ------------------------------------------------------------

  datatype Sign = None | Plus | Minus

  /** -? (0x hex+ | digit+ (. digit+)? ([eE] [+-]? digit+)?); an empty frac or exp stands for an absent one. */
  datatype Numeral =
    | Hex(minus: bool, digits: string)
    | Decimal(minus: bool, whole: string, frac: string, exp: string, big: bool, sign: Sign)

  predicate TakenNumeral(n: Numeral)
  {
    match n
    case Hex(_, d) => d != "" && AllHexDigits(d)
    case Decimal(_, whole, frac, exp, _, _) => whole != "" && AllDigits(whole) && AllDigits(frac) && AllDigits(exp)
  }

  function SignText(s: Sign): string { match s case None => "" case Plus => "+" case Minus => "-" }
  function FracText(frac: string): string { if frac == "" then "" else "." + frac }
  function ExpText(exp: string, big: bool, sign: Sign): string
  {
    if exp == "" then "" else (if big then "E" else "e") + (SignText(sign) + exp)
  }
  function UnsignedText(n: Numeral): string
  {
    match n
    case Hex(_, d) => "0x" + d
    case Decimal(_, whole, frac, exp, big, sign) => whole + (FracText(frac) + ExpText(exp, big, sign))
  }
  function NumeralText(n: Numeral): string { (if n.minus then "-" else "") + UnsignedText(n) }

  /** x, standing behind n, does not prolong it. */
  predicate Ends(n: Numeral, x: string)
  {
    x == "" ||
    match n
    case Hex(_, _) => !HexDigit(x[0])
    case Decimal(_, whole, frac, exp, _, _) =>
      && !Digit(x[0])
      && (exp == "" ==> x[0] != 'e' && x[0] != 'E')
      && (exp == "" && frac == "" ==> x[0] != '.' && (whole == "0" ==> x[0] != 'x'))
  }

  ghost predicate NumberToken(raw: string, x: string)
  {
    exists n :: TakenNumeral(n) && raw == NumeralText(n) && Ends(n, x)
  }

  lemma DigitsRead(d: string, x: string)
    requires d != "" && AllDigits(d) && (x == "" || !Digit(x[0]))
    ensures Digits(d + x) == Lexed(d, x)
  {
    SpanOf(IsDigit, d, x);
    assert (d + x)[0] == d[0] && (d + x)[..|d|] == d && (d + x)[|d|..] == x;
  }

  lemma HexDigitsRead(d: string, x: string)
    requires d != "" && AllHexDigits(d) && (x == "" || !HexDigit(x[0]))
    ensures Run(IsXDigit, d + x) == Lexed(d, x)
  {
    SpanOf(IsXDigit, d, x);
    assert (d + x)[0] == d[0] && (d + x)[..|d|] == d && (d + x)[|d|..] == x;
  }

  lemma SignedRead(sign: Sign, exp: string, x: string)
    requires exp != "" && AllDigits(exp) && (x == "" || !Digit(x[0]))
    ensures SignedDigits(SignText(sign) + exp + x) == Lexed(SignText(sign) + exp, x)
  {
    hide Run;
    DigitsRead(exp, x);
    var u := SignText(sign) + exp + x;
    if sign == None {
      assert SignText(sign) + exp == exp;
      assert u[0] == exp[0];
    } else {
      HeadAndTail(SignText(sign), exp, x);
    }
  }

  lemma ExponentReads(n: Numeral, x: string)
    requires n.Decimal? && TakenNumeral(n) && Ends(n, x)
    ensures Exponent(ExpText(n.exp, n.big, n.sign) + x) == Lexed(ExpText(n.exp, n.big, n.sign), x)
  {
    hide SignedDigits;
    if n.exp == "" {
      assert "" + x == x;
    } else {
      SignedRead(n.sign, n.exp, x);
      HeadAndTail(if n.big then "E" else "e", SignText(n.sign) + n.exp, x);
    }
  }

  lemma FractionReads(frac: string, y: string)
    requires AllDigits(frac) && (y == "" || !Digit(y[0])) && (frac == "" ==> !Starts('.', y))
    ensures Fraction(FracText(frac) + y) == Lexed(FracText(frac), y)
  {
    hide Run;
    if frac == "" {
      assert "" + y == y;
    } else {
      DigitsRead(frac, y);
      HeadAndTail(".", frac, y);
    }
  }

  function TailText(n: Numeral): string
    requires n.Decimal?
  {
    FracText(n.frac) + ExpText(n.exp, n.big, n.sign)
  }

  lemma TailReads(n: Numeral, x: string)
    requires n.Decimal? && TakenNumeral(n) && Ends(n, x)
    ensures Tail(TailText(n) + x) == Lexed(TailText(n), x)
    ensures TailText(n) + x == "" || !Digit((TailText(n) + x)[0])
    ensures n.whole == "0" ==> !Starts('x', TailText(n) + x)
  {
    hide Fraction, Exponent;
    var f, e := FracText(n.frac), ExpText(n.exp, n.big, n.sign);
    var y := e + x;
    assert y != "" ==> y[0] == if e != "" then e[0] else x[0];
    ExponentReads(n, x);
    FractionReads(n.frac, y);
    assert f + e + x == f + y;
    assert f + y != "" ==> (f + y)[0] == if f != "" then f[0] else y[0];
  }

  lemma UnsignedReads(n: Numeral, x: string)
    requires TakenNumeral(n) && Ends(n, x)
    ensures UnsignedText(n) != "" && IsDigit(UnsignedText(n)[0])
    ensures Unsigned(UnsignedText(n) + x) == Lexed(UnsignedText(n), x)
  {
    hide Unsigned;
    if n.Hex? { HexReads(n, x); } else { DecimalReads(n, x); }
  }

  lemma HexReads(n: Numeral, x: string)
    requires n.Hex? && TakenNumeral(n) && Ends(n, x)
    ensures Unsigned(UnsignedText(n) + x) == Lexed(UnsignedText(n), x)
  {
    hide Run, Unprefixed, AllHexDigits;
    HexDigitsRead(n.digits, x);
    Prefixed(n.digits, x);
  }

  lemma Prefixed(d: string, x: string)
    ensures StartsHex("0x" + d + x) && ("0x" + d + x)[2..] == d + x
  {
  }

  lemma DecimalReads(n: Numeral, x: string)
    requires n.Decimal? && TakenNumeral(n) && Ends(n, x)
    ensures UnsignedText(n) != "" && IsDigit(UnsignedText(n)[0])
    ensures Unsigned(UnsignedText(n) + x) == Lexed(UnsignedText(n), x)
  {
    hide Run, Tail, TailText, StartsHex;
    TailReads(n, x);
    var y := TailText(n) + x;
    DigitsRead(n.whole, y);
    DecimalText(n);
    Assoc(n.whole, TailText(n), x);
    NotHex(n.whole, y);
  }

  lemma DecimalText(n: Numeral)
    requires n.Decimal?
    ensures UnsignedText(n) == n.whole + TailText(n)
  {
  }

  lemma NotHex(whole: string, y: string)
    requires whole != "" && AllDigits(whole) && (whole == "0" ==> !Starts('x', y))
    ensures !StartsHex(whole + y)
  {
    var u := whole + y;
    if |whole| > 1 { assert u[1] == whole[1]; } else if whole[0] == '0' { assert whole == "0"; }
  }

  lemma NumeralReads(n: Numeral, x: string)
    requires TakenNumeral(n) && Ends(n, x)
    ensures NumeralText(n) != "" && StartsNumber(NumeralText(n)[0])
    ensures Number(NumeralText(n) + x) == Lexed(NumeralText(n), x)
  {
    hide Unsigned, UnsignedText, TakenNumeral, Ends;
    UnsignedReads(n, x);
    if n.minus {
      HeadAndTail("-", UnsignedText(n), x);
    } else {
      assert "" + UnsignedText(n) == UnsignedText(n);
      assert (UnsignedText(n) + x)[0] == UnsignedText(n)[0];
    }
  }

  lemma DigitsOf(t: string)
    requires Digits(t).Lexed?
    ensures var l := Digits(t); l.raw != "" && AllDigits(l.raw) && (l.rest == "" || !Digit(l.rest[0]))
  {
    var n := Span(IsDigit, t);
    assert forall i :: 0 <= i < n ==> IsDigit(t[i]);
    assert t[n..] != "" ==> t[n..][0] == t[n];
  }

  lemma HexDigitsOf(t: string)
    requires Run(IsXDigit, t).Lexed?
    ensures var l := Run(IsXDigit, t); l.raw != "" && AllHexDigits(l.raw) && (l.rest == "" || !HexDigit(l.rest[0]))
  {
    var n := Span(IsXDigit, t);
    assert forall i :: 0 <= i < n ==> IsXDigit(t[i]);
    assert t[n..] != "" ==> t[n..][0] == t[n];
  }

  lemma SignedOf(t: string) returns (exp: string, sign: Sign)
    requires SignedDigits(t).Lexed?
    ensures var l := SignedDigits(t);
      exp != "" && AllDigits(exp) && l.raw == SignText(sign) + exp && (l.rest == "" || !Digit(l.rest[0]))
  {
    hide Run, AllDigits;
    if Starts('+', t) || Starts('-', t) {
      DigitsOf(t[1..]);
      exp, sign := Digits(t[1..]).raw, if t[0] == '+' then Plus else Minus;
      assert t[..1] == SignText(sign);
    } else {
      DigitsOf(t);
      exp, sign := Digits(t).raw, None;
      assert "" + exp == exp;
    }
  }

  lemma ExponentOf(t: string) returns (exp: string, big: bool, sign: Sign)
    requires Exponent(t).Lexed? && (t == "" || !Digit(t[0]))
    ensures var l := Exponent(t);
      && AllDigits(exp) && l.raw == ExpText(exp, big, sign) && (exp == "" ==> l.rest == t)
      && (l.rest == "" || (!Digit(l.rest[0]) && (exp == "" ==> l.rest[0] != 'e' && l.rest[0] != 'E')))
  {
    hide SignedDigits;
    if Starts('e', t) || Starts('E', t) {
      exp, sign := SignedOf(t[1..]);
      big := t[0] == 'E';
      assert t[..1] == if big then "E" else "e";
    } else {
      exp, big, sign := "", false, None;
    }
  }

  lemma FractionOf(t: string) returns (frac: string)
    requires Fraction(t).Lexed? && (t == "" || !Digit(t[0]))
    ensures var l := Fraction(t);
      && AllDigits(frac) && l.raw == FracText(frac) && (frac == "" ==> l.rest == t)
      && (l.rest == "" || (!Digit(l.rest[0]) && (frac == "" ==> l.rest[0] != '.')))
  {
    hide Run;
    if Starts('.', t) {
      DigitsOf(t[1..]);
      frac := Digits(t[1..]).raw;
    } else {
      frac := "";
    }
  }

  lemma DecimalOf(t: string, minus: bool) returns (n: Numeral)
    requires Unprefixed(t).Lexed? && !StartsHex(t)
    ensures n.Decimal? && n.minus == minus && TakenNumeral(n) && UnsignedText(n) == Unprefixed(t).raw
    ensures Ends(n, Unprefixed(t).rest)
  {
    hide Run, Fraction, Exponent, FracText, ExpText, AllDigits;
    DigitsOf(t);
    var whole, u := Digits(t).raw, Digits(t).rest;
    var frac := FractionOf(u);
    var exp, big, sign := ExponentOf(Fraction(u).rest);
    n := Decimal(minus, whole, frac, exp, big, sign);
    if whole == "0" {
      DigitsCut(t);
      assert t == "0" + u;
      assert u != "" ==> t[1] == u[0];
    }
  }

  lemma DigitsCut(t: string)
    requires Digits(t).Lexed?
    ensures t == Digits(t).raw + Digits(t).rest
  {
  }

  lemma NumeralOf(t: string) returns (n: Numeral)
    requires Number(t).Lexed?
    ensures TakenNumeral(n) && NumeralText(n) == Number(t).raw && Ends(n, Number(t).rest)
  {
    hide Run, Unprefixed;
    var minus := Starts('-', t);
    var u := if minus then t[1..] else t;
    if StartsHex(u) {
      HexDigitsOf(u[2..]);
      n := Hex(minus, Run(IsXDigit, u[2..]).raw);
    } else {
      n := DecimalOf(u, minus);
    }
    assert UnsignedText(n) == Unsigned(u).raw;
    assert "" + UnsignedText(n) == UnsignedText(n);
  }

  /**
   * raw is read as a number and x is left behind it if and only if raw is a
   * numeral that x does not prolong.
   */
  lemma NumberIs(raw: string, x: string)
    ensures raw != "" && StartsNumber(raw[0]) && Number(raw + x) == Lexed(raw, x) <==> NumberToken(raw, x)
  {
    hide Number, TakenNumeral, NumeralText, Ends;
    if raw != "" && StartsNumber(raw[0]) && Number(raw + x) == Lexed(raw, x) {
      var n := NumeralOf(raw + x);
    }
    if NumberToken(raw, x) {
      var n :| TakenNumeral(n) && raw == NumeralText(n) && Ends(n, x);
      NumeralReads(n, x);
    }
  }

  lemma NumberTokenIs(raw: string)
    ensures Token(KNumber, raw) <==> exists n :: TakenNumeral(n) && raw == NumeralText(n)
  {
    hide Number, TakenNumeral, NumeralText;
    NumberIs(raw, "");
    assert raw + "" == raw;
    if exists n :: TakenNumeral(n) && raw == NumeralText(n) {
      var n :| TakenNumeral(n) && raw == NumeralText(n);
      assert Ends(n, "");
    }
  }

  lemma NumberFollows(raw: string, x: string)
    ensures Token(KNumber, raw) && Number(raw + x) == Lexed(raw, x) <==> NumberToken(raw, x)
  {
    hide Number, TakenNumeral, NumeralText, Ends;
    NumberIs(raw, x);
    NumberTokenIs(raw);
  }

  // ---- Texts --------------------------------------------------------------

  predicate BareWord(key: string)
  {
    key != "" && Letter(key[0]) && forall i :: 0 <= i < |key| ==> Letter(key[i]) || Digit(key[i]) || key[i] as int == 95
  }

  ghost predicate ScalarSpelt(k: Kind, raw: string, x: string)
  {
    match k
    case KString => StringToken(raw)
    case KNumber => NumberToken(raw, x)
    case KTrue => raw == "true"
    case KFalse => raw == "false"
    case KNull => raw == "null"
  }

  /** c, with x behind it, is a text of the language. */
  ghost predicate Spelt(c: Cst, x: string)
  {
    match c
    case CScalar(k, raw) => ScalarSpelt(k, raw, x)
    case CArray(items) => SpeltAll(items, x)
    case CObject(ms) => SpeltPairs(ms, x)
  }
  ghost predicate SpeltAll(c: CItems, x: string)
  {
    match c
    case CEnd(ws) => AllBlank(ws)
    case CItem(pre, v, post, comma, more) =>
      AllBlank(pre) && AllBlank(post) && Spelt(v, AfterItem(post, comma, more, x)) && SpeltAll(more, x)
  }
  ghost predicate SpeltPairs(c: CMembers, x: string)
  {
    match c
    case CClose(ws) => AllBlank(ws)
    case CMember(pre, bare, key, mid, pad, v, post, comma, more) =>
      AllBlank(pre) && (if bare then BareWord(key) else StringToken(key)) && AllBlank(mid) && AllBlank(pad) &&
      AllBlank(post) && Spelt(v, AfterMember(post, comma, more, x)) && SpeltPairs(more, x)
  }

  lemma BlankIs(ws: string)
    ensures AllSpace(ws) <==> AllBlank(ws)
  {
  }

  lemma KeyIs(bare: bool, key: string)
    ensures (if bare then BareKey(key) else Token(KString, key)) <==> (if bare then BareWord(key) else StringToken(key))
  {
    hide Token, StringToken;
    if bare { BareIs(key); } else { StringTokenIs(key); }
  }

  lemma BareIs(key: string)
    ensures BareKey(key) <==> BareWord(key)
  {
  }

  lemma ScalarIs(k: Kind, raw: string, x: string)
    ensures Token(k, raw) && (k == KNumber ==> Number(raw + x) == Lexed(raw, x)) <==> ScalarSpelt(k, raw, x)
  {
    hide Number, StringBody, StringToken, NumberToken;
    match k
    case KString => StringTokenIs(raw);
    case KNumber => NumberFollows(raw, x);
    case _ =>
  }

  lemma {:induction false} SpeltIs(c: Cst, x: string)
    ensures Spells(c, x) <==> Spelt(c, x)
    decreases c
  {
    hide Token, ScalarSpelt, Number, SpellsItems, SpeltAll, SpellsMembers, SpeltPairs;
    match c
    case CScalar(k, raw) => ScalarIs(k, raw, x);
    case CArray(items) => SpeltAllIs(items, x);
    case CObject(ms) => SpeltPairsIs(ms, x);
  }

  lemma {:induction false} SpeltAllIs(c: CItems, x: string)
    ensures SpellsItems(c, x) <==> SpeltAll(c, x)
    decreases c
  {
    hide Spells, Spelt, AfterItem, AllSpace, AllBlank;
    match c
    case CEnd(ws) => BlankIs(ws);
    case CItem(pre, v, post, comma, more) =>
      BlankIs(pre);
      BlankIs(post);
      SpeltIs(v, AfterItem(post, comma, more, x));
      SpeltAllIs(more, x);
  }

  lemma {:induction false} SpeltPairsIs(c: CMembers, x: string)
    ensures SpellsMembers(c, x) <==> SpeltPairs(c, x)
    decreases c
  {
    hide Spells, Spelt, AfterMember, AllSpace, AllBlank, Token, StringToken, BareKey, BareWord;
    match c
    case CClose(ws) => BlankIs(ws);
    case CMember(pre, bare, key, mid, pad, v, post, comma, more) =>
      BlankIs(pre);
      KeyIs(bare, key);
      BlankIs(mid);
      BlankIs(pad);
      BlankIs(post);
      SpeltIs(v, AfterMember(post, comma, more, x));
      SpeltPairsIs(more, x);
  }

  /**
   * The language that is read, without the parser's own rules: a text is accepted
   * with tree j and with rest left over if and only if it is white space, a text of
   * the language for j, and rest.
   */
  lemma LanguageIs(t: string, j: Json, rest: string)
    ensures Value(t) == Parsed(j, rest)
      <==> exists ws, c :: AllBlank(ws) && t == ws + (Text(c) + rest) && Spelt(c, rest) && Tree(c) == j
  {
    hide Value, Spells, Spelt, Tree, Text, AllSpace, AllBlank;
    Language(t, j, rest);
    if Value(t) == Parsed(j, rest) {
      var ws, c :| Splits(t, ws, c, rest) && Tree(c) == j;
      BlankIs(ws);
      SpeltIs(c, rest);
    }
    if exists ws, c :: AllBlank(ws) && t == ws + (Text(c) + rest) && Spelt(c, rest) && Tree(c) == j {
      var ws, c :| AllBlank(ws) && t == ws + (Text(c) + rest) && Spelt(c, rest) && Tree(c) == j;
      BlankIs(ws);
      SpeltIs(c, rest);
      assert Splits(t, ws, c, rest);
    }
  }
}
