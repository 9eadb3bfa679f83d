/**
 * The two error codes of the JSON walker (armsrc/frozen.c:122-437): INCOMPLETE for
 * a text that ended too early, INVALID for one that is wrong whatever follows, and
 * the exact texts for which the code does not keep to that.
 */
module JsonPrefix {
  import opened JsonParse
  import opened JsonGrammar
  import opened JsonTokens

  // ---- Where a text ends ----------------------------------------------------

  /** Cut is the inside of \uXXXX, with digits only or not; Partial the inside of a UTF-8 sequence. */
  datatype Spot = Outside | Inside | Slash | Cut(good: bool) | Partial

  /** Where t ends, read from outside or from inside a string. */
  function End(t: string, inside: bool): Spot
    decreases |t|
  {
    if t == "" then (if inside then Inside else Outside)
    else if !inside then End(t[1..], t[0] == '"')
    else if t[0] == '"' then End(t[1..], false)
    else if t[0] == '\\' then
      if |t| == 1 then Slash
      else if t[1] != 'u' then End(t[2..], true)
      else if |t| < 6 then Cut(AllHexDigits(t[2..]))
      else End(t[6..], true)
    else if |t| < CharLen(t[0]) then Partial
    else End(t[CharLen(t[0])..], true)
  }

  predicate NoQuote(s: string) { forall i :: 0 <= i < |s| ==> s[i] != '"' }

  lemma {:induction false} EndSkips(s: string, x: string)
    requires NoQuote(s)
    ensures End(s + x, false) == End(x, false)
    decreases |s|
  {
    if s == "" {
      assert s + x == x;
    } else {
      assert (s + x)[1..] == s[1..] + x;
      EndSkips(s[1..], x);
    }
  }

  lemma EndPiece(p: Piece, x: string)
    requires Taken(p)
    ensures End(PieceText(p) + x, true) == End(x, true)
  {
    var t := PieceText(p) + x;
    match p
    case Plain(c) => assert t[1..] == x;
    case Utf8(o) => assert t[0] == o[0] && t[|o|..] == x;
    case Escape(c) => assert t[1] == c && t[2..] == x;
    case UEscape(h) => assert t[6..] == x;
  }

  lemma {:induction false} EndPieces(ps: seq<Piece>, x: string)
    requires AllTaken(ps)
    ensures End(PiecesText(ps) + ("\"" + x), true) == End(x, false)
    decreases |ps|
  {
    hide Taken, PieceText;
    if ps == [] {
      assert PiecesText(ps) + ("\"" + x) == "\"" + x;
      assert ("\"" + x)[1..] == x;
    } else {
      var a, b := PieceText(ps[0]), PiecesText(ps[1..]);
      EndPiece(ps[0], b + ("\"" + x));
      assert a + b + ("\"" + x) == a + (b + ("\"" + x));
      EndPieces(ps[1..], x);
    }
  }

  lemma EndString(raw: string, x: string)
    requires StringToken(raw)
    ensures End(Quoted(raw) + x, false) == End(x, false)
  {
    hide AllTaken, PiecesText;
    var ps :| AllTaken(ps) && raw == PiecesText(ps);
    EndPieces(ps, x);
    var t := Quoted(raw) + x;
    assert t[0] == '"' && t[1..] == raw + ("\"" + x);
  }

  lemma NumeralUnquoted(n: Numeral)
    requires TakenNumeral(n)
    ensures NoQuote(NumeralText(n))
  {
    match n
    case Hex(_, d) =>
    case Decimal(_, whole, frac, exp, big, sign) =>
      assert NoQuote(whole) && NoQuote(FracText(frac)) && NoQuote(SignText(sign) + exp);
      assert NoQuote(ExpText(exp, big, sign));
      assert NoQuote(UnsignedText(n));
  }

  lemma EndScalar(k: Kind, raw: string, x: string)
    requires ScalarSpelt(k, raw, x)
    ensures End(ScalarText(k, raw) + x, false) == End(x, false)
  {
    hide End, StringToken, TakenNumeral, NumeralText, Ends;
    match k
    case KString => EndString(raw, x);
    case KNumber =>
      var n :| TakenNumeral(n) && raw == NumeralText(n) && Ends(n, x);
      NumeralUnquoted(n);
      EndSkips(raw, x);
    case _ => EndSkips(raw, x);
  }

  lemma BlankUnquoted(ws: string)
    requires AllBlank(ws)
    ensures NoQuote(ws)
  {
  }

  /** White space and one more character that is no quote. */
  lemma EndBlank(ws: string, c: string, x: string)
    requires AllBlank(ws) && NoQuote(c)
    ensures End(ws + (c + x), false) == End(x, false)
  {
    hide End;
    BlankUnquoted(ws);
    EndSkips(ws, c + x);
    EndSkips(c, x);
  }

  lemma {:induction false} EndText(c: Cst, x: string)
    requires Spelt(c, x)
    ensures End(Text(c) + x, false) == End(x, false)
    decreases c
  {
    hide End, ScalarSpelt, ScalarText, SpeltAll, SpeltPairs;
    match c
    case CScalar(k, raw) => EndScalar(k, raw, x);
    case CArray(items) =>
      assert Text(c) + x == "[" + (ItemsText(items) + x);
      EndSkips("[", ItemsText(items) + x);
      EndItems(items, x);
    case CObject(ms) =>
      assert Text(c) + x == "{" + (MembersText(ms) + x);
      EndSkips("{", MembersText(ms) + x);
      EndMembers(ms, x);
  }

  lemma {:induction false} EndItems(c: CItems, x: string)
    requires SpeltAll(c, x)
    ensures End(ItemsText(c) + x, false) == End(x, false)
    decreases c
  {
    hide End, Spelt, AllBlank, Text;
    match c
    case CEnd(ws) =>
      Assoc(ws, "]", x);
      EndBlank(ws, "]", x);
    case CItem(pre, v, post, comma, more) =>
      var y := post + (Comma(comma) + ItemsText(more));
      var tail := AfterItem(post, comma, more, x);
      Shift(pre, Text(v), y, x);
      BlankUnquoted(pre);
      EndSkips(pre, Text(v) + tail);
      EndText(v, tail);
      Shift(post, Comma(comma), ItemsText(more), x);
      EndBlank(post, Comma(comma), ItemsText(more) + x);
      EndItems(more, x);
  }

  lemma EndKey(bare: bool, key: string, x: string)
    requires if bare then BareWord(key) else StringToken(key)
    ensures End(KeyWord(bare, key) + x, false) == End(x, false)
  {
    hide End, StringToken;
    if bare { EndSkips(key, x); } else { EndString(key, x); }
  }

  lemma {:induction false} EndMembers(c: CMembers, x: string)
    requires SpeltPairs(c, x)
    ensures End(MembersText(c) + x, false) == End(x, false)
    decreases c
  {
    hide End, Spelt, AllBlank, Text, KeyWord, StringToken, BareWord, MembersText, AfterMember;
    match c
    case CClose(ws) =>
      CloseText(ws, x);
      EndBlank(ws, "}", x);
    case CMember(pre, bare, key, mid, pad, v, post, comma, more) =>
      var tail := AfterMember(post, comma, more, x);
      MemberText(c, x);
      BlankUnquoted(pre);
      BlankUnquoted(pad);
      EndSkips(pre, KeyWord(bare, key) + (mid + (":" + (pad + (Text(v) + tail)))));
      EndKey(bare, key, mid + (":" + (pad + (Text(v) + tail))));
      EndBlank(mid, ":", pad + (Text(v) + tail));
      EndSkips(pad, Text(v) + tail);
      EndText(v, tail);
      AfterText(post, comma, more, x);
      EndBlank(post, Comma(comma), MembersText(more) + x);
      EndMembers(more, x);
  }

  lemma CloseText(ws: string, x: string)
    ensures MembersText(CClose(ws)) + x == ws + ("}" + x)
  {
    Assoc(ws, "}", x);
  }

  lemma AfterText(post: string, comma: bool, more: CMembers, x: string)
    ensures AfterMember(post, comma, more, x) == post + (Comma(comma) + (MembersText(more) + x)) && NoQuote(Comma(comma))
  {
    hide MembersText;
    Shift(post, Comma(comma), MembersText(more), x);
  }

  function Front(t: string): string
    requires t != ""
  {
    t[..|t| - 1]
  }

  // ---- A value that was read, with more behind it ------------------------------

  /** What stands behind a value may change as long as it begins with the same character, or prolongs no number. */
  predicate Follows(x: string, y: string) { Stops(y) || (x != "" && y != "" && x[0] == y[0]) }

  lemma ScalarMoves(k: Kind, raw: string, x: string, y: string)
    requires ScalarSpelt(k, raw, x) && Follows(x, y)
    ensures ScalarSpelt(k, raw, y)
  {
    hide StringToken, TakenNumeral, NumeralText;
    if k == KNumber {
      var n :| TakenNumeral(n) && raw == NumeralText(n) && Ends(n, x);
      assert Ends(n, y);
    }
  }

  lemma {:induction false} TextMoves(c: Cst, x: string, y: string)
    requires Spelt(c, x) && Follows(x, y)
    ensures Spelt(c, y)
    decreases c
  {
    hide ScalarSpelt, SpeltAll, SpeltPairs, Follows;
    match c
    case CScalar(k, raw) => ScalarMoves(k, raw, x, y);
    case CArray(items) => ItemsMove(items, x, y);
    case CObject(ms) => MembersMove(ms, x, y);
  }

  lemma SameStart(a: string, b: string, x: string, y: string)
    requires b != ""
    ensures Follows(a + b + x, a + b + y)
  {
    assert (a + b + x)[0] == (a + b)[0] && (a + b + y)[0] == (a + b)[0];
  }

  lemma {:induction false} ItemsMove(c: CItems, x: string, y: string)
    requires SpeltAll(c, x)
    ensures SpeltAll(c, y)
    decreases c
  {
    hide Spelt, Follows, ItemsText, AllBlank;
    if c.CItem? {
      ItemsNonempty(c.more);
      SameStart(c.post, Comma(c.comma) + ItemsText(c.more), x, y);
      TextMoves(c.v, AfterItem(c.post, c.comma, c.more, x), AfterItem(c.post, c.comma, c.more, y));
      ItemsMove(c.more, x, y);
    }
  }

  lemma ItemsNonempty(c: CItems)
    ensures ItemsText(c) != ""
    decreases c
  {
    hide Text;
    if c.CItem? { ItemsNonempty(c.more); }
  }

  lemma {:induction false} MembersMove(c: CMembers, x: string, y: string)
    requires SpeltPairs(c, x)
    ensures SpeltPairs(c, y)
    decreases c
  {
    hide Spelt, Follows, MembersText, AllBlank, StringToken, BareWord;
    if c.CMember? {
      MembersNonempty(c.more);
      SameStart(c.post, Comma(c.comma) + MembersText(c.more), x, y);
      TextMoves(c.v, AfterMember(c.post, c.comma, c.more, x), AfterMember(c.post, c.comma, c.more, y));
      MembersMove(c.more, x, y);
    }
  }

  lemma MembersNonempty(c: CMembers)
    ensures MembersText(c) != ""
    decreases c
  {
    hide Text, KeyWord;
    if c.CMember? { MembersNonempty(c.more); }
  }

  lemma ValueSpelt(t: string) returns (ws: string, c: Cst)
    requires Value(t).Parsed?
    ensures AllBlank(ws) && t == ws + (Text(c) + Value(t).rest) && Spelt(c, Value(t).rest) && Tree(c) == Value(t).value
  {
    hide Value, Spelt, Spells, Text, Tree, AllBlank, AllSpace;
    ws, c := SpeltValue(t);
    BlankIs(ws);
    SpeltIs(c, Value(t).rest);
  }

  lemma TextRead(ws: string, c: Cst, x: string)
    requires AllBlank(ws) && Spelt(c, x)
    ensures Value(ws + (Text(c) + x)) == Parsed(Tree(c), x)
  {
    hide Value, Spelt, Spells, Text, Tree, AllBlank, AllSpace;
    BlankIs(ws);
    SpeltIs(c, x);
    Reads(c, x);
    TextHead(c, x);
    assert (Text(c) + x)[0] == Text(c)[0];
    SpacesBeforeValue(ws, Text(c) + x);
  }

  /** What was read of t when rest was left. */
  function Read(t: string, rest: string): string
    requires |rest| <= |t|
  {
    t[..|t| - |rest|]
  }

  /** A value that was read is read again when what stands behind it changes without touching it. */
  lemma ValueMoves(t: string, y: string)
    requires Value(t).Parsed? && Follows(Value(t).rest, y)
    ensures t == Read(t, Value(t).rest) + Value(t).rest
    ensures Value(Read(t, Value(t).rest) + y) == Parsed(Value(t).value, y)
  {
    hide Value, Spelt, Text, Tree, AllBlank, Follows;
    var rest := Value(t).rest;
    var ws, c := ValueSpelt(t);
    TextMoves(c, rest, y);
    TextRead(ws, c, y);
    Assoc(ws, Text(c), rest);
    Assoc(ws, Text(c), y);
    assert Read(t, rest) == ws + Text(c);
  }

  /** More text behind a value, or one character less. */
  lemma ValueExtends(t: string, z: string)
    requires Value(t).Parsed?
    ensures Value(t).rest != "" || Stops(z) ==> Value(t + z) == Parsed(Value(t).value, Value(t).rest + z)
    ensures Value(t).rest != "" ==> t != "" && Value(Front(t)) == Parsed(Value(t).value, Front(Value(t).rest))
  {
    hide Value, Stops;
    var rest := Value(t).rest;
    if rest != "" || Stops(z) {
      assert rest == "" ==> rest + z == z;
      ValueMoves(t, rest + z);
      Assoc(Read(t, rest), rest, z);
    }
    if rest != "" {
      assert Front(rest) == "" ==> Stops(Front(rest)) by { StopsNothing(); }
      ValueMoves(t, Front(rest));
      assert Front(t) == Read(t, rest) + Front(rest);
    }
  }

  lemma StopsNothing()
    ensures Stops("")
  {
  }

  lemma ValueEnds(t: string)
    requires Value(t).Parsed?
    ensures End(t, false) == End(Value(t).rest, false)
  {
    hide Value, Spelt, Text, Tree, AllBlank, End;
    var ws, c := ValueSpelt(t);
    BlankUnquoted(ws);
    EndSkips(ws, Text(c) + Value(t).rest);
    EndText(c, Value(t).rest);
  }

  // ---- Strings ------------------------------------------------------------------

  predicate EndsInSlash(t: string) { t != "" && t[|t| - 1] == '\\' }

  lemma EndStep(t: string)
    requires t != "" && t[0] != '"' && CharStep(t) > 0
    ensures End(t, true) == End(t[CharStep(t)..], true)
  {
  }

  /** The text breaks off right behind a backslash that opens an escape. */
  predicate StringSevered(t: string)
  {
    EndsInSlash(t) && StringBody(Front(t)) == LexErr(INCOMPLETE) && End(Front(t), true) == Inside
  }

  /** No text behind t makes a string of it. */
  predicate StringDoomed(t: string)
  {
    match StringBody(t)
    case Lexed(_, _) => false
    case LexErr(c) => if c == INCOMPLETE then End(t, true) == Cut(false) else !StringSevered(t)
  }

  lemma StringCode(t: string)
    ensures StringBody(t).LexErr? ==> StringBody(t).code == INVALID || StringBody(t).code == INCOMPLETE
    decreases |t|
  {
    if t != "" && t[0] != '"' && CharStep(t) > 0 { StringCode(t[CharStep(t)..]); }
  }

  lemma StringNext(t: string, z: string)
    requires t != "" && t[0] != '"' && CharStep(t) > 0
    ensures CharStep(t + z) == CharStep(t) && (t + z)[CharStep(t)..] == t[CharStep(t)..] + z
    ensures StringBody(t + z) == Before(t[..CharStep(t)], StringBody(t[CharStep(t)..] + z))
  {
    hide CharStep;
    var n := CharStep(t);
    assert (t + z)[..n] == t[..n] && (t + z)[0] == t[0];
    CharStepLocal(t, t + z);
  }

  lemma SeveredBefore(t: string)
    requires t != "" && t[0] != '"' && CharStep(t) > 0 && StringSevered(t[CharStep(t)..])
    ensures StringSevered(t)
  {
    hide CharStep, End, StringBody;
    var n := CharStep(t);
    var u := Front(t);
    assert u[..n] == t[..n] && u[0] == t[0] && u[n..] == Front(t[n..]);
    CharStepLocal(t, u);
    StringNext(u, "");
    assert u + "" == u && u[n..] + "" == u[n..];
    EndStep(u);
    assert t[n..][|t[n..]| - 1] == t[|t| - 1];
  }

  lemma LoneSlash(t: string)
    requires |t| == 1 && t[0] == '\\'
    ensures !StringDoomed(t)
  {
    assert Front(t) == "";
  }

  lemma BadStep(t: string, z: string)
    requires t != "" && t[0] != '"' && CharStep(t) < 0 && StringDoomed(t)
    ensures CharStep(t + z) < 0
  {
    var u := t + z;
    assert u[0] == t[0];
    if t[0] == '\\' {
      if |t| == 1 {
        LoneSlash(t);
      } else {
        assert u[1..] == t[1..] + z && u[1] == t[1];
        if t[1] == 'u' && |t| < 6 {
          assert !AllHexDigits(t[2..]);
          var i :| 0 <= i < |t[2..]| && !HexDigit(t[2..][i]);
          assert u[2 + i] == t[2..][i];
        } else if t[1] == 'u' {
          assert u[2] == t[2] && u[3] == t[3] && u[4] == t[4] && u[5] == t[5];
        }
      }
    }
  }

  lemma {:induction false} StringDead(t: string, z: string)
    requires StringDoomed(t)
    ensures StringBody(t + z).LexErr?
    decreases |t|
  {
    hide CharStep;
    if t != "" {
      assert (t + z)[0] == t[0];
      var n := CharStep(t);
      if n > 0 {
        EndStep(t);
        if StringSevered(t[n..]) { SeveredBefore(t); }
        StringDead(t[n..], z);
        StringNext(t, z);
      } else {
        BadStep(t, z);
      }
    }
  }

  function Repeat(c: char, n: nat): string { seq(n, _ => c) }

  /** lead, if there is room for it, and what else is missing of the string. */
  lemma {:induction false} StringLive(t: string, lead: string) returns (z: string)
    requires StringBody(t) == LexErr(INCOMPLETE) && End(t, true) != Cut(false) && StringToken(lead)
    ensures z != "" && StringBody(t + z).Lexed? && StringBody(t + z).rest == ""
    ensures End(t, true) == Inside ==> z == lead + "\""
    decreases |t|
  {
    hide CharStep, StringToken;
    if t == "" {
      z := lead + "\"";
      assert t + z == lead + "\"" + "";
      StringIs(t + z, lead, "");
    } else {
      var n := CharStep(t);
      if n > 0 {
        EndStep(t);
        z := StringLive(t[n..], lead);
        StringNext(t, z);
      } else {
        z := PieceLive(t);
      }
    }
  }

  /** What is missing of an escape or of a UTF-8 sequence. */
  lemma PieceMissing(t: string) returns (p: Piece, z: string)
    requires t != "" && t[0] != '"' && CharStep(t) == INCOMPLETE && End(t, true) != Cut(false)
    ensures Taken(p) && PieceText(p) == t + z && End(t, true) != Inside
  {
    if t[0] == '\\' {
      z := Repeat('0', 6 - |t|);
      p := UEscape(t[2..] + z);
      assert PieceText(p) == t + z;
    } else {
      z := Repeat('0', CharLen(t[0]) - |t|);
      p := Utf8(t + z);
    }
  }

  lemma PieceLive(t: string) returns (z: string)
    requires t != "" && t[0] != '"' && CharStep(t) == INCOMPLETE && End(t, true) != Cut(false)
    ensures z != "" && StringBody(t + z).Lexed? && StringBody(t + z).rest == "" && End(t, true) != Inside
  {
    hide CharStep, Taken, PieceText, StringBody, End;
    var p, y := PieceMissing(t);
    PiecesRead([p], "");
    assert [p][1..] == [];
    assert PiecesText([p]) == PieceText(p) + PiecesText([]);
    z := y + "\"";
    assert PiecesText([p]) + "\"" + "" == t + z;
  }

  // ---- Numbers and words -----------------------------------------------------------

  /** l is the result for t: wrong for good, or a digit is missing, and u is the result for t and z. */
  predicate Fails(t: string, l: Lex, z: string, u: Lex)
  {
    l.LexErr? ==>
      && (l.code == INVALID || l.code == INCOMPLETE)
      && (l.code == INVALID ==> u.LexErr?)
      && (l.code == INCOMPLETE && z == "0" ==> u == Lexed(t + z, ""))
  }

  lemma RunFails(hex: bool, t: string, z: string)
    ensures var p := if hex then IsXDigit else IsDigit; Fails(t, Run(p, t), z, Run(p, t + z))
  {
    if t == "" && z == "0" {
      assert t + z == "0" + "";
      if hex { HexDigitsRead("0", ""); } else { DigitsRead("0", ""); }
    }
  }

  lemma DigitsExtend(t: string, z: string)
    requires Digits(t).Lexed? && Digits(t).rest != ""
    ensures Digits(t + z) == Lexed(Digits(t).raw, Digits(t).rest + z)
  {
    hide Run, AllDigits;
    var d, rest := Digits(t).raw, Digits(t).rest;
    DigitsOf(t);
    DigitsCut(t);
    assert t + z == d + (rest + z) && (rest + z)[0] == rest[0];
    DigitsRead(d, rest + z);
  }

  lemma FractionFails(t: string, z: string)
    ensures Fails(t, Fraction(t), z, Fraction(t + z))
    ensures Fraction(t).Lexed? && Fraction(t).rest != "" ==>
      Fraction(t + z) == Lexed(Fraction(t).raw, Fraction(t).rest + z)
  {
    hide Run;
    if t != "" {
      assert (t + z)[0] == t[0];
      if t[0] == '.' {
        assert (t + z)[1..] == t[1..] + z && "." + (t[1..] + z) == t + z;
        RunFails(false, t[1..], z);
        if Digits(t[1..]).Lexed? && Digits(t[1..]).rest != "" { DigitsExtend(t[1..], z); }
      }
    }
  }

  lemma NoDigits()
    ensures Digits("") == LexErr(INCOMPLETE)
  {
  }

  lemma SignedFails(t: string, z: string)
    ensures Fails(t, SignedDigits(t), z, SignedDigits(t + z))
  {
    hide Run;
    RunFails(false, t, z);
    if t != "" {
      assert (t + z)[0] == t[0];
      if t[0] == '+' || t[0] == '-' {
        assert (t + z)[1..] == t[1..] + z && (t + z)[..1] == t[..1] && t[..1] + (t[1..] + z) == t + z;
        RunFails(false, t[1..], z);
      }
    } else {
      assert t + z == z;
      NoDigits();
    }
  }

  lemma ExponentFails(t: string, z: string)
    ensures Fails(t, Exponent(t), z, Exponent(t + z))
  {
    hide SignedDigits;
    if t != "" {
      assert (t + z)[0] == t[0];
      if t[0] == 'e' || t[0] == 'E' {
        assert (t + z)[1..] == t[1..] + z && (t + z)[..1] == t[..1] && t[..1] + (t[1..] + z) == t + z;
        SignedFails(t[1..], z);
      }
    }
  }

  lemma NoExponent()
    ensures Exponent("") == Lexed("", "") && Fraction("") == Lexed("", "")
  {
  }

  lemma TailFails(t: string, z: string)
    ensures Fails(t, Tail(t), z, Tail(t + z)) && (Tail(t).LexErr? ==> t != "")
  {
    hide Fraction, Exponent;
    NoExponent();
    FractionFails(t, z);
    var f := Fraction(t);
    if f.Lexed? {
      ExponentFails(f.rest, z);
      if Exponent(f.rest).LexErr? { assert f.raw + (f.rest + z) == t + z; }
    } else {
      assert t + z + "" == t + z;
    }
  }

  lemma UnprefixedFails(t: string, z: string)
    ensures Fails(t, Unprefixed(t), z, Unprefixed(t + z))
    ensures Unprefixed(t).LexErr? && |t| == 1 ==> t[0] != '0'
    ensures t == "" ==> Unprefixed(t) == LexErr(INCOMPLETE)
  {
    hide Tail;
    RunFails(false, t, z);
    NoTail();
    var d := Digits(t);
    if d.Lexed? {
      TailFails(d.rest, z);
      if Tail(d.rest).LexErr? {
        DigitsCut(t);
        DigitsExtend(t, z);
        assert d.raw + (d.rest + z) == t + z;
      }
    } else {
      assert t + z + "" == t + z;
    }
  }

  lemma NoTail()
    ensures Tail("") == Lexed("", "")
  {
  }

  lemma NumberFails(t: string, z: string)
    ensures Fails(t, Number(t), z, Number(t + z))
  {
    hide Unsigned;
    UnsignedFails(t, z);
    if t != "" {
      assert (t + z)[0] == t[0];
      if t[0] == '-' {
        assert (t + z)[1..] == t[1..] + z && "-" + (t[1..] + z) == t + z;
        UnsignedFails(t[1..], z);
      }
    } else {
      assert t + z == z;
    }
  }

  lemma UnsignedFails(t: string, z: string)
    ensures Fails(t, Unsigned(t), z, Unsigned(t + z)) && (t == "" ==> Unsigned(t) == LexErr(INCOMPLETE))
  {
    hide Unprefixed, Run;
    UnprefixedFails(t, z);
    if |t| >= 1 { assert (t + z)[0] == t[0]; }
    if |t| >= 2 { assert (t + z)[1] == t[1]; }
    if StartsHex(t) {
      assert (t + z)[2..] == t[2..] + z && "0x" + (t[2..] + z) == t + z;
      RunFails(true, t[2..], z);
    } else if t == "" {
      assert t + z == z;
      assert z == "0" ==> !StartsHex(z);
    }
  }

  lemma {:induction false} WordDead(t: string, w: string, z: string)
    requires Expect(t, w) == LexErr(INVALID)
    ensures Expect(t + z, w).LexErr?
    decreases |w|
  {
    assert (t + z)[0] == t[0] && (t + z)[1..] == t[1..] + z;
    if t[0] == w[0] { WordDead(t[1..], w[1..], z); }
  }

  lemma {:induction false} WordLive(t: string, w: string) returns (z: string)
    requires Expect(t, w) == LexErr(INCOMPLETE)
    ensures z != "" && t + z == w
    decreases |w|
  {
    if t == "" {
      z := w;
    } else {
      z := WordLive(t[1..], w[1..]);
      assert t + z == [t[0]] + (t[1..] + z);
    }
  }

  lemma WordCode(t: string, w: string)
    ensures Expect(t, w).LexErr? ==> Expect(t, w).code == INVALID || Expect(t, w).code == INCOMPLETE
    decreases |w|
  {
    if w != "" && t != "" && t[0] == w[0] { WordCode(t[1..], w[1..]); }
  }

  // ---- White space, commas and keys ----------------------------------------------------

  lemma SkipExtends(t: string, z: string)
    ensures SkipWs(t) != "" ==> SkipWs(t + z) == SkipWs(t) + z && SkipWs(Front(t)) == Front(SkipWs(t))
    ensures SkipWs(t) == "" ==> SkipWs(t + z) == SkipWs(z)
    ensures End(t, false) == End(SkipWs(t), false)
  {
    hide SkipWs, End, AllSpace;
    var u := SkipWs(t);
    var ws := SpeltSpace(t);
    EndBlanks(ws, u);
    Assoc(ws, u, z);
    if u == "" {
      assert u + z == z;
      SkipMore(ws, z);
    } else {
      SkipBlanks(ws, u, z);
      assert Front(t) == ws + Front(u);
    }
  }

  lemma EndBlanks(ws: string, u: string)
    requires AllSpace(ws)
    ensures End(ws + u, false) == End(u, false)
  {
    hide End, AllSpace;
    BlankIs(ws);
    BlankUnquoted(ws);
    EndSkips(ws, u);
  }

  /** White space before a token is skipped whatever the token goes on with. */
  lemma SkipBlanks(ws: string, u: string, z: string)
    requires AllSpace(ws) && u != "" && !IsSpace(u[0])
    ensures SkipWs(ws + (u + z)) == u + z && SkipWs(ws + Front(u)) == Front(u)
  {
    hide SkipWs, AllSpace;
    assert (u + z)[0] == u[0];
    SkipSpaces(ws, u + z);
    assert Front(u) != "" ==> Front(u)[0] == u[0];
    SkipSpaces(ws, Front(u));
  }

  function AfterComma(u: string): string { if Starts(',', u) then u[1..] else u }

  lemma AfterCommaExtends(u: string, z: string)
    requires u != ""
    ensures AfterComma(u) != "" ==> AfterComma(u + z) == AfterComma(u) + z && AfterComma(Front(u)) == Front(AfterComma(u))
    ensures AfterComma(u) == "" ==> AfterComma(u + z) == z
    ensures End(u, false) == End(AfterComma(u), false)
  {
    assert (u + z)[0] == u[0] && (u + z)[1..] == u[1..] + z;
    if |u| > 1 { assert Front(u)[0] == u[0] && Front(u)[1..] == Front(u[1..]); }
  }

  /** A closing bracket. */
  predicate Closes(c: char) { c == ']' || c == '}' }

  lemma CommaExtends(t: string, z: string)
    ensures SkipComma(t) != "" ==>
      t != "" && SkipComma(t + z) == SkipComma(t) + z && SkipComma(Front(t)) == Front(SkipComma(t))
    ensures SkipComma(t) == "" && z != "" && Closes(z[0]) ==> SkipComma(t + z) == z
    ensures End(t, false) == End(SkipComma(t), false)
  {
    CommaIs(t);
    CommaIs(t + z);
    SkipExtends(t, z);
    if t != "" { CommaIs(Front(t)); }
    hide SkipWs, SkipComma, End, AfterComma;
    var u := SkipWs(t);
    if u != "" { AfterCommaExtends(u, z); } else { NoComma(z); }
  }

  lemma CommaIs(t: string)
    ensures SkipComma(t) == AfterComma(SkipWs(t)) && (t == "" ==> SkipWs(t) == "")
  {
    hide SkipWs;
  }

  lemma NoComma(z: string)
    ensures AfterComma("") == "" && (z != "" && Closes(z[0]) ==> AfterComma(SkipWs(z)) == z)
  {
    hide SkipWs;
    if z != "" && Closes(z[0]) { AtTokenSkips(z); }
  }

  lemma KeyExtends(t: string, z: string)
    requires Key(t).Lexed?
    ensures Key(t).rest != "" || (z != "" && !IsWord(z[0])) ==> Key(t + z) == Lexed(Key(t).raw, Key(t).rest + z)
    ensures End(t, false) == End(Key(t).rest, false)
  {
    hide End, StringBody, Run;
    var key, rest := Key(t).raw, Key(t).rest;
    var bare := SpeltKeyWord(t);
    KeyIs(bare, key);
    EndKey(bare, key, rest);
    Assoc(KeyWord(bare, key), rest, z);
    if bare && t[0] != '"' {
      BareRest(t);
      if rest != "" { assert (rest + z)[0] == rest[0]; } else { assert rest + z == z; }
      BareReads(key, rest + z);
    } else {
      StringReads(key, rest + z);
    }
  }

  lemma BareRest(t: string)
    requires Key(t).Lexed? && t[0] != '"'
    ensures Key(t).rest != "" ==> !IsWord(Key(t).rest[0])
  {
    assert forall n :: 0 <= n < |t| ==> t[n..][0] == t[n];
  }

  lemma SpacesBeforeKey(pre: string, s: string)
    requires AllSpace(pre) && AtToken(s)
    ensures KeyColon(pre + s) == KeyColon(s)
  {
    hide SkipWs, Key, AllSpace;
    SkipSpaces(pre, s);
    AtTokenSkips(s);
  }

  /** A key and its colon are read again whatever stands behind them. */
  lemma KeyColonMoves(t: string, y: string)
    requires KeyColon(t).Lexed?
    ensures t == Read(t, KeyColon(t).rest) + KeyColon(t).rest
    ensures KeyColon(Read(t, KeyColon(t).rest) + y) == Lexed(KeyColon(t).raw, y)
  {
    hide KeyColon, KeyWord, Token, BareKey, AllSpace;
    var key, rest := KeyColon(t).raw, KeyColon(t).rest;
    var pre, bare, mid := SpeltKey(t);
    KeyReads(bare, key, mid, y);
    var k := KeyWord(bare, key);
    var a := pre + (k + (mid + ":"));
    Colons(pre, k, mid, rest);
    Colons(pre, k, mid, y);
    assert Read(t, rest) == a;
    assert (k + (mid + (":" + y)))[0] == k[0];
    SpacesBeforeKey(pre, k + (mid + (":" + y)));
  }

  lemma Colons(pre: string, k: string, mid: string, y: string)
    ensures pre + (k + (mid + ":")) + y == pre + (k + (mid + (":" + y)))
  {
    Assoc(mid, ":", y);
    Assoc(k, mid + ":", y);
    Assoc(pre, k + (mid + ":"), y);
  }

  lemma KeyColonEnds(t: string)
    requires KeyColon(t).Lexed?
    ensures End(t, false) == End(KeyColon(t).rest, false)
  {
    hide KeyColon, End, KeyWord, Token, StringToken, BareKey, BareWord, AllSpace, AllBlank;
    var key, rest := KeyColon(t).raw, KeyColon(t).rest;
    var pre, bare, mid := SpeltKey(t);
    BlankIs(mid);
    KeyIs(bare, key);
    EndBlanks(pre, KeyWord(bare, key) + (mid + (":" + rest)));
    EndKey(bare, key, mid + (":" + rest));
    EndBlank(mid, ":", rest);
  }

  lemma KeyColonExtends(t: string, z: string)
    requires KeyColon(t).Lexed?
    ensures KeyColon(t + z) == Lexed(KeyColon(t).raw, KeyColon(t).rest + z)
    ensures KeyColon(t).rest != "" ==> t != "" && KeyColon(Front(t)) == Lexed(KeyColon(t).raw, Front(KeyColon(t).rest))
  {
    hide KeyColon, End;
    var rest := KeyColon(t).rest;
    KeyColonMoves(t, rest + z);
    Assoc(Read(t, rest), rest, z);
    if rest != "" {
      KeyColonMoves(t, Front(rest));
      assert Front(t) == Read(t, rest) + Front(rest);
    }
  }

  predicate KeySevered(t: string)
  {
    EndsInSlash(t) && KeyColon(Front(t)) == LexErr(INCOMPLETE) && End(Front(t), false) == Inside
  }

  predicate KeyDoomed(t: string)
  {
    match KeyColon(t)
    case Lexed(_, _) => false
    case LexErr(c) => if c == INCOMPLETE then End(t, false) == Cut(false) else !KeySevered(t)
  }

  lemma EndQuote(t: string)
    requires Starts('"', t)
    ensures End(t, false) == End(t[1..], true)
  {
  }

  lemma KeySeveredBefore(t: string)
    requires Starts('"', t) && StringSevered(t[1..])
    ensures KeySevered(t)
  {
    hide End, StringBody, SkipWs;
    var u := Front(t);
    assert u[0] == '"' && u[1..] == Front(t[1..]);
    AtTokenSkips(u);
    EndQuote(u);
    assert t[1..][|t[1..]| - 1] == t[|t| - 1];
  }

  /** What becomes of a key: a colon must follow. */
  function Colon(l: Lex): Lex
  {
    match l
    case LexErr(c) => LexErr(c)
    case Lexed(key, rest) =>
      var u := SkipWs(rest);
      if Starts(':', u) then Lexed(key, u[1..]) else LexErr(Unexpected(u))
  }

  lemma KeyHere(t: string)
    requires AtToken(t)
    ensures KeyColon(t) == Colon(Key(t))
  {
    hide SkipWs, Key;
    AtTokenSkips(t);
  }

  lemma BareLexed(t: string)
    requires t != "" && IsAlpha(t[0])
    ensures Key(t).Lexed?
  {
  }

  lemma KeyNothing()
    ensures Key("") == LexErr(INCOMPLETE) && End("", false) == Outside && End("", true) == Inside
  {
  }

  lemma KeyDead(t: string, z: string)
    requires KeyDoomed(t) && AtToken(t)
    ensures t != "" && KeyColon(t + z).LexErr?
  {
    hide SkipWs, End, StringBody, Run, KeyColon;
    KeyHere(t);
    KeyNothing();
    assert t != "";
    assert (t + z)[0] == t[0];
    KeyHere(t + z);
    if IsAlpha(t[0]) { BareLexed(t); }
    if Key(t).Lexed? {
      KeyExtends(t, z);
      SkipExtends(Key(t).rest, z);
      var v := SkipWs(Key(t).rest);
      assert v != "" ==> (v + z)[0] == v[0];
    } else if t[0] == '"' {
      EndQuote(t);
      if StringSevered(t[1..]) { KeySeveredBefore(t); }
      StringDead(t[1..], z);
      assert (t + z)[1..] == t[1..] + z;
    }
  }

  ghost predicate KeyDone(t: string, z: string)
  {
    z != "" && forall x :: KeyColon(t + (z + x)).Lexed? && KeyColon(t + (z + x)).rest == x
  }

  /** z begins with lead when t ends inside a string. */
  predicate Leads(t: string, lead: string, z: string)
  {
    End(t, false) == Inside ==> lead <= z
  }

  /** What an unfinished pair lacks: its colon, or the rest of its key. */
  lemma KeyCases(t: string)
    requires t != "" && AtToken(t) && KeyColon(t) == LexErr(INCOMPLETE)
    ensures if Key(t).Lexed? then SkipWs(Key(t).rest) == "" && End(t, false) == Outside
            else t[0] == '"' && StringBody(t[1..]) == LexErr(INCOMPLETE)
  {
    hide SkipWs, End, StringBody, Run, KeyColon;
    KeyHere(t);
    if IsAlpha(t[0]) { BareLexed(t); }
    if Key(t).Lexed? {
      KeyNothing();
      KeyExtends(t, "");
      SkipExtends(Key(t).rest, "");
    }
  }

  lemma KeyLive(t: string, lead: string) returns (z: string)
    requires t != "" && AtToken(t) && KeyColon(t) == LexErr(INCOMPLETE) && End(t, false) != Cut(false) && StringToken(lead)
    ensures KeyDone(t, z) && Leads(t, lead, z)
  {
    hide SkipWs, End, StringBody, Key, KeyColon, StringToken;
    KeyCases(t);
    if Key(t).Lexed? {
      z := ":";
      forall x ensures KeyColon(t + (z + x)).Lexed? && KeyColon(t + (z + x)).rest == x { ColonLive(t, x); }
    } else {
      EndQuote(t);
      var s := StringLive(t[1..], lead);
      z := s + ":";
      forall x ensures KeyColon(t + (z + x)).Lexed? && KeyColon(t + (z + x)).rest == x { QuoteLive(t, s, x); }
      assert lead + "\"" == s ==> lead <= z;
    }
  }

  lemma ColonLive(t: string, x: string)
    requires t != "" && AtToken(t) && Key(t).Lexed? && SkipWs(Key(t).rest) == ""
    ensures KeyColon(t + (":" + x)) == Lexed(Key(t).raw, x)
  {
    hide SkipWs, End, Key, KeyColon;
    var z := ":" + x;
    assert (t + z)[0] == t[0];
    KeyHere(t + z);
    assert z[0] == ':';
    KeyExtends(t, z);
    ColonThere(Key(t).rest, x);
  }

  lemma ColonThere(ws: string, x: string)
    requires SkipWs(ws) == ""
    ensures SkipWs(ws + (":" + x)) == ":" + x && (":" + x)[1..] == x
  {
    hide SkipWs, End;
    SkipExtends(ws, ":" + x);
    AtTokenSkips(":" + x);
  }

  lemma QuoteLive(t: string, s: string, x: string)
    requires Starts('"', t) && StringBody(t[1..] + s).Lexed? && StringBody(t[1..] + s).rest == ""
    ensures KeyColon(t + (s + ":" + x)).Lexed? && KeyColon(t + (s + ":" + x)).rest == x
  {
    hide SkipWs, StringBody, KeyColon;
    var u, y := t[1..] + s, ":" + x;
    StringLocal(u, y);
    StringCut(u);
    assert u == StringBody(u).raw + "\"" + "" == StringBody(u).raw + "\"";
    var v := t + (s + ":" + x);
    assert v[0] == '"' && v[1..] == u + y;
    KeyHere(v);
    AtTokenSkips(y);
    assert y[1..] == x;
  }

  // ---- Scalars ----------------------------------------------------------------------------

  predicate ScalarSevered(u: string)
  {
    EndsInSlash(u) && |u| > 1 && ScalarOf(Front(u)) == Err(INCOMPLETE) && End(Front(u), false) == Inside
  }

  predicate ScalarDoomed(u: string)
    requires u != ""
  {
    match ScalarOf(u)
    case Parsed(_, _) => false
    case Err(c) => if c == INCOMPLETE then End(u, false) == Cut(false) else !ScalarSevered(u)
  }

  lemma EndUnquoted(u: string)
    requires NoQuote(u)
    ensures End(u, false) == Outside
  {
    EndSkips(u, "");
    assert u + "" == u;
  }

  lemma NumberUnquoted(u: string)
    requires Number(u) == LexErr(INCOMPLETE)
    ensures End(u, false) == Outside
  {
    hide Number, End, TakenNumeral;
    NumberFails(u, "0");
    var n := NumeralOf(u + "0");
    NumeralUnquoted(n);
    assert forall i :: 0 <= i < |u| ==> u[i] == (u + "0")[i];
    EndUnquoted(u);
  }

  lemma WordUnquoted(u: string, w: string)
    requires Expect(u, w) == LexErr(INCOMPLETE) && NoQuote(w)
    ensures End(u, false) == Outside
  {
    hide Expect, End;
    var z := WordLive(u, w);
    assert forall i :: 0 <= i < |u| ==> u[i] == (u + z)[i];
    EndUnquoted(u);
  }

  lemma ScalarSeveredBefore(u: string)
    requires Starts('"', u) && StringSevered(u[1..])
    ensures ScalarSevered(u)
  {
    hide End, StringBody;
    var f := Front(u);
    assert f[0] == '"' && f[1..] == Front(u[1..]);
    EndQuote(f);
    assert u[1..][|u[1..]| - 1] == u[|u| - 1];
  }

  lemma ScalarDead(u: string, z: string)
    requires u != "" && ScalarDoomed(u)
    ensures ScalarOf(u + z).Err?
  {
    hide End, StringBody, Number, Expect;
    assert (u + z)[0] == u[0];
    if u[0] == '"' {
      EndQuote(u);
      if StringSevered(u[1..]) { ScalarSeveredBefore(u); }
      StringDead(u[1..], z);
      assert (u + z)[1..] == u[1..] + z;
    } else if StartsNumber(u[0]) {
      NumberFails(u, z);
      if ScalarOf(u).code == INCOMPLETE { NumberUnquoted(u); }
    } else if u[0] == 'n' || u[0] == 't' || u[0] == 'f' {
      var w := if u[0] == 'n' then "null" else if u[0] == 't' then "true" else "false";
      WordCode(u, w);
      if Expect(u, w) == LexErr(INVALID) { WordDead(u, w, z); } else { WordUnquoted(u, w); }
    }
  }

  ghost predicate ScalarDone(u: string, z: string)
    requires u != ""
  {
    z != "" && forall x :: Stops(x) ==> ScalarOf(u + (z + x)).Parsed? && ScalarOf(u + (z + x)).rest == x
  }

  lemma ScalarLive(u: string, lead: string) returns (z: string)
    requires u != "" && ScalarOf(u) == Err(INCOMPLETE) && End(u, false) != Cut(false) && StringToken(lead)
    ensures ScalarDone(u, z) && Leads(u, lead, z)
  {
    hide End, StringBody, Number, Expect, ScalarOf, StringToken;
    ScalarCases(u);
    if u[0] == '"' {
      EndQuote(u);
      z := StringLive(u[1..], lead);
      forall x ensures ScalarOf(u + (z + x)).Parsed? && ScalarOf(u + (z + x)).rest == x { StringDone(u, z, x); }
    } else if StartsNumber(u[0]) {
      NumberUnquoted(u);
      z := "0";
      forall x | Stops(x) ensures ScalarOf(u + (z + x)).Parsed? && ScalarOf(u + (z + x)).rest == x { NumberDone(u, x); }
    } else {
      var k := if u[0] == 'n' then KNull else if u[0] == 't' then KTrue else KFalse;
      WordUnquoted(u, Word(k));
      z := WordLive(u, Word(k));
      forall x ensures ScalarOf(u + (z + x)).Parsed? && ScalarOf(u + (z + x)).rest == x {
        WordReads(k, x);
        Assoc(u, z, x);
      }
    }
  }

  /** Which rule an unfinished scalar was read by. */
  lemma ScalarCases(u: string)
    requires u != "" && ScalarOf(u) == Err(INCOMPLETE)
    ensures if u[0] == '"' then StringBody(u[1..]) == LexErr(INCOMPLETE)
      else if StartsNumber(u[0]) then Number(u) == LexErr(INCOMPLETE)
      else if u[0] == 'n' then Expect(u, "null") == LexErr(INCOMPLETE)
      else if u[0] == 't' then Expect(u, "true") == LexErr(INCOMPLETE)
      else u[0] == 'f' && Expect(u, "false") == LexErr(INCOMPLETE)
  {
    hide StringBody, Number, Expect;
  }

  lemma StringDone(u: string, z: string, x: string)
    requires Starts('"', u) && StringBody(u[1..] + z).Lexed? && StringBody(u[1..] + z).rest == ""
    ensures ScalarOf(u + (z + x)).Parsed? && ScalarOf(u + (z + x)).rest == x
  {
    hide StringBody, Number, Expect;
    var s := u[1..] + z;
    StringLocal(s, x);
    StringCut(s);
    assert s == StringBody(s).raw + "\"" + "" == StringBody(s).raw + "\"";
    var v := u + (z + x);
    assert v[0] == '"' && v[1..] == s + x;
  }

  lemma NumberDone(u: string, x: string)
    requires u != "" && StartsNumber(u[0]) && Number(u) == LexErr(INCOMPLETE) && Stops(x)
    ensures ScalarOf(u + ("0" + x)).Parsed? && ScalarOf(u + ("0" + x)).rest == x
  {
    hide StringBody, Number, Expect;
    NumberFails(u, "0");
    NumberLocal(u + "0", x);
    Assoc(u, "0", x);
    assert (u + "0" + x)[0] == u[0];
  }

  // ---- Values -------------------------------------------------------------------------------

  /** The text breaks off right behind a backslash that opens an escape in a string. */
  predicate Severed(t: string)
  {
    EndsInSlash(t) && Value(Front(t)) == Err(INCOMPLETE) && End(Front(t), false) == Inside
  }
  predicate ItemsSevered(t: string)
  {
    EndsInSlash(t) && ItemsOf(Front(t)) == Err(INCOMPLETE) && End(Front(t), false) == Inside
  }
  predicate MembersSevered(t: string)
  {
    EndsInSlash(t) && MembersOf(Front(t)) == Err(INCOMPLETE) && End(Front(t), false) == Inside
  }

  /** No text behind t makes a value of it. */
  predicate Doomed(t: string)
  {
    match Value(t)
    case Parsed(_, _) => false
    case Err(c) => if c == INCOMPLETE then End(t, false) == Cut(false) else !Severed(t)
  }
  predicate ItemsDoomed(t: string)
  {
    match ItemsOf(t)
    case Parsed(_, _) => false
    case Err(c) => if c == INCOMPLETE then End(t, false) == Cut(false) else !ItemsSevered(t)
  }
  predicate MembersDoomed(t: string)
  {
    match MembersOf(t)
    case Parsed(_, _) => false
    case Err(c) => if c == INCOMPLETE then End(t, false) == Cut(false) else !MembersSevered(t)
  }

  /** p fails where and as q fails, and ends where q ends. */
  predicate SameEnd<A, B>(p: Parsed<A>, q: Parsed<B>)
  {
    match q
    case Err(c) => p == Err(c)
    case Parsed(_, rest) => p.Parsed? && p.rest == rest
  }

  lemma ValueCases(t: string)
    ensures var u := SkipWs(t);
      && (u == "" ==> Value(t) == Err(INCOMPLETE))
      && (Starts('{', u) ==> SameEnd(Value(t), MembersOf(u[1..])))
      && (Starts('[', u) ==> SameEnd(Value(t), ItemsOf(u[1..])))
      && (u != "" && u[0] != '{' && u[0] != '[' ==> Value(t) == ScalarOf(u))
  {
    hide SkipWs, ScalarOf, ItemsOf, MembersOf;
    assert Value(t) == ValueAt(SkipWs(t));
  }

  lemma ItemsCases(t: string)
    ensures var u := SkipWs(t);
      && (Starts(']', u) ==> ItemsOf(t) == Parsed(NoItems, u[1..]))
      && (!Starts(']', u) && Value(u).Err? ==> ItemsOf(t) == Err(Value(u).code))
      && (!Starts(']', u) && Value(u).Parsed? ==> SameEnd(ItemsOf(t), ItemsOf(SkipComma(Value(u).rest))))
  {
    hide SkipWs, SkipComma, Value;
    assert ItemsOf(t) == ItemsAt(SkipWs(t));
  }

  lemma MembersCases(t: string)
    ensures var u := SkipWs(t);
      && (Starts('}', u) ==> MembersOf(t) == Parsed(NoMembers, u[1..]))
      && (!Starts('}', u) && KeyColon(u).LexErr? ==> MembersOf(t) == Err(KeyColon(u).code))
      && (!Starts('}', u) && KeyColon(u).Lexed? ==>
            var v := Value(KeyColon(u).rest);
            if v.Err? then MembersOf(t) == Err(v.code) else SameEnd(MembersOf(t), MembersOf(SkipComma(v.rest))))
  {
    hide SkipWs, SkipComma, Value, KeyColon;
    assert MembersOf(t) == MembersAt(SkipWs(t));
  }

  lemma EndOne(t: string)
    requires t != "" && t[0] != '"'
    ensures End(t, false) == End(t[1..], false)
  {
  }

  /** s is what is left of t, and t breaks off where s does. */
  predicate Tails(s: string, t: string) { s != "" && |s| <= |t| && s == t[|t| - |s|..] }

  lemma TailsSlash(s: string, t: string)
    requires Tails(s, t)
    ensures EndsInSlash(s) == EndsInSlash(t)
  {
    assert s[|s| - 1] == t[|t| - 1];
  }

  lemma FrontTail(u: string)
    requires |u| > 1
    ensures Front(u) != "" && Front(u)[0] == u[0] && Front(u)[1..] == Front(u[1..]) && Tails(u[1..], u)
  {
  }

  lemma SkipTails(t: string)
    requires SkipWs(t) != ""
    ensures Tails(SkipWs(t), t)
  {
    hide SkipWs;
  }

  lemma ValueSevered(t: string)
    requires var u := SkipWs(t);
      u != "" && (if u[0] == '{' then MembersSevered(u[1..]) else if u[0] == '[' then ItemsSevered(u[1..]) else ScalarSevered(u))
    ensures Severed(t)
  {
    hide Value, SkipWs, End, ItemsOf, MembersOf, ScalarOf, EndsInSlash;
    var u := SkipWs(t);
    SlashText(u);
    assert |u| > 1 by { if |u| == 1 { assert u[1..] == ""; SlashText(""); } }
    SkipExtends(t, "");
    SkipExtends(Front(t), "");
    SkipTails(t);
    TailsSlash(u, t);
    FrontTail(u);
    TailsSlash(u[1..], u);
    ValueCases(Front(t));
    if u[0] == '{' || u[0] == '[' { EndOne(Front(u)); }
  }

  lemma SlashText(t: string)
    ensures EndsInSlash(t) ==> t != ""
  {
  }

  lemma {:induction false} ValueDead(t: string, z: string)
    requires Doomed(t)
    ensures Value(t + z).Err?
    decreases |t|, 1
  {
    hide Value, SkipWs, End, ItemsOf, MembersOf, ScalarOf, Severed, ItemsSevered, MembersSevered, ScalarSevered;
    var u := SkipWs(t);
    ValueCases(t);
    ValueCases(t + z);
    SkipExtends(t, z);
    KeyNothing();
    assert u != "";
    assert (u + z)[0] == u[0] && (u + z)[1..] == u[1..] + z;
    if u[0] == '{' {
      EndOne(u);
      if MembersSevered(u[1..]) { ValueSevered(t); }
      MembersDead(u[1..], z);
    } else if u[0] == '[' {
      EndOne(u);
      if ItemsSevered(u[1..]) { ValueSevered(t); }
      ItemsDead(u[1..], z);
    } else {
      if ScalarSevered(u) { ValueSevered(t); }
      ScalarDead(u, z);
    }
  }

  lemma ItemsSeveredFirst(t: string)
    requires var u := SkipWs(t); u != "" && u[0] != ']' && Severed(u)
    ensures ItemsSevered(t)
  {
    hide SkipWs, End, Value, ItemsOf, EndsInSlash;
    var u := SkipWs(t);
    SlashText(u);
    SkipExtends(t, "");
    SkipExtends(Front(t), "");
    SkipTails(t);
    TailsSlash(u, t);
    ItemsCases(Front(t));
    assert Front(u) != "" ==> Front(u)[0] == u[0];
  }

  lemma CommaTails(t: string)
    requires SkipComma(t) != ""
    ensures Tails(SkipComma(t), t)
  {
    hide SkipWs;
  }

  lemma ItemsSeveredLater(t: string)
    requires var u := SkipWs(t); u != "" && u[0] != ']' && Value(u).Parsed? && ItemsSevered(SkipComma(Value(u).rest))
    ensures ItemsSevered(t)
  {
    hide SkipWs, SkipComma, End, Value, ItemsOf, EndsInSlash;
    var u := SkipWs(t);
    var rest := Value(u).rest;
    var r := SkipComma(rest);
    SlashText(r);
    SkipExtends(t, "");
    SkipExtends(Front(t), "");
    SkipTails(t);
    TailsSlash(u, t);
    CommaExtends(rest, "");
    CommaExtends(Front(rest), "");
    CommaTails(rest);
    TailsSlash(r, rest);
    ValueExtends(u, "");
    ValueTails(u);
    TailsSlash(rest, u);
    ValueEnds(Front(u));
    NotBlank(Front(u));
    ItemsCases(Front(t));
    assert Front(u)[0] == u[0];
  }

  lemma ValueTails(u: string)
    requires Value(u).Parsed? && Value(u).rest != ""
    ensures Tails(Value(u).rest, u)
  {
    hide Value;
  }

  lemma NotBlank(t: string)
    requires Value(t).Parsed?
    ensures t != ""
  {
  }

  lemma {:induction false} ItemsDead(t: string, z: string)
    requires ItemsDoomed(t)
    ensures ItemsOf(t + z).Err?
    decreases |t|, 2
  {
    hide SkipWs, SkipComma, End, Value, ItemsOf, Severed, ItemsSevered;
    var u := SkipWs(t);
    ItemsCases(t);
    ItemsCases(t + z);
    SkipExtends(t, z);
    KeyNothing();
    NoValue();
    assert u != "";
    assert (u + z)[0] == u[0];
    if Value(u).Err? {
      if Severed(u) { ItemsSeveredFirst(t); }
      ValueDead(u, z);
    } else {
      var rest := Value(u).rest;
      var r := SkipComma(rest);
      ValueEnds(u);
      CommaExtends(rest, z);
      NoItemsThere();
      assert r != "";
      NoCommaThere();
      ValueExtends(u, z);
      if ItemsSevered(r) { ItemsSeveredLater(t); }
      ItemsDead(r, z);
    }
  }

  lemma NoValue()
    ensures Value("") == Err(INCOMPLETE)
  {
    hide Value, SkipWs;
    AtTokenSkips("");
    ValueCases("");
  }

  lemma NoItemsThere()
    ensures ItemsOf("") == Err(INCOMPLETE) && MembersOf("") == Err(INCOMPLETE)
  {
    hide Value, KeyColon, ItemsOf, MembersOf, SkipWs;
    AtTokenSkips("");
    NoValue();
    ItemsCases("");
    MembersCases("");
    KeyHere("");
    KeyNothing();
  }

  lemma MembersSeveredKey(t: string)
    requires var u := SkipWs(t); u != "" && u[0] != '}' && KeySevered(u)
    ensures MembersSevered(t)
  {
    hide SkipWs, End, KeyColon, MembersOf, EndsInSlash;
    var u := SkipWs(t);
    SlashText(u);
    SkipExtends(t, "");
    SkipExtends(Front(t), "");
    SkipTails(t);
    TailsSlash(u, t);
    MembersCases(Front(t));
    assert Front(u) != "" ==> Front(u)[0] == u[0];
  }

  lemma MembersSeveredValue(t: string)
    requires var u := SkipWs(t); u != "" && u[0] != '}' && KeyColon(u).Lexed? && Severed(KeyColon(u).rest)
    ensures MembersSevered(t)
  {
    hide SkipWs, End, KeyColon, Value, MembersOf, EndsInSlash;
    var u := SkipWs(t);
    var after := KeyColon(u).rest;
    SlashText(after);
    FrontMembers(t);
    KeyTails(u);
    TailsSlash(after, u);
    KeyColonExtends(u, "");
    KeyColonEnds(Front(u));
    KeyNotBlank(Front(u));
    MembersCases(Front(t));
    assert Front(u)[0] == u[0];
  }

  /** Taking the last character away, before and behind the white space. */
  lemma FrontMembers(t: string)
    requires SkipWs(t) != ""
    ensures t != "" && SkipWs(Front(t)) == Front(SkipWs(t)) && EndsInSlash(t) == EndsInSlash(SkipWs(t))
    ensures End(Front(t), false) == End(Front(SkipWs(t)), false)
  {
    hide SkipWs, End, EndsInSlash;
    SkipExtends(t, "");
    SkipTails(t);
    SkipExtends(Front(t), "");
    TailsSlash(SkipWs(t), t);
  }

  lemma KeyTails(u: string)
    requires KeyColon(u).Lexed? && KeyColon(u).rest != ""
    ensures Tails(KeyColon(u).rest, u)
  {
    hide KeyColon;
  }

  lemma KeyNotBlank(t: string)
    requires KeyColon(t).Lexed?
    ensures t != ""
  {
    hide KeyColon;
  }

  lemma MembersSeveredLater(t: string)
    requires var u := SkipWs(t);
      && u != "" && u[0] != '}' && KeyColon(u).Lexed? && Value(KeyColon(u).rest).Parsed?
      && MembersSevered(SkipComma(Value(KeyColon(u).rest).rest))
    ensures MembersSevered(t)
  {
    hide SkipWs, SkipComma, End, KeyColon, Value, MembersOf, EndsInSlash;
    var u := SkipWs(t);
    var after := KeyColon(u).rest;
    var rest := Value(after).rest;
    var r := SkipComma(rest);
    SlashText(r);
    CommaExtends(rest, "");
    CommaExtends(Front(rest), "");
    CommaTails(rest);
    TailsSlash(r, rest);
    ValueExtends(after, "");
    ValueTails(after);
    TailsSlash(rest, after);
    ValueEnds(Front(after));
    FrontMembers(t);
    KeyTails(u);
    TailsSlash(after, u);
    KeyColonExtends(u, "");
    KeyColonEnds(Front(u));
    KeyNotBlank(Front(u));
    MembersCases(Front(t));
    assert Front(u)[0] == u[0];
  }

  lemma {:induction false} MembersDead(t: string, z: string)
    requires MembersDoomed(t)
    ensures MembersOf(t + z).Err?
    decreases |t|, 2
  {
    hide SkipWs, SkipComma, End, KeyColon, Value, MembersOf, Severed, KeySevered, MembersSevered;
    var u := SkipWs(t);
    MembersCases(t);
    MembersCases(t + z);
    SkipExtends(t, z);
    KeyNothing();
    KeyHere("");
    assert u != "";
    assert (u + z)[0] == u[0];
    if KeyColon(u).LexErr? {
      if KeySevered(u) { MembersSeveredKey(t); }
      KeyDead(u, z);
    } else {
      var after := KeyColon(u).rest;
      KeyColonEnds(u);
      KeyColonExtends(u, z);
      if Value(after).Err? {
        if Severed(after) { MembersSeveredValue(t); }
        ValueDead(after, z);
      } else {
        var rest := Value(after).rest;
        ValueEnds(after);
        CommaExtends(rest, z);
        NoItemsThere();
        assert SkipComma(rest) != "";
        NoCommaThere();
        ValueExtends(after, z);
        if MembersSevered(SkipComma(rest)) { MembersSeveredLater(t); }
        MembersDead(SkipComma(rest), z);
      }
    }
  }

  lemma NoCommaThere()
    ensures SkipComma("") == ""
  {
  }

  // ---- What is missing --------------------------------------------------------------------------

  ghost predicate ValueDone(t: string, z: string)
  {
    z != "" && forall x :: Stops(x) ==> Value(t + (z + x)).Parsed? && Value(t + (z + x)).rest == x
  }
  ghost predicate ItemsDone(t: string, z: string)
  {
    z != "" && forall x :: ItemsOf(t + (z + x)).Parsed? && ItemsOf(t + (z + x)).rest == x
  }
  ghost predicate MembersDone(t: string, z: string)
  {
    z != "" && forall x :: MembersOf(t + (z + x)).Parsed? && MembersOf(t + (z + x)).rest == x
  }

  /** A closing bracket after the white space t. */
  lemma Closed(t: string, x: string)
    requires SkipWs(t) == ""
    ensures ItemsOf(t + ("]" + x)) == Parsed(NoItems, x) && MembersOf(t + ("}" + x)) == Parsed(NoMembers, x)
    ensures Value(t + ("[]" + x)).Parsed? && Value(t + ("[]" + x)).rest == x
  {
    hide SkipWs, Value, ItemsOf, MembersOf, End;
    SkipExtends(t, "]" + x);
    SkipExtends(t, "}" + x);
    SkipExtends(t, "[]" + x);
    AtTokenSkips("]" + x);
    AtTokenSkips("}" + x);
    AtTokenSkips("[]" + x);
    assert ("]" + x)[1..] == x && ("}" + x)[1..] == x && ("[]" + x)[1..] == "]" + x;
    ItemsCases(t + ("]" + x));
    MembersCases(t + ("}" + x));
    ValueCases(t + ("[]" + x));
    ItemsCases("]" + x);
  }

  lemma {:induction false} ValueLive(t: string, lead: string) returns (z: string)
    requires Value(t) == Err(INCOMPLETE) && End(t, false) != Cut(false) && StringToken(lead)
    ensures ValueDone(t, z) && Leads(t, lead, z)
    decreases |t|, 1
  {
    hide Value, SkipWs, End, ItemsOf, MembersOf, ScalarOf, StringToken, Stops;
    var u := SkipWs(t);
    ValueCases(t);
    SkipExtends(t, "");
    KeyNothing();
    if u == "" {
      z := "[]";
      forall x ensures Value(t + (z + x)).Parsed? && Value(t + (z + x)).rest == x { Closed(t, x); }
    } else if u[0] == '{' {
      EndOne(u);
      z := MembersLive(u[1..], lead);
      forall x ensures Value(t + (z + x)).Parsed? && Value(t + (z + x)).rest == x { Opened(t, z + x); }
    } else if u[0] == '[' {
      EndOne(u);
      z := ItemsLive(u[1..], lead);
      forall x ensures Value(t + (z + x)).Parsed? && Value(t + (z + x)).rest == x { Opened(t, z + x); }
    } else {
      z := ScalarLive(u, lead);
      forall x | Stops(x) ensures Value(t + (z + x)).Parsed? && Value(t + (z + x)).rest == x { Opened(t, z + x); }
    }
  }

  lemma Opened(t: string, y: string)
    requires SkipWs(t) != ""
    ensures var u := SkipWs(t);
      if u[0] == '{' then SameEnd(Value(t + y), MembersOf(u[1..] + y))
      else if u[0] == '[' then SameEnd(Value(t + y), ItemsOf(u[1..] + y))
      else Value(t + y) == ScalarOf(u + y)
  {
    hide Value, SkipWs, End, ItemsOf, MembersOf, ScalarOf;
    var u := SkipWs(t);
    SkipExtends(t, y);
    assert (u + y)[0] == u[0] && (u + y)[1..] == u[1..] + y;
    ValueCases(t + y);
  }

  lemma {:induction false} ItemsLive(t: string, lead: string) returns (z: string)
    requires ItemsOf(t) == Err(INCOMPLETE) && End(t, false) != Cut(false) && StringToken(lead)
    ensures ItemsDone(t, z) && Leads(t, lead, z)
    decreases |t|, 2
  {
    hide Value, SkipWs, SkipComma, End, ItemsOf, StringToken, ValueDone;
    var u := SkipWs(t);
    ItemsCases(t);
    SkipExtends(t, "");
    KeyNothing();
    if u == "" {
      z := "]";
      forall x ensures ItemsOf(t + (z + x)).Parsed? && ItemsOf(t + (z + x)).rest == x { Closed(t, x); }
    } else if Value(u).Err? {
      var s := ValueLive(u, lead);
      z := s + "]";
      forall x ensures ItemsOf(t + (z + x)).Parsed? && ItemsOf(t + (z + x)).rest == x { ItemCompleted(t, s, x); }
    } else {
      var r := SkipComma(Value(u).rest);
      ValueEnds(u);
      CommaExtends(Value(u).rest, "");
      if r == "" { z := "]"; } else { z := ItemsLive(r, lead); }
      forall x ensures ItemsOf(t + (z + x)).Parsed? && ItemsOf(t + (z + x)).rest == x {
        if r == "" { LastItem(t, x); } else { NextItem(t, z + x); }
      }
    }
  }

  lemma ItemCompleted(t: string, s: string, x: string)
    requires var u := SkipWs(t); u != "" && u[0] != ']' && ValueDone(u, s)
    ensures ItemsOf(t + (s + "]" + x)) == ItemsOf(t + (s + ("]" + x)))
    ensures var r := ItemsOf(t + (s + "]" + x)); r.Parsed? && r.rest == x
  {
    hide Value, SkipWs, SkipComma, End, ItemsOf;
    var u, y := SkipWs(t), s + ("]" + x);
    Assoc(s, "]", x);
    SkipExtends(t, y);
    assert (u + y)[0] == u[0];
    ItemsCases(t + y);
    assert Stops("]" + x);
    BracketThere(x);
  }

  lemma BracketThere(x: string)
    ensures SkipComma("]" + x) == "]" + x && SkipComma("}" + x) == "}" + x
    ensures ItemsOf("]" + x) == Parsed(NoItems, x) && MembersOf("}" + x) == Parsed(NoMembers, x)
  {
    hide SkipWs, ItemsOf, MembersOf, SkipComma, End;
    NoCommaThere();
    CommaExtends("", "]" + x);
    CommaExtends("", "}" + x);
    assert "" + ("]" + x) == "]" + x && "" + ("}" + x) == "}" + x;
    AtTokenSkips("");
    Closed("", x);
  }

  /** Nothing but white space and a comma behind the last item: the bracket is missing. */
  lemma LastItem(t: string, x: string)
    requires var u := SkipWs(t); u != "" && u[0] != ']' && Value(u).Parsed? && SkipComma(Value(u).rest) == ""
    ensures var r := ItemsOf(t + ("]" + x)); r.Parsed? && r.rest == x
  {
    hide Value, SkipWs, SkipComma, End, ItemsOf;
    var u, y := SkipWs(t), "]" + x;
    SkipExtends(t, y);
    assert (u + y)[0] == u[0];
    ItemsCases(t + y);
    assert Stops(y);
    ValueExtends(u, y);
    CommaExtends(Value(u).rest, y);
    BracketThere(x);
  }

  lemma NextItem(t: string, y: string)
    requires var u := SkipWs(t); u != "" && u[0] != ']' && Value(u).Parsed? && SkipComma(Value(u).rest) != ""
    ensures SameEnd(ItemsOf(t + y), ItemsOf(SkipComma(Value(SkipWs(t)).rest) + y))
  {
    hide Value, SkipWs, SkipComma, End, ItemsOf;
    var u := SkipWs(t);
    SkipExtends(t, y);
    assert (u + y)[0] == u[0];
    ItemsCases(t + y);
    NoCommaThere();
    ValueExtends(u, y);
    CommaExtends(Value(u).rest, y);
  }

  lemma {:induction false} MembersLive(t: string, lead: string) returns (z: string)
    requires MembersOf(t) == Err(INCOMPLETE) && End(t, false) != Cut(false) && StringToken(lead)
    ensures MembersDone(t, z) && Leads(t, lead, z)
    decreases |t|, 2
  {
    hide Value, SkipWs, SkipComma, End, KeyColon, MembersOf, StringToken, ValueDone, KeyDone;
    var u := SkipWs(t);
    MembersCases(t);
    SkipExtends(t, "");
    KeyNothing();
    if u == "" {
      z := "}";
      forall x ensures MembersOf(t + (z + x)).Parsed? && MembersOf(t + (z + x)).rest == x { Closed(t, x); }
    } else if KeyColon(u).LexErr? {
      var s := KeyLive(u, lead);
      z := s + "[]}";
      forall x ensures MembersOf(t + (z + x)).Parsed? && MembersOf(t + (z + x)).rest == x { KeyCompleted(t, s, x); }
    } else {
      var after := KeyColon(u).rest;
      KeyColonEnds(u);
      if Value(after).Err? {
        var s := ValueLive(after, lead);
        z := s + "}";
        forall x ensures MembersOf(t + (z + x)).Parsed? && MembersOf(t + (z + x)).rest == x { MemberCompleted(t, s, x); }
      } else {
        var r := SkipComma(Value(after).rest);
        ValueEnds(after);
        CommaExtends(Value(after).rest, "");
        if r == "" { z := "}"; } else { z := MembersLive(r, lead); }
        forall x ensures MembersOf(t + (z + x)).Parsed? && MembersOf(t + (z + x)).rest == x {
          if r == "" { LastMember(t, x); } else { NextMember(t, z + x); }
        }
      }
    }
  }

  lemma KeyCompleted(t: string, s: string, x: string)
    requires var u := SkipWs(t); u != "" && u[0] != '}' && KeyDone(u, s)
    ensures var r := MembersOf(t + (s + "[]}" + x)); r.Parsed? && r.rest == x
  {
    hide Value, SkipWs, SkipComma, End, KeyColon, MembersOf;
    var u, y := SkipWs(t), s + ("[]}" + x);
    Assoc(s, "[]}", x);
    SkipExtends(t, y);
    assert (u + y)[0] == u[0];
    MembersCases(t + y);
    EmptyArrayThere(x);
    BracketThere(x);
  }

  lemma EmptyArrayThere(x: string)
    ensures Value("[]}" + x).Parsed? && Value("[]}" + x).rest == "}" + x
  {
    hide Value, SkipWs, ItemsOf, MembersOf;
    AtTokenSkips("");
    Closed("", "}" + x);
    assert "" + ("[]" + ("}" + x)) == "[]}" + x;
  }

  lemma MemberCompleted(t: string, s: string, x: string)
    requires var u := SkipWs(t); u != "" && u[0] != '}' && KeyColon(u).Lexed? && ValueDone(KeyColon(u).rest, s)
    ensures var r := MembersOf(t + (s + "}" + x)); r.Parsed? && r.rest == x
  {
    hide Value, SkipWs, SkipComma, End, KeyColon, MembersOf;
    var u, y := SkipWs(t), s + ("}" + x);
    Assoc(s, "}", x);
    SkipExtends(t, y);
    assert (u + y)[0] == u[0];
    MembersCases(t + y);
    KeyColonExtends(u, y);
    assert Stops("}" + x);
    BracketThere(x);
  }

  lemma LastMember(t: string, x: string)
    requires var u := SkipWs(t);
      u != "" && u[0] != '}' && KeyColon(u).Lexed? && Value(KeyColon(u).rest).Parsed? && SkipComma(Value(KeyColon(u).rest).rest) == ""
    ensures var r := MembersOf(t + ("}" + x)); r.Parsed? && r.rest == x
  {
    hide Value, SkipWs, SkipComma, End, KeyColon, MembersOf;
    var u, y := SkipWs(t), "}" + x;
    SkipExtends(t, y);
    assert (u + y)[0] == u[0];
    MembersCases(t + y);
    KeyColonExtends(u, y);
    assert Stops(y);
    ValueExtends(KeyColon(u).rest, y);
    CommaExtends(Value(KeyColon(u).rest).rest, y);
    BracketThere(x);
  }

  lemma NextMember(t: string, y: string)
    requires var u := SkipWs(t);
      u != "" && u[0] != '}' && KeyColon(u).Lexed? && Value(KeyColon(u).rest).Parsed? && SkipComma(Value(KeyColon(u).rest).rest) != ""
    ensures SameEnd(MembersOf(t + y), MembersOf(SkipComma(Value(KeyColon(SkipWs(t)).rest).rest) + y))
  {
    hide Value, SkipWs, SkipComma, End, KeyColon, MembersOf;
    var u := SkipWs(t);
    SkipExtends(t, y);
    assert (u + y)[0] == u[0];
    MembersCases(t + y);
    KeyColonExtends(u, y);
    NoCommaThere();
    ValueExtends(KeyColon(u).rest, y);
    CommaExtends(Value(KeyColon(u).rest).rest, y);
  }

  // ---- The two error codes -----------------------------------------------------------------------

  /** t is the beginning of an accepted text. */
  ghost predicate Begins(t: string) { exists z :: Value(t + z).Parsed? }

  /**
   * INCOMPLETE is said of the beginnings of accepted texts, and of no other text
   * but one that breaks off within \uXXXX behind a character that is no digit.
   */
  lemma IncompleteIs(t: string)
    requires Value(t) == Err(INCOMPLETE)
    ensures Begins(t) <==> End(t, false) != Cut(false)
  {
    hide Value, End, Stops;
    if End(t, false) != Cut(false) {
      EmptyString();
      var z := ValueLive(t, "");
      StopsNothing();
      assert Value(t + (z + "")).Parsed?;
    } else {
      forall z ensures !Value(t + z).Parsed? { ValueDead(t, z); }
    }
  }

  lemma EmptyString()
    ensures StringToken("")
  {
    assert AllTaken([]) && "" == PiecesText([]);
  }

  lemma LineFeedEscape()
    ensures StringToken("\\n")
  {
    var ps := [Escape('n')];
    assert AllTaken(ps) && PiecesText(ps) == PieceText(ps[0]) + PiecesText([]);
    assert "\\n" == PiecesText(ps);
  }

  /** There are no other error codes. */
  lemma {:induction false} Codes(t: string)
    ensures Value(t).Err? ==> Value(t).code == INVALID || Value(t).code == INCOMPLETE
    decreases |t|, 1
  {
    hide Value, SkipWs, ItemsOf, MembersOf, ScalarOf;
    ValueCases(t);
    var u := SkipWs(t);
    if Starts('{', u) {
      MembersCodes(u[1..]);
    } else if Starts('[', u) {
      ItemsCodes(u[1..]);
    } else if u != "" {
      ScalarCodes(u);
    }
  }

  lemma ScalarCodes(u: string)
    requires u != ""
    ensures ScalarOf(u).Err? ==> ScalarOf(u).code == INVALID || ScalarOf(u).code == INCOMPLETE
  {
    hide StringBody, Number, Expect;
    StringCode(u[1..]);
    NumberFails(u, "");
    WordCode(u, "null");
    WordCode(u, "true");
    WordCode(u, "false");
  }

  lemma {:induction false} ItemsCodes(t: string)
    ensures ItemsOf(t).Err? ==> ItemsOf(t).code == INVALID || ItemsOf(t).code == INCOMPLETE
    decreases |t|, 2
  {
    hide Value, SkipWs, SkipComma, ItemsOf;
    ItemsCases(t);
    var u := SkipWs(t);
    Codes(u);
    if Value(u).Parsed? { ItemsCodes(SkipComma(Value(u).rest)); }
  }

  lemma {:induction false} MembersCodes(t: string)
    ensures MembersOf(t).Err? ==> MembersOf(t).code == INVALID || MembersOf(t).code == INCOMPLETE
    decreases |t|, 2
  {
    hide Value, SkipWs, SkipComma, KeyColon, MembersOf;
    MembersCases(t);
    var u := SkipWs(t);
    KeyCodes(u);
    if KeyColon(u).Lexed? {
      var after := KeyColon(u).rest;
      Codes(after);
      if Value(after).Parsed? { MembersCodes(SkipComma(Value(after).rest)); }
    }
  }

  lemma KeyCodes(t: string)
    ensures KeyColon(t).LexErr? ==> KeyColon(t).code == INVALID || KeyColon(t).code == INCOMPLETE
  {
    hide SkipWs, StringBody, Run;
    var u := SkipWs(t);
    if u != "" {
      StringCode(u[1..]);
      if IsAlpha(u[0]) { BareLexed(u); }
    }
  }

  /**
   * INVALID is said of texts that no continuation makes valid, and of no other text
   * but one that breaks off right behind the backslash of an escape.
   */
  lemma InvalidIs(t: string)
    requires Value(t) == Err(INVALID)
    ensures Begins(t) <==> Severed(t)
  {
    hide Value, End, Stops, StringToken;
    if Severed(t) {
      LineFeedEscape();
      var p := Front(t);
      var z := ValueLive(p, "\\n");
      StopsNothing();
      assert Value(p + (z + "")).Parsed?;
      assert p + (z + "") == t + z[1..] by {
        assert z[0] == "\\n"[0];
        assert z + "" == [z[0]] + z[1..];
      }
    } else {
      forall z ensures !Value(t + z).Parsed? { ValueDead(t, z); }
    }
  }

  /** Both exceptions, on a text of one string. */
  lemma Exceptions()
    ensures Value("\"\\uz") == Err(INCOMPLETE) && !Begins("\"\\uz")
    ensures Value("\"\\") == Err(INVALID) && Begins("\"\\")
  {
    hide Value, Begins, SkipWs;
    var t, s := "\"\\uz", "\"\\";
    AtTokenSkips(t);
    AtTokenSkips(s);
    AtTokenSkips("\"");
    ValueCases(t);
    ValueCases(s);
    ValueCases("\"");
    assert t[1..] == "\\uz" && s[1..] == "\\" && Front(s) == "\"" && "\""[1..] == "";
    assert !HexDigit("\\uz"[2..][0]);
    assert End(t, false) == End("\\uz", true) == Cut(false);
    assert End("\"", false) == End("", true) == Inside;
    IncompleteIs(t);
    InvalidIs(s);
  }
}
