/**
 * The language read by the JSON walker (armsrc/frozen.c:116-437), as functions
 * from a text to the tree it denotes and the text that follows it. Characters
 * are octets. The tree keeps raw scalar texts and raw key texts, the two things
 * the walker hands to its callback.
 */
module JsonParse {
  const INVALID: int := -1
  const INCOMPLETE: int := -2

  datatype Kind = KString | KNumber | KTrue | KFalse | KNull

  datatype Json =
    | Scalar(kind: Kind, raw: string)
    | Arr(items: Items)
    | Obj(members: Members)
  datatype Items = NoItems | Item(v: Json, more: Items)
  datatype Members = NoMembers | Member(key: string, v: Json, more: Members)

  /** The result of a lexical rule: the text it covers and what follows, or an error. */
  datatype Lex = Lexed(raw: string, rest: string) | LexErr(code: int)
  datatype Parsed<T> = Parsed(value: T, rest: string) | Err(code: int)

  predicate IsSpace(c: char) { c == ' ' || c == '\t' || c == '\r' || c == '\n' }
  predicate IsAlpha(c: char) { 'a' <= c <= 'z' || 'A' <= c <= 'Z' }
  predicate IsDigit(c: char) { '0' <= c <= '9' }
  predicate IsXDigit(c: char) { IsDigit(c) || 'a' <= c <= 'f' || 'A' <= c <= 'F' }
  predicate IsWord(c: char) { c == '_' || IsAlpha(c) || IsDigit(c) }

  /** u is what is left of t after some of it was read. */
  predicate Suffix(u: string, t: string) { |u| <= |t| && u == t[|t| - |u|..] }

  lemma SuffixTrans(u: string, v: string, t: string)
    requires Suffix(u, v) && Suffix(v, t)
    ensures Suffix(u, t)
  {
  }

  lemma SuffixSelf(t: string)
    ensures Suffix(t, t)
  {
  }

  lemma SuffixTail(u: string, t: string)
    requires Suffix(u, t) && u != ""
    ensures Suffix(u[1..], t)
  {
  }

  /** Length of the longest prefix of t whose characters all satisfy p. */
  function Span(p: char -> bool, t: string): (n: nat)
    ensures n <= |t| && (n < |t| ==> !p(t[n]))
    ensures forall i :: 0 <= i < n ==> p(t[i])
  {
    if t != "" && p(t[0]) then 1 + Span(p, t[1..]) else 0
  }

  function SkipWs(t: string): (u: string)
    ensures |u| <= |t| && Suffix(u, t)
    ensures u != "" ==> !IsSpace(u[0])
  {
    t[Span(IsSpace, t)..]
  }

  predicate Starts(c: char, t: string) { t != "" && t[0] == c }

  /** What is missing or wrong when another character was wanted here. */
  function Unexpected(t: string): (code: int)
    ensures code < 0
  {
    if t == "" then INCOMPLETE else INVALID
  }

  // ---- Lexical rules --------------------------------------------------

  function Before(pre: string, l: Lex): Lex {
    match l
    case Lexed(raw, rest) => Lexed(pre + raw, rest)
    case LexErr(c) => LexErr(c)
  }

  lemma BeforeCovers(pre: string, l: Lex, t: string)
    requires l.Lexed? ==> t == l.raw + l.rest
    ensures l.Lexed? ==> pre + t == pre + l.raw + l.rest
  {
  }

  /** json_get_utf8_char_len on one octet. */
  function CharLen(c: char): (n: nat)
    ensures 1 <= n <= 4
  {
    var o := c as int;
    if o < 0x80 then 1 else if o >= 0xf0 then 4 else if o >= 0xe0 then 3 else 2
  }

  /** json_get_escape_len: t follows the backslash, left counts the backslash too. */
  function EscapeLen(t: string): (n: int)
    ensures n <= |t|
    ensures n != 0
  {
    if t == "" then INVALID // a terminating NUL is what stands after the text
    else if t[0] == 'u' then
      if |t| < 5 then INCOMPLETE
      else if IsXDigit(t[1]) && IsXDigit(t[2]) && IsXDigit(t[3]) && IsXDigit(t[4]) then 5
      else INVALID
    else if t[0] in "\"\\/bfnrt" then 1
    else INVALID
  }

  /** What one turn of the string loop consumes, or the error it stops with. */
  function CharStep(t: string): (n: int)
    requires t != ""
    ensures n <= |t| && n != 0
  {
    var c := t[0];
    if c as int < 32 then INVALID
    else if CharLen(c) > |t| then INCOMPLETE
    else if c == '\\' then (var e := EscapeLen(t[1..]); if e > 0 then 1 + e else e)
    else CharLen(c)
  }

  lemma StringCovers(t: string, n: nat, l: Lex)
    requires n <= |t| && (l.Lexed? ==> t[n..] == l.raw + "\"" + l.rest)
    ensures l.Lexed? ==> t == t[..n] + l.raw + "\"" + l.rest
  {
    assert t == t[..n] + t[n..];
  }

  /** A string after its opening quote: the raw text up to the closing quote. */
  function StringBody(t: string): (l: Lex)
    ensures l.LexErr? ==> l.code < 0
    ensures l.Lexed? ==> t == l.raw + "\"" + l.rest
    decreases |t|
  {
    if t == "" then LexErr(INCOMPLETE)
    else if t[0] == '"' then Lexed("", t[1..])
    else
      hide CharStep;
      var n := CharStep(t);
      if n < 0 then LexErr(n)
      else
        var l := StringBody(t[n..]);
        StringCovers(t, n, l);
        Before(t[..n], l)
  }

  function Run(p: char -> bool, t: string): (l: Lex)
    ensures l.LexErr? ==> l.code < 0
    ensures l.Lexed? ==> t == l.raw + l.rest && l.raw != ""
  {
    if t == "" then LexErr(INCOMPLETE)
    else if !p(t[0]) then LexErr(INVALID)
    else var n := Span(p, t); Lexed(t[..n], t[n..])
  }

  function Digits(t: string): Lex { Run(IsDigit, t) }

  function Fraction(t: string): (l: Lex)
    ensures l.LexErr? ==> l.code < 0
    ensures l.Lexed? ==> t == l.raw + l.rest
  {
    if Starts('.', t) then Before(".", Digits(t[1..])) else Lexed("", t)
  }

  function SignedDigits(t: string): (l: Lex)
    ensures l.LexErr? ==> l.code < 0
    ensures l.Lexed? ==> t == l.raw + l.rest
  {
    hide Run;
    if Starts('+', t) || Starts('-', t) then
      BeforeCovers(t[..1], Digits(t[1..]), t[1..]);
      Before(t[..1], Digits(t[1..]))
    else Digits(t)
  }

  function Exponent(t: string): (l: Lex)
    ensures l.LexErr? ==> l.code < 0
    ensures l.Lexed? ==> t == l.raw + l.rest
  {
    hide SignedDigits;
    if Starts('e', t) || Starts('E', t) then
      BeforeCovers(t[..1], SignedDigits(t[1..]), t[1..]);
      Before(t[..1], SignedDigits(t[1..]))
    else Lexed("", t)
  }

  /** The fraction and the exponent of a decimal number, both optional. */
  function Tail(t: string): (l: Lex)
    ensures l.LexErr? ==> l.code < 0
    ensures l.Lexed? ==> t == l.raw + l.rest
  {
    match Fraction(t)
    case LexErr(c) => LexErr(c)
    case Lexed(frac, rest) =>
      hide Fraction, Exponent;
      BeforeCovers(frac, Exponent(rest), rest);
      Before(frac, Exponent(rest))
  }

  function Unprefixed(t: string): (l: Lex)
    ensures l.LexErr? ==> l.code < 0
    ensures l.Lexed? ==> t == l.raw + l.rest && l.raw != ""
  {
    match Digits(t)
    case LexErr(c) => LexErr(c)
    case Lexed(whole, rest) =>
      hide Run, Tail;
      BeforeCovers(whole, Tail(rest), rest);
      Before(whole, Tail(rest))
  }

  predicate StartsHex(t: string) { |t| >= 2 && t[0] == '0' && t[1] == 'x' }

  function Unsigned(t: string): (l: Lex)
    ensures l.LexErr? ==> l.code < 0
    ensures l.Lexed? ==> t == l.raw + l.rest && l.raw != ""
  {
    if StartsHex(t) then Before("0x", Run(IsXDigit, t[2..])) else Unprefixed(t)
  }

  /** A number: t starts with a digit or a minus sign. */
  function Number(t: string): (l: Lex)
    ensures l.LexErr? ==> l.code < 0
    ensures l.Lexed? ==> t == l.raw + l.rest && l.raw != ""
  {
    if Starts('-', t) then Before("-", Unsigned(t[1..])) else Unsigned(t)
  }

  function Word(k: Kind): string
  {
    match k case KTrue => "true" case KFalse => "false" case KNull => "null" case _ => ""
  }

  /** json_expect: the literal, or the error at the first character that differs. */
  function Expect(t: string, w: string): (l: Lex)
    ensures l.LexErr? ==> l.code < 0
    ensures l.Lexed? ==> t == l.raw + l.rest && l.raw == w
  {
    if w == "" then Lexed("", t)
    else if t == "" then LexErr(INCOMPLETE)
    else if t[0] != w[0] then LexErr(INVALID)
    else Before(w[..1], Expect(t[1..], w[1..]))
  }

  function Scan(k: Kind, l: Lex): (p: Parsed<Json>)
  {
    match l
    case Lexed(raw, rest) => Parsed(Scalar(k, raw), rest)
    case LexErr(c) => Err(c)
  }

  predicate StartsNumber(c: char) { c == '-' || IsDigit(c) }

  /** A key, quoted or an identifier; t carries no leading white space. */
  function Key(t: string): (l: Lex)
    ensures l.LexErr? ==> l.code < 0
    ensures l.Lexed? ==> |l.rest| < |t| && Suffix(l.rest, t)
  {
    if t == "" then LexErr(INCOMPLETE)
    else if IsAlpha(t[0]) then Run(IsWord, t)
    else if t[0] == '"' then StringBody(t[1..])
    else LexErr(INVALID)
  }

  // ---- Values -----------------------------------------------------------

  /** True when p is an error, or leaves a strictly shorter suffix of t. */
  predicate Advances<T>(t: string, p: Parsed<T>)
  {
    match p
    case Parsed(_, rest) => |rest| < |t| && Suffix(rest, t)
    case Err(c) => c < 0
  }

  function ScalarOf(u: string): (p: Parsed<Json>)
    requires u != ""
    ensures Advances(u, p)
  {
    if u[0] == '"' then Scan(KString, StringBody(u[1..]))
    else if u[0] == 'n' then Scan(KNull, Expect(u, "null"))
    else if u[0] == 't' then Scan(KTrue, Expect(u, "true"))
    else if u[0] == 'f' then Scan(KFalse, Expect(u, "false"))
    else if StartsNumber(u[0]) then Scan(KNumber, Number(u))
    else Err(INVALID)
  }

  function Value(t: string): (p: Parsed<Json>)
    ensures Advances(t, p)
    decreases |t|, 1
  {
    hide Suffix, SkipWs, ValueAt;
    var p := ValueAt(SkipWs(t));
    AdvancesFrom(SkipWs(t), t, p);
    p
  }

  lemma AdvancesFrom<T>(u: string, t: string, p: Parsed<T>)
    requires Suffix(u, t) && Advances(u, p)
    ensures Advances(t, p)
  {
    if p.Parsed? { SuffixTrans(p.rest, u, t); }
  }

  /** A value at the first character that is not white space. */
  function ValueAt(u: string): (p: Parsed<Json>)
    ensures Advances(u, p)
    decreases |u|, 0
  {
    hide Suffix, ScalarOf;
    if u == "" then Err(INCOMPLETE)
    else if u[0] == '{' then
      SuffixSelf(u);
      SuffixTail(u, u);
      match MembersOf(u[1..])
      case Err(c) => Err(c)
      case Parsed(ms, rest) => SuffixTrans(rest, u[1..], u); Parsed(Obj(ms), rest)
    else if u[0] == '[' then
      SuffixSelf(u);
      SuffixTail(u, u);
      match ItemsOf(u[1..])
      case Err(c) => Err(c)
      case Parsed(vs, rest) => SuffixTrans(rest, u[1..], u); Parsed(Arr(vs), rest)
    else ScalarOf(u)
  }

  /** White space, and one comma when there is one: commas are optional. */
  function SkipComma(t: string): (u: string)
    ensures |u| <= |t| && Suffix(u, t)
  {
    var v := SkipWs(t);
    if Starts(',', v) then v[1..] else v
  }

  function ItemsOf(t: string): (p: Parsed<Items>)
    ensures Advances(t, p)
    decreases |t|, 3
  {
    hide Suffix, SkipWs, ItemsAt;
    var p := ItemsAt(SkipWs(t));
    AdvancesFrom(SkipWs(t), t, p);
    p
  }

  function ItemsAt(u: string): (p: Parsed<Items>)
    ensures Advances(u, p)
    decreases |u|, 2
  {
    hide Suffix, SkipComma;
    if Starts(']', u) then
      SuffixSelf(u);
      SuffixTail(u, u);
      Parsed(NoItems, u[1..])
    else
      match Value(u)
      case Err(c) => Err(c)
      case Parsed(v, rest) =>
        SuffixTrans(SkipComma(rest), rest, u);
        match ItemsOf(SkipComma(rest))
        case Err(c) => Err(c)
        case Parsed(vs, rest') =>
          SuffixTrans(rest', SkipComma(rest), u);
          Parsed(Item(v, vs), rest')
  }

  /** A pair's key and the text after its colon. */
  function KeyColon(t: string): (l: Lex)
    ensures l.LexErr? ==> l.code < 0
    ensures l.Lexed? ==> |l.rest| < |t| && Suffix(l.rest, t)
  {
    match Key(SkipWs(t))
    case LexErr(c) => LexErr(c)
    case Lexed(key, rest) =>
      var u := SkipWs(rest);
      if Starts(':', u) then Lexed(key, u[1..]) else LexErr(Unexpected(u))
  }

  function MembersOf(t: string): (p: Parsed<Members>)
    ensures Advances(t, p)
    decreases |t|, 3
  {
    hide Suffix, SkipWs, MembersAt;
    var p := MembersAt(SkipWs(t));
    AdvancesFrom(SkipWs(t), t, p);
    p
  }

  function MembersAt(u: string): (p: Parsed<Members>)
    ensures Advances(u, p)
    decreases |u|, 2
  {
    hide Suffix, SkipComma;
    if Starts('}', u) then
      SuffixSelf(u);
      SuffixTail(u, u);
      Parsed(NoMembers, u[1..])
    else
      match KeyColon(u)
      case LexErr(c) => Err(c)
      case Lexed(key, after) =>
        match Value(after)
        case Err(c) => Err(c)
        case Parsed(v, rest) =>
          SuffixTrans(rest, after, u);
          SuffixTrans(SkipComma(rest), rest, u);
          match MembersOf(SkipComma(rest))
          case Err(c) => Err(c)
          case Parsed(ms, rest') =>
            SuffixTrans(rest', SkipComma(rest), u);
            Parsed(Member(key, v, ms), rest')
  }
}
