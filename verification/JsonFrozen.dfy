/**
 * The JSON walker and the pretty printer as they run (armsrc/frozen.c:77-437,
 * 804-819, 1282-1351): a cursor into the text, a path buffer changed in place,
 * and a callback whose calls are kept in a log. Every parsing method is proved
 * against the functions of JsonParse and JsonWalk.
 */
module JsonFrozen {
  import opened Types
  import opened JsonParse
  import opened JsonWalk
  import opened JsonAttempt
  import JsonPretty
  import JsonMeaning
  import JsonHidden
  import JsonGrammar

  lemma BeforeTwice(a: string, b: string, l: Lex)
    ensures Before(a, Before(b, l)) == Before(a + b, l)
  {
    if l.Lexed? { assert a + (b + l.raw) == a + b + l.raw; }
  }

  /** How a parsing method with result r, leaving `left` unread, meets its rule. */
  predicate Meets<T>(p: Parsed<T>, r: int, left: string)
  {
    match p
    case Parsed(_, rest) => r == 0 && left == rest
    case Err(c) => r == c && r < 0
  }

  predicate MeetsLex(l: Lex, r: int, left: string)
  {
    match l
    case Lexed(_, rest) => r == 0 && left == rest
    case LexErr(c) => r == c && r < 0
  }

  /** The string rule, some way into the text. */
  predicate StringSoFar(text: string, start: nat, cur: nat)
  {
    start <= cur <= |text| &&
    StringBody(text[start..]) == Before(text[start..cur], StringBody(text[cur..]))
  }

  lemma StringTurn(text: string, start: nat, cur: nat)
    requires StringSoFar(text, start, cur) && cur < |text|
    ensures text[cur] != '"' && CharStep(text[cur..]) > 0 ==> StringSoFar(text, start, cur + CharStep(text[cur..]))
    ensures text[cur] != '"' && CharStep(text[cur..]) < 0 ==> StringBody(text[start..]) == LexErr(CharStep(text[cur..]))
    ensures text[cur] == '"' ==> StringBody(text[start..]) == Lexed(text[start..cur], text[cur + 1..])
  {
    hide CharStep;
    var t := text[cur..];
    var n := CharStep(t);
    if text[cur] == '"' {
      assert t[1..] == text[cur + 1..];
      assert text[start..cur] + "" == text[start..cur];
    } else if n > 0 {
      assert t[..n] == text[cur..cur + n] && t[n..] == text[cur + n..];
      assert text[start..cur] + text[cur..cur + n] == text[start..cur + n];
      BeforeTwice(text[start..cur], t[..n], StringBody(t[n..]));
    }
  }

  lemma StringStarts(text: string, start: nat)
    requires start <= |text|
    ensures StringSoFar(text, start, start)
  {
    var l := StringBody(text[start..]);
    if l.Lexed? { assert "" + l.raw == l.raw; }
  }

  lemma StringEnds(text: string, start: nat)
    requires StringSoFar(text, start, |text|)
    ensures StringBody(text[start..]) == LexErr(INCOMPLETE)
  {
  }

  /** The literal rule, i characters into the text and the word. */
  predicate WordSoFar(t: string, w: string, i: nat)
  {
    i <= |t| && i <= |w| && Expect(t, w) == Before(t[..i], Expect(t[i..], w[i..]))
  }

  lemma WordTurn(t: string, w: string, i: nat)
    requires WordSoFar(t, w, i) && i < |w|
    ensures i == |t| ==> Expect(t, w) == LexErr(INCOMPLETE)
    ensures i < |t| && t[i] != w[i] ==> Expect(t, w) == LexErr(INVALID)
    ensures i < |t| && t[i] == w[i] ==> WordSoFar(t, w, i + 1)
  {
    if i < |t| && t[i] == w[i] {
      assert t[i..][1..] == t[i + 1..] && w[i..][1..] == w[i + 1..] && w[i..][..1] == [t[i]];
      assert t[..i] + [t[i]] == t[..i + 1];
      BeforeTwice(t[..i], [t[i]], Expect(t[i + 1..], w[i + 1..]));
    }
  }

  lemma WordStarts(t: string, w: string)
    ensures WordSoFar(t, w, 0)
  {
    var l := Expect(t, w);
    if l.Lexed? { assert "" + l.raw == l.raw; }
  }

  lemma WordEnds(t: string, w: string)
    requires WordSoFar(t, w, |w|)
    ensures Expect(t, w) == Lexed(t[..|w|], t[|w|..])
  {
    assert w[|w|..] == "" && t[..|w|] + "" == t[..|w|];
  }

  /** The items from t on continue those read so far; the walk will end as end. */
  predicate ItemsLink(all: Parsed<Items>, end: Walker, t: string, i: nat, w: Walker)
    requires JsonWalk.Valid(w)
  {
    AttemptItems(t, i, w) == end &&
    match ItemsOf(t)
    case Err(c) => all == Err(c)
    case Parsed(_, rest) => all.Parsed? && all.rest == rest
  }

  predicate MembersLink(all: Parsed<Members>, end: Walker, t: string, w: Walker)
    requires JsonWalk.Valid(w)
  {
    AttemptMembers(t, w) == end &&
    match MembersOf(t)
    case Err(c) => all == Err(c)
    case Parsed(_, rest) => all.Parsed? && all.rest == rest
  }

  lemma ItemsLinkAgain(all: Parsed<Items>, end: Walker, t: string, i: nat, w: Walker)
    requires JsonWalk.Valid(w)
    ensures ItemsLink(all, end, SkipWs(t), i, w) <==> ItemsLink(all, end, t, i, w)
  {
    hide SkipWs, ItemsAt, AttemptItemsAt, JsonWalk.Valid;
    JsonGrammar.AtTokenSkips(SkipWs(t));
  }

  lemma MembersLinkAgain(all: Parsed<Members>, end: Walker, t: string, w: Walker)
    requires JsonWalk.Valid(w)
    ensures MembersLink(all, end, SkipWs(t), w) <==> MembersLink(all, end, t, w)
  {
    hide SkipWs, MembersAt, AttemptMembersAt, JsonWalk.Valid;
    JsonGrammar.AtTokenSkips(SkipWs(t));
  }

  /** One turn of the array loop, at the element that starts u. */
  lemma ItemsTurn(all: Parsed<Items>, end: Walker, u: string, i: nat, w: Walker)
    requires JsonWalk.Valid(w) && ItemsLink(all, end, u, i, w)
    requires JsonGrammar.AtToken(u) && !Starts(']', u)
    ensures var r := Attempt(u, EnterItem(w, i));
      && (Value(u).Err? ==> all == Err(Value(u).code) && end == r)
      && (Value(u).Parsed? ==>
            ItemsLink(all, end, SkipComma(Value(u).rest), i + 1, Truncate(r, w.len)))
  {
    hide SkipWs, Value, SkipComma, Attempt, Truncate, EnterItem, JsonGrammar.AtToken, ItemsOf, AttemptItems;
    JsonGrammar.AtTokenSkips(u);
    ItemsParse(u);
    ItemsAttempt(u, i, w);
  }

  lemma ValidLength(w: Walker)
    requires JsonWalk.Valid(w)
    ensures w.len < PATH_SIZE
  {
  }

  lemma CallBackLength(w: Walker, t: TokenType, raw: string)
    requires JsonWalk.Valid(w)
    ensures CallBack(w, t, raw).len == w.len < PATH_SIZE
  {
  }

  lemma CopyStep(p: string, s: string, n: nat, i: nat, q: string)
    requires n + |s| < |p| && i < |s| && q == p[..n] + s[..i] + p[n + i..]
    ensures q[n + i := s[i]] == p[..n] + s[..i + 1] + p[n + i + 1..]
  {
  }

  lemma ItemsDone(all: Parsed<Items>, end: Walker, u: string, i: nat, w: Walker)
    requires JsonWalk.Valid(w) && ItemsLink(all, end, u, i, w)
    requires Starts(']', u)
    ensures ReadUpTo(all, u[1..]) && end == w
  {
    hide SkipWs, ItemsOf, AttemptItems;
    JsonGrammar.AtTokenSkips(u);
    ItemsParse(u);
    ItemsAttempt(u, i, w);
  }

  predicate ReadUpTo<T>(all: Parsed<T>, rest: string) { all.Parsed? && all.rest == rest }

  /** One turn of the object loop, at the key that starts u. */
  lemma MembersTurn(all: Parsed<Members>, end: Walker, u: string, w: Walker)
    requires JsonWalk.Valid(w) && MembersLink(all, end, u, w)
    requires JsonGrammar.AtToken(u) && !Starts('}', u)
    ensures var r := AttemptPair(u, w);
      && (PairOf(u).Err? ==> all == Err(PairOf(u).code) && end == r)
      && (PairOf(u).Parsed? ==>
            MembersLink(all, end, SkipComma(PairOf(u).rest), Truncate(r, w.len)))
  {
    hide SkipWs, PairOf, SkipComma, Truncate, AttemptPair, JsonGrammar.AtToken, MembersOf, AttemptMembers;
    JsonGrammar.AtTokenSkips(u);
    MembersParse(u);
    MembersAttempt(u, w);
  }

  lemma MembersDone(all: Parsed<Members>, end: Walker, u: string, w: Walker)
    requires JsonWalk.Valid(w) && MembersLink(all, end, u, w)
    requires Starts('}', u)
    ensures ReadUpTo(all, u[1..]) && end == w
  {
    hide SkipWs, MembersOf, AttemptMembers;
    JsonGrammar.AtTokenSkips(u);
    MembersParse(u);
    MembersAttempt(u, w);
  }

  class Frozen {
    const text: string
    var cur: nat
    const path: array<char>
    var pathLen: nat
    var name: Name
    var log: seq<Event>

    ghost predicate Valid()
      reads this, path
    {
      cur <= |text| && JsonWalk.Valid(View())
    }

    function View(): Walker
      reads this, path
    {
      Walker(path[..], pathLen, name, log)
    }

    function Left(): string
      requires cur <= |text|
      reads this
    {
      text[cur..]
    }

    constructor (s: string)
      ensures Valid() && text == s && cur == 0 && View() == Start() && fresh(path)
    {
      text := s;
      cur := 0;
      path := new char[PATH_SIZE](_ => '\0');
      pathLen := 0;
      name := NoName;
      log := [];
      new;
      assert path[..] == Nuls(PATH_SIZE);
    }

    // ---- The path buffer and the callback ---------------------------------

    method AppendToPath(s: string) returns (n: nat)
      requires Valid()
      modifies this`pathLen, path
      ensures Valid() && n == old(pathLen)
      ensures View() == Append(old(View()), s)
    {
      ghost var p := path[..];
      n := pathLen;
      var size := |s|;
      if size > path.Length - n - 1 { size := path.Length - n - 1; }
      CopyIn(n, s[..size]);
      path[n + size] := '\0';
      pathLen := pathLen + size;
      assert path[..] == p[..n] + s[..size] + ['\0'] + p[n + size + 1..];
    }

    method CopyIn(n: nat, s: string)
      requires n + |s| < path.Length
      modifies path
      ensures path[..] == old(path[..n]) + s + old(path[n + |s|..])
    {
      ghost var p := path[..];
      var i := 0;
      while i < |s|
        invariant 0 <= i <= |s|
        invariant path[..] == p[..n] + s[..i] + p[n + i..]
      {
        CopyStep(p, s, n, i, path[..]);
        ghost var q := path[..];
        path[n + i] := s[i];
        assert path[..] == q[n + i := s[i]];
        i := i + 1;
      }
    }

    method SetName(n: Name)
      requires Valid()
      modifies this`name
      ensures Valid() && View() == old(View()).(name := n)
    {
      name := n;
    }

    method TruncatePath(len: nat)
      requires Valid() && len < PATH_SIZE
      modifies this`pathLen, path
      ensures Valid()
      ensures View() == Truncate(old(View()), len)
    {
      pathLen := len;
      path[len] := '\0';
    }

    /** SET_STATE with an empty string leaves everything as it is. */
    method MarkState() returns (n: nat)
      requires Valid()
      modifies this`pathLen, path
      ensures Valid() && n == pathLen && View() == old(View())
    {
      n := AppendToPath("");
      assert path[..] == old(path[..]);
    }

    method Report(t: TokenType, raw: string)
      requires Valid()
      modifies this`log, this`name
      ensures Valid()
      ensures View() == CallBack(old(View()), t, raw)
    {
      if pathLen == 0 || path[pathLen - 1] != '.' {
        log := log + [Event(t, Resolve(View()), CString(path[..]), raw)];
        name := NoName;
      }
    }

    /** Back to the length at SET_STATE, which is the present one, and report. */
    method ReportScalar(n: nat, k: Kind, raw: string)
      requires Valid() && n == pathLen
      modifies this`log, this`name, this`pathLen, path
      ensures Valid()
      ensures View() == CallBack(old(View()), Scalars(k), raw)
    {
      TruncatePath(n);
      assert path[..] == old(path[..]);
      Report(Scalars(k), raw);
    }

    // ---- The cursor -------------------------------------------------------

    method SkipWhile(p: char -> bool)
      requires Valid()
      modifies this`cur
      ensures Valid() && cur == old(cur) + Span(p, old(Left()))
      ensures Left() == old(Left())[Span(p, old(Left()))..]
      ensures text[old(cur)..cur] == old(Left())[..Span(p, old(Left()))]
    {
      ghost var t := Left();
      while cur < |text| && p(text[cur])
        invariant old(cur) <= cur <= |text|
        invariant (cur - old(cur)) + Span(p, text[cur..]) == Span(p, t)
      {
        assert text[cur..][1..] == text[cur + 1..];
        cur := cur + 1;
      }
    }

    method SkipWhitespaces()
      requires Valid()
      modifies this`cur
      ensures Valid() && Left() == SkipWs(old(Left())) && cur >= old(cur)
    {
      SkipWhile(IsSpace);
    }

    /** json_cur: the next character that is not white space, or None at the end. */
    method Current() returns (ch: Option<char>)
      requires Valid()
      modifies this`cur
      ensures Valid() && Left() == SkipWs(old(Left())) && cur >= old(cur)
      ensures ch == if Left() == "" then None else Some(Left()[0])
    {
      SkipWhitespaces();
      ch := if cur >= |text| then None else Some(text[cur]);
    }

    method TestAndSkip(expected: char) returns (r: int)
      requires Valid()
      modifies this`cur
      ensures Valid() && cur >= old(cur)
      ensures var u := SkipWs(old(Left()));
        if Starts(expected, u) then r == 0 && Left() == u[1..] else r == Unexpected(u)
    {
      hide SkipWs;
      var ch := Current();
      if ch == Some(expected) {
        assert text[cur..][1..] == text[cur + 1..];
        cur := cur + 1;
        r := 0;
      } else {
        r := if ch == None then INCOMPLETE else INVALID;
      }
    }

    // ---- Tokens -----------------------------------------------------------

    /** EXPECT a character of the class, then take the whole run of them. */
    method TakeRun(p: char -> bool) returns (r: int)
      requires Valid()
      modifies this`cur
      ensures Valid() && cur >= old(cur)
      ensures MeetsLex(Run(p, old(Left())), r, Left())
    {
      if cur >= |text| { return INCOMPLETE; }
      if !p(text[cur]) { return INVALID; }
      SkipWhile(p);
      r := 0;
    }

    method Advance()
      requires Valid() && cur < |text|
      modifies this`cur
      ensures Valid() && cur == old(cur) + 1 && Left() == old(Left())[1..]
    {
      assert text[cur..][1..] == text[cur + 1..];
      cur := cur + 1;
    }

    method TakeFraction() returns (r: int)
      requires Valid()
      modifies this`cur
      ensures Valid() && cur >= old(cur)
      ensures MeetsLex(Fraction(old(Left())), r, Left())
    {
      hide Run;
      r := 0;
      if cur < |text| && text[cur] == '.' {
        Advance();
        r := TakeRun(IsDigit);
      }
    }

    method TakeSignedDigits() returns (r: int)
      requires Valid()
      modifies this`cur
      ensures Valid() && cur >= old(cur)
      ensures MeetsLex(SignedDigits(old(Left())), r, Left())
    {
      hide Run;
      if cur >= |text| {
        RunAtEnd(IsDigit);
        return INCOMPLETE;
      }
      if text[cur] == '+' || text[cur] == '-' { Advance(); }
      r := TakeRun(IsDigit);
    }

    lemma RunAtEnd(p: char -> bool)
      ensures Run(p, "") == LexErr(INCOMPLETE)
    {
    }

    method TakeExponent() returns (r: int)
      requires Valid()
      modifies this`cur
      ensures Valid() && cur >= old(cur)
      ensures MeetsLex(Exponent(old(Left())), r, Left())
    {
      hide SignedDigits;
      r := 0;
      if cur < |text| && (text[cur] == 'e' || text[cur] == 'E') {
        Advance();
        r := TakeSignedDigits();
      }
    }

    method TakeDecimal() returns (r: int)
      requires Valid()
      modifies this`cur
      ensures Valid() && cur >= old(cur)
      ensures MeetsLex(Unprefixed(old(Left())), r, Left())
    {
      hide Run, Fraction, Exponent;
      r := TakeRun(IsDigit);
      if r == 0 { r := TakeFraction(); }
      if r == 0 { r := TakeExponent(); }
    }

    method TakeUnsigned() returns (r: int)
      requires Valid()
      modifies this`cur
      ensures Valid() && cur >= old(cur)
      ensures MeetsLex(Unsigned(old(Left())), r, Left())
    {
      hide Run, Unprefixed;
      if cur + 1 < |text| && text[cur] == '0' && text[cur + 1] == 'x' {
        assert StartsHex(Left());
        assert text[cur..][2..] == text[cur + 2..];
        cur := cur + 2;
        r := TakeRun(IsXDigit);
      } else {
        assert !StartsHex(Left());
        r := TakeDecimal();
      }
    }

    method ParseNumber() returns (r: int)
      requires Valid() && Left() != "" && StartsNumber(Left()[0])
      modifies this, path
      ensures Valid() && cur >= old(cur)
      ensures MeetsLex(Number(old(Left())), r, Left())
      ensures r == 0 ==> View() == CallBack(old(View()), Scalars(KNumber), Number(old(Left())).raw)
      ensures r < 0 ==> View() == old(View())
    {
      hide Unsigned, Append, Truncate, CallBack;
      var n := MarkState();
      var start := cur;
      if text[cur] == '-' { Advance(); }
      r := TakeUnsigned();
      if r == 0 {
        TookRaw(start, Number(text[start..]));
        ReportScalar(n, KNumber, text[start..cur]);
      }
    }

    lemma TookRaw(start: nat, l: Lex)
      requires start <= cur <= |text| && l.Lexed? && text[start..] == l.raw + l.rest && l.rest == text[cur..]
      ensures text[start..cur] == l.raw
    {
      assert |l.raw| == cur - start;
      assert text[start..cur] == text[start..][..cur - start];
    }

    /** What stands at the cursor is an opening quote. */
    method ParseString() returns (r: int)
      requires Valid() && Starts('"', Left())
      modifies this, path
      ensures Valid() && cur > old(cur)
      ensures MeetsLex(StringBody(old(Left())[1..]), r, Left())
      ensures r == 0 ==> View() == CallBack(old(View()), Scalars(KString), StringBody(old(Left())[1..]).raw)
      ensures r < 0 ==> View() == old(View())
    {
      hide Append, Truncate, CallBack, CharStep, StringBody, StringSoFar, JsonWalk.Valid;
      Advance();
      var n := MarkState();
      var start := cur;
      StringStarts(text, start);
      while cur < |text|
        invariant start <= cur <= |text| && old(cur) < cur && StringSoFar(text, start, cur)
        invariant Valid() && View() == old(View()) && n == pathLen
      {
        var ch := text[cur];
        StringTurn(text, start, cur);
        if ch == '"' {
          ReportScalar(n, KString, text[start..cur]);
          cur := cur + 1;
          return 0;
        }
        var len := CharTurn();
        if len < 0 { return len; }
        cur := cur + len;
      }
      StringEnds(text, start);
      return INCOMPLETE;
    }

    /** The length of the character at the cursor, an escape included, or an error. */
    method CharTurn() returns (len: int)
      requires Valid() && cur < |text|
      ensures len == CharStep(text[cur..])
    {
      ghost var t := text[cur..];
      var ch := text[cur];
      len := CharLen(ch);
      if ch as int < 32 { return INVALID; }
      if len > |text| - cur { return INCOMPLETE; }
      if ch == '\\' {
        assert t[1..] == text[cur + 1..];
        var n := EscapeLen(text[cur + 1..]);
        if n <= 0 { return n; }
        len := len + n;
      }
    }

    method ExpectWord(k: Kind) returns (r: int)
      requires Valid() && k != KString && k != KNumber
      modifies this, path
      ensures Valid() && cur >= old(cur)
      ensures MeetsLex(Expect(old(Left()), Word(k)), r, Left())
      ensures r == 0 ==> View() == CallBack(old(View()), Scalars(k), Word(k))
      ensures r < 0 ==> View() == old(View())
    {
      hide Append, Truncate, CallBack, Expect, Word, WordSoFar, JsonWalk.Valid;
      var s := Word(k);
      var n := MarkState();
      ghost var t := Left();
      var i := 0;
      WordStarts(t, s);
      while i < |s|
        invariant 0 <= i <= |s| && cur + i <= |text| && WordSoFar(t, s, i)
        invariant cur == old(cur) && Valid() && View() == old(View()) && n == pathLen
      {
        WordTurn(t, s, i);
        if i >= |text| - cur { return INCOMPLETE; }
        if text[cur + i] != s[i] { return INVALID; }
        i := i + 1;
      }
      WordEnds(t, s);
      var start := cur;
      cur := cur + |s|;
      assert text[start..cur] == t[..|s|] && text[cur..] == t[|s|..];
      ReportScalar(n, k, text[start..cur]);
      r := 0;
    }

    // ---- Values -----------------------------------------------------------

    method ParseValue() returns (r: int)
      requires Valid()
      modifies this, path
      ensures Valid() && Meets(Value(old(Left())), r, Left())
      ensures View() == Attempt(old(Left()), old(View()))
      decreases |text| - cur, 3
    {
      hide Append, Truncate, CallBack, JsonWalk.Valid, ScalarOf, ItemsOf, MembersOf, SkipWs,
           AttemptItems, AttemptMembers;
      var ch := Current();
      match ch
      case None => r := INCOMPLETE;
      case Some(c) =>
        if c == '{' { r := ParseObject(); }
        else if c == '[' { r := ParseArray(); }
        else { r := ParseScalar(c); }
    }

    /** The cases of json_parse_value that are single tokens. */
    method ParseScalar(c: char) returns (r: int)
      requires Valid() && Starts(c, Left()) && c != '{' && c != '['
      modifies this, path
      ensures Valid() && Meets(ScalarOf(old(Left())), r, Left())
      ensures View() == AttemptAt(old(Left()), old(View()))
    {
      hide CallBack, JsonWalk.Valid, StringBody, Number, Expect;
      if c == '"' { r := ParseString(); }
      else if c == 'n' { r := ExpectWord(KNull); }
      else if c == 't' { r := ExpectWord(KTrue); }
      else if c == 'f' { r := ExpectWord(KFalse); }
      else if StartsNumber(c) { r := ParseNumber(); }
      else { r := INVALID; }
    }

    method ParseArray() returns (r: int)
      requires Valid() && Starts('[', Left())
      modifies this, path
      ensures Valid() && Meets(ItemsOf(old(Left())[1..]), r, Left())
      ensures View() == AttemptAt(old(Left()), old(View()))
      decreases |text| - cur, 2
    {
      hide Append, Truncate, CallBack, JsonWalk.Valid, ItemsOf, AttemptItems, SkipWs, ItemsLink;
      CallBackLength(View(), ArrayStart, "");
      Report(ArrayStart, "");
      Advance();
      ghost var all, end := ItemsOf(Left()), AttemptItems(Left(), 0, View());
      var n := MarkState();
      ItemsStart(Left(), View());
      r := ArrayLoop(all, end);
      if r == 0 {
        TruncatePath(n);
        Report(ArrayEnd, "");
      }
    }

    lemma ItemsStart(t: string, w: Walker)
      requires JsonWalk.Valid(w)
      ensures ItemsLink(ItemsOf(t), AttemptItems(t, 0, w), t, 0, w)
    {
      hide ItemsOf, AttemptItems;
    }

    method ArrayLoop(ghost all: Parsed<Items>, ghost end: Walker) returns (r: int)
      requires Valid() && ItemsLink(all, end, Left(), 0, View())
      modifies this, path
      ensures Valid() && Meets(all, r, Left()) && View() == end
      decreases |text| - cur, 4
    {
      hide Append, Truncate, CallBack, JsonWalk.Valid, Attempt, SkipWs, SkipComma, ItemsLink, EnterItem, Value;
      var i := 0;
      ItemsLinkAgain(all, end, Left(), 0, View());
      var ch := Current();
      while ch != Some(']')
        invariant Valid() && cur >= old(cur) && JsonGrammar.AtToken(Left())
        invariant ch == if Left() == "" then None else Some(Left()[0])
        invariant ItemsLink(all, end, Left(), i, View())
        decreases |text| - cur
      {
        ghost var w, u := View(), Left();
        ItemsTurn(all, end, u, i, w);
        ValidLength(w);
        var len := EnterElement(i);
        r := ParseValue();
        if r < 0 { return; }
        TruncatePath(len);
        i := i + 1;
        ItemsLinkAgain(all, end, SkipComma(Left()), i, View());
        ch := SkipSeparator();
      }
      ItemsDone(all, end, Left(), i, View());
      JsonGrammar.AtTokenSkips(Left());
      r := TestAndSkip(']');
    }

    method EnterElement(i: nat) returns (len: nat)
      requires Valid()
      modifies this`pathLen, this`name, path
      ensures Valid() && len == old(pathLen) && View() == EnterItem(old(View()), i)
    {
      hide Append, Index;
      var buf := Index(i);
      DigitsOnly(i);
      len := AppendToPath(buf);
      SetName(InPath(|CString(path[..])| - |buf| + 1, |buf| - 2));
    }

    /** An optional comma, and on to what follows it. */
    method SkipSeparator() returns (ch: Option<char>)
      requires Valid()
      modifies this`cur
      ensures Valid() && cur >= old(cur) && Left() == SkipWs(SkipComma(old(Left())))
      ensures JsonGrammar.AtToken(Left())
      ensures ch == if Left() == "" then None else Some(Left()[0])
    {
      hide SkipWs;
      ch := Current();
      if ch == Some(',') { Advance(); } else { JsonGrammar.AtTokenSkips(Left()); }
      ch := Current();
    }

    /** json_parse_key and the colon after it; the name is the raw key. */
    method ParseKey() returns (r: int, ghost key: string)
      requires Valid()
      modifies this, path
      ensures Valid() && cur >= old(cur)
      ensures MeetsLex(Key(SkipWs(old(Left()))), r, Left())
      ensures r == 0 ==> key == Key(SkipWs(old(Left()))).raw
      ensures r == 0 ==> View() == CallBack(old(View()), Scalars(KString), key)
      ensures r < 0 ==> View() == old(View())
    {
      hide Append, Truncate, CallBack, JsonWalk.Valid, StringBody, SkipWs, Run;
      key := "";
      var ch := Current();
      match ch
      case None => r := INCOMPLETE;
      case Some(c) =>
        if IsAlpha(c) {
          RunWord(Left());
          key := Run(IsWord, Left()).raw;
          ParseIdentifier();
          r := 0;
        } else if c == '"' {
          if StringBody(Left()[1..]).Lexed? { key := StringBody(Left()[1..]).raw; }
          r := ParseString();
        } else {
          r := INVALID;
        }
    }

    lemma RunWord(t: string)
      requires t != "" && IsAlpha(t[0])
      ensures Run(IsWord, t).Lexed?
    {
    }

    method ParseIdentifier()
      requires Valid() && Left() != "" && IsAlpha(Left()[0])
      modifies this, path
      ensures Valid() && cur >= old(cur)
      ensures var l := Run(IsWord, old(Left()));
        l.Lexed? && l.rest == Left() && View() == CallBack(old(View()), Scalars(KString), l.raw)
    {
      hide Append, Truncate, CallBack, JsonWalk.Valid;
      var n := MarkState();
      var start := cur;
      SkipWhile(IsWord);
      ReportScalar(n, KString, text[start..cur]);
    }

    /** A pair at the first character of its key. */
    method ParsePair() returns (r: int)
      requires Valid()
      modifies this, path
      ensures Valid()
      ensures Meets(PairOf(old(Left())), r, Left())
      ensures r < 0 ==> View() == AttemptPair(old(Left()), old(View()))
      ensures r == 0 ==> View() == Truncate(AttemptPair(old(Left()), old(View())), old(pathLen))
      decreases |text| - cur, 5
    {
      hide JsonWalk.Valid, Key, SkipWs, Attempt, Value, EnterMember, Truncate;
      ValidLength(View());
      var len;
      ghost var key;
      r, len, key := EnterPair();
      if r < 0 { return; }
      r := TestAndSkip(':');
      if r < 0 { return; }
      r := ParseValue();
      if r < 0 { return; }
      TruncatePath(len);
    }

    method EnterPair() returns (r: int, len: nat, ghost key: string)
      requires Valid()
      modifies this, path
      ensures Valid() && cur >= old(cur)
      ensures MeetsLex(Key(SkipWs(old(Left()))), r, Left())
      ensures r == 0 ==> key == Key(SkipWs(old(Left()))).raw && len == old(pathLen) < PATH_SIZE
      ensures r == 0 ==> View() == EnterMember(old(View()), key)
      ensures r < 0 ==> View() == old(View())
    {
      hide Append, CallBack, JsonWalk.Valid, Key, SkipWs;
      CallBackLength(View(), Scalars(KString), "");
      len := 0;
      SkipWhitespaces();
      JsonGrammar.AtTokenSkips(Left());
      var tok := cur;
      r, key := ParseKey();
      if r < 0 { return; }
      CallBackLength(old(View()), Scalars(KString), key);
      len := PushName(tok, key);
    }

    /** The key that was read from tok on becomes the name and a part of the path. */
    method PushName(tok: nat, ghost key: string) returns (len: nat)
      requires Valid() && tok <= cur
      requires Key(text[tok..]).Lexed? && Key(text[tok..]).rest == Left() && key == Key(text[tok..]).raw
      modifies this`name, this`pathLen, path
      ensures Valid() && len == old(pathLen)
      ensures View() == Append(old(View()).(name := InText(key)), key)
    {
      hide Append, JsonWalk.Valid, Key;
      KeyRaw(tok);
      var n := if text[tok] == '"' then text[tok + 1..cur - 1] else text[tok..cur];
      SetName(InText(n));
      len := AppendToPath(n);
    }

    lemma KeyRaw(tok: nat)
      requires tok <= cur <= |text| && Key(text[tok..]).Lexed? && Key(text[tok..]).rest == text[cur..]
      ensures tok < cur
      ensures text[tok] == '"' ==> tok + 1 < cur && text[tok + 1..cur - 1] == Key(text[tok..]).raw
      ensures text[tok] != '"' ==> text[tok..cur] == Key(text[tok..]).raw
    {
      var t := text[tok..];
      if t[0] == '"' {
        var raw := Key(t).raw;
        assert t[1..] == raw + "\"" + text[cur..];
        assert |t| == |text| - tok;
        assert t[1..][..|raw|] == raw;
        assert text[tok + 1..cur - 1] == t[1..][..|raw|];
      } else {
        TookRaw(tok, Key(t));
      }
    }

    method ParseObject() returns (r: int)
      requires Valid() && Starts('{', Left())
      modifies this, path
      ensures Valid() && Meets(MembersOf(old(Left())[1..]), r, Left())
      ensures View() == AttemptAt(old(Left()), old(View()))
      decreases |text| - cur, 2
    {
      hide Append, Truncate, CallBack, JsonWalk.Valid, MembersOf, AttemptMembers, SkipWs, MembersLink;
      CallBackLength(View(), ObjectStart, "");
      Report(ObjectStart, "");
      Advance();
      var n := AppendToPath(".");
      ghost var all, end := MembersOf(Left()), AttemptMembers(Left(), View());
      MembersStart(Left(), View());
      r := ObjectLoop(all, end);
      if r == 0 {
        TruncatePath(n);
        Report(ObjectEnd, "");
      }
    }

    lemma MembersStart(t: string, w: Walker)
      requires JsonWalk.Valid(w)
      ensures MembersLink(MembersOf(t), AttemptMembers(t, w), t, w)
    {
      hide MembersOf, AttemptMembers;
    }

    method ObjectLoop(ghost all: Parsed<Members>, ghost end: Walker) returns (r: int)
      requires Valid() && MembersLink(all, end, Left(), View())
      modifies this, path
      ensures Valid() && Meets(all, r, Left()) && View() == end
      decreases |text| - cur, 6
    {
      hide Append, Truncate, CallBack, JsonWalk.Valid, AttemptPair, SkipWs, SkipComma, MembersLink, PairOf;
      MembersLinkAgain(all, end, Left(), View());
      var ch := Current();
      while ch != Some('}')
        invariant Valid() && cur >= old(cur) && JsonGrammar.AtToken(Left())
        invariant ch == if Left() == "" then None else Some(Left()[0])
        invariant MembersLink(all, end, Left(), View())
        decreases |text| - cur
      {
        ghost var w, u := View(), Left();
        MembersTurn(all, end, u, w);
        PairShorter(u);
        r := ParsePair();
        if r < 0 { return; }
        MembersLinkAgain(all, end, SkipComma(Left()), View());
        ch := SkipSeparator();
      }
      MembersDone(all, end, Left(), View());
      JsonGrammar.AtTokenSkips(Left());
      r := TestAndSkip('}');
    }
  }

  /**
   * json_walk: the number of characters taken, or an error, and the calls made;
   * for a rejected text those made before the error.
   */
  method JsonWalkText(s: string) returns (n: int, log: seq<Event>)
    ensures log == Attempt(s, Start()).log
    ensures match Value(s)
      case Parsed(j, rest) => n == |s| - |rest| > 0 && log == JsonWalk.Report(j)
      case Err(c) => n == c < 0
  {
    hide Value, Walk, Attempt;
    var f := new Frozen(s);
    assert f.Left() == s;
    n := f.ParseValue();
    log := f.log;
    if n == 0 {
      n := f.cur;
      AttemptParsed(s, Start());
    }
  }

  class Prettifier {
    var level: int
    var last: Option<TokenType>
    var out: string

    function View(): JsonPretty.Printer
      reads this
    {
      JsonPretty.Printer(level, last, out)
    }

    constructor ()
      ensures View() == JsonPretty.Blank
    {
      level, last, out := 0, None, "";
    }

    method Print(s: string)
      modifies this`out
      ensures out == old(out) + s
    {
      out := out + s;
    }

    method PrintIndent(depth: int)
      modifies this`out
      ensures out == old(out) + JsonPretty.Indent(depth)
    {
      var k := depth;
      assert out == old(out) + "";
      while k > 0
        invariant out + JsonPretty.Indent(k) == old(out) + JsonPretty.Indent(depth)
      {
        assert out + "  " + JsonPretty.Indent(k - 1) == out + JsonPretty.Indent(k);
        Print("  ");
        k := k - 1;
      }
      assert out + "" == out;
    }

    method PrintKey(path: string, name: Option<string>)
      modifies this`out
      ensures out == old(out) + JsonPretty.KeyText(old(View()), path, name)
    {
      hide JsonPretty.Indent;
      ghost var o := out;
      var comma := last != None && last != Some(ArrayStart) && last != Some(ObjectStart);
      var keyed := path != "" && path[|path| - 1] != ']';
      if comma { Print(","); }
      if path != "" { Print("\n"); }
      PrintIndent(level);
      if keyed { PrintQuoted(match name case Some(n) => n case None => ""); }
      KeyTextParts(o, View(), path, name);
    }

    method PrintQuoted(name: string)
      modifies this`out
      ensures out == old(out) + (JsonGrammar.Quoted(name) + ": ")
    {
      Print("\"");
      Print(name);
      Print("\"");
      Print(": ");
    }

    lemma KeyTextParts(o: string, p: JsonPretty.Printer, path: string, name: Option<string>)
      ensures var comma := p.last != None && p.last != Some(ArrayStart) && p.last != Some(ObjectStart);
        var o1 := if comma then o + "," else o;
        var o2 := if path != "" then o1 + "\n" else o1;
        var o3 := o2 + JsonPretty.Indent(p.level);
        var k := JsonGrammar.Quoted(match name case Some(n) => n case None => "") + ": ";
        o + JsonPretty.KeyText(p, path, name) == if path != "" && path[|path| - 1] != ']' then o3 + k else o3
    {
      hide JsonPretty.Indent, JsonGrammar.Quoted;
      var a := if JsonPretty.NeedsComma(p.last) then "," else "";
      var b := if path != "" then "\n" else "";
      var i := JsonPretty.Indent(p.level);
      var k := if path != "" && path[|path| - 1] != ']'
        then JsonGrammar.Quoted(match name case Some(n) => n case None => "") + ": " else "";
      assert JsonPretty.KeyText(p, path, name) == a + (b + (i + k));
      Four(o, a, b, i, k);
      assert o + "" == o && o + a + "" == o + a && o + a + b + i + "" == o + a + b + i;
    }

    lemma Four(o: string, a: string, b: string, i: string, k: string)
      ensures o + (a + (b + (i + k))) == o + a + b + i + k
    {
      assert a + (b + (i + k)) == a + b + i + k;
    }

    /** prettify_cb */
    method Callback(e: Event)
      modifies this
      ensures View() == JsonPretty.Step(old(View()), e)
    {
      hide JsonPretty.KeyText, JsonPretty.Indent;
      match e.token {
        case ArrayStart =>
          PrintKey(e.path, e.name);
          Print("[");
          level := level + 1;
        case ObjectStart =>
          PrintKey(e.path, e.name);
          Print("{");
          level := level + 1;
        case ArrayEnd => Close("]");
        case ObjectEnd => Close("}");
        case Scalars(k) =>
          PrintKey(e.path, e.name);
          ghost var o := out;
          if k == KString { Print("\""); }
          Print(e.raw);
          if k == KString { Print("\""); }
          assert out == o + JsonGrammar.ScalarText(k, e.raw);
      }
      last := Some(e.token);
    }

    method Close(bracket: string)
      modifies this`level, this`out
      ensures level == old(level) - 1
      ensures out == old(out) + JsonPretty.CloseText(last, old(level) - 1, bracket)
    {
      hide JsonPretty.Indent;
      level := level - 1;
      ghost var o := out;
      if last != None && last != Some(ArrayStart) && last != Some(ObjectStart) {
        Print("\n");
        PrintIndent(level);
      }
      Print(bracket);
      assert out == o + JsonPretty.CloseText(last, level, bracket);
    }
  }

  /**
   * json_prettify: the output of the callback over the walk. For accepted texts
   * with paths that fit, the output means what the text meant exactly when the
   * document survives: hidden keys hide nothing that is reported and end no
   * object, and no other key ends in a closing bracket.
   */
  method JsonPrettify(s: string) returns (n: int, out: string)
    ensures out == JsonPretty.Print(Attempt(s, Start()).log)
    ensures match Value(s)
      case Err(c) => n == c < 0
      case Parsed(j, rest) =>
        n == |s| - |rest| && out == JsonPretty.Print(JsonWalk.Report(j)) &&
        (Fits(j, "") ==> (JsonHidden.Survives(j) <==> JsonMeaning.Walks(out, JsonWalk.Report(j))))
  {
    hide Value, Attempt, JsonWalk.Report, Fits, JsonHidden.Survives, JsonPretty.Step, JsonMeaning.Walks, JsonPretty.Print;
    var log;
    n, log := JsonWalkText(s);
    var pd := new Prettifier();
    var k := 0;
    assert log[0..] == log;
    while k < |log|
      invariant 0 <= k <= |log|
      invariant JsonPretty.Feed(pd.View(), log[k..]) == JsonPretty.Feed(JsonPretty.Blank, log)
    {
      assert log[k..][1..] == log[k + 1..];
      pd.Callback(log[k]);
      k := k + 1;
    }
    assert log[k..] == [];
    out := pd.out;
    FeedIsPrint(log);
    if Value(s).Parsed? && Fits(Value(s).value, "") {
      JsonMeaning.PrettifyPreservesMeaning(s);
    }
  }

  lemma FeedIsPrint(log: seq<Event>)
    ensures JsonPretty.Print(log) == JsonPretty.Feed(JsonPretty.Blank, log).out
  {
  }
}
