/**
 * The JSON pretty printer (armsrc/frozen.c:1282-1351): a callback that turns the
 * walker's reports back into text, and the proof of what its output means.
 */
module JsonPretty {
  import opened Types
  import opened JsonParse
  import opened JsonGrammar
  import opened JsonWalk

  /** struct prettify_data, with the text printed so far. */
  datatype Printer = Printer(level: int, last: Option<TokenType>, out: string)

  function Indent(level: int): string
    decreases level
  {
    if level <= 0 then "" else "  " + Indent(level - 1)
  }

  predicate Opens(t: TokenType) { t == ArrayStart || t == ObjectStart }
  predicate NeedsComma(last: Option<TokenType>) { last.Some? && !Opens(last.value) }

  /** The text print_key puts before a value. */
  function KeyText(p: Printer, path: string, name: Option<string>): string
  {
    (if NeedsComma(p.last) then "," else "") +
    ((if path != "" then "\n" else "") +
     (Indent(p.level) +
      (if path != "" && path[|path| - 1] != ']'
       then Quoted(match name case Some(n) => n case None => "") + ": " else "")))
  }

  function CloseText(last: Option<TokenType>, level: int, bracket: string): string
  {
    (if NeedsComma(last) then "\n" + Indent(level) else "") + bracket
  }

  function Step(p: Printer, e: Event): Printer
  {
    match e.token
    case ArrayStart => Printer(p.level + 1, Some(e.token), p.out + KeyText(p, e.path, e.name) + "[")
    case ObjectStart => Printer(p.level + 1, Some(e.token), p.out + KeyText(p, e.path, e.name) + "{")
    case ArrayEnd => Printer(p.level - 1, Some(e.token), p.out + CloseText(p.last, p.level - 1, "]"))
    case ObjectEnd => Printer(p.level - 1, Some(e.token), p.out + CloseText(p.last, p.level - 1, "}"))
    case Scalars(k) => Printer(p.level, Some(e.token), p.out + KeyText(p, e.path, e.name) + ScalarText(k, e.raw))
  }

  function Feed(p: Printer, es: seq<Event>): Printer
    decreases |es|
  {
    if es == [] then p else Feed(Step(p, es[0]), es[1..])
  }

  const Blank: Printer := Printer(0, None, "")

  function Print(es: seq<Event>): string { Feed(Blank, es).out }

  lemma {:induction false} FeedAppend(p: Printer, a: seq<Event>, b: seq<Event>)
    ensures Feed(p, a + b) == Feed(Feed(p, a), b)
    decreases |a|
  {
    hide Step;
    if a == [] {
      assert a + b == b;
    } else {
      assert (a + b)[1..] == a[1..] + b && (a + b)[0] == a[0];
      FeedAppend(Step(p, a[0]), a[1..], b);
    }
  }

  // ---- The text of a tree -------------------------------------------------

  function NewLine(level: int): string { "\n" + Indent(level) }

  /** A key whose path ends like an array element's is not printed. */
  predicate Bracketed(key: string) { key != "" && key[|key| - 1] == ']' }

  function KeyPart(key: string): string { if Bracketed(key) then "" else Quoted(key) + ": " }

  function Printed(j: Json, level: nat): string
    decreases j
  {
    match j
    case Scalar(k, raw) => ScalarText(k, raw)
    case Arr(items) => "[" + PrintedItems(items, level + 1, true)
    case Obj(ms) => "{" + PrintedMembers(ms, level + 1, true)
  }
  function PrintedItems(items: Items, level: nat, first: bool): string
    decreases items
  {
    match items
    case NoItems => (if first then "" else NewLine(level - 1)) + "]"
    case Item(v, more) =>
      NewLine(level) + (Printed(v, level) + ((if more.NoItems? then "" else ",") + PrintedItems(more, level, false)))
  }
  function PrintedMembers(ms: Members, level: nat, first: bool): string
    decreases ms
  {
    match ms
    case NoMembers => (if first then "" else NewLine(level - 1)) + "}"
    case Member(key, v, more) =>
      NewLine(level) + (KeyPart(key) + (Printed(v, level) +
        ((if more.NoMembers? then "" else ",") + PrintedMembers(more, level, false))))
  }

  // ---- What becomes of hidden keys ------------------------------------------

  /**
   * The tree that gets printed. A hidden member is not reported itself; what is
   * reported from inside it stands where the member stood: the members of an
   * object, and the elements of an array, which have no key ("]" prints as none).
   */
  function Flat(j: Json): Json
    decreases j
  {
    match j
    case Scalar(_, _) => j
    case Arr(items) => Arr(FlatItems(items))
    case Obj(ms) => Obj(FlatMembers(ms, NoMembers))
  }
  function FlatItems(items: Items): Items
    decreases items
  {
    match items
    case NoItems => NoItems
    case Item(v, more) => Item(Flat(v), FlatItems(more))
  }
  /** The members that come from ms, before those of tail. */
  function FlatMembers(ms: Members, tail: Members): Members
    decreases ms
  {
    match ms
    case NoMembers => tail
    case Member(key, v, more) =>
      if Hidden(key) then Leaked(v, FlatMembers(more, tail))
      else Member(key, Flat(v), FlatMembers(more, tail))
  }
  function Leaked(v: Json, tail: Members): Members
    decreases v
  {
    match v
    case Scalar(_, _) => tail
    case Arr(items) => LeakedItems(items, tail)
    case Obj(ms) => FlatMembers(ms, tail)
  }
  function LeakedItems(items: Items, tail: Members): Members
    decreases items
  {
    match items
    case NoItems => tail
    case Item(v, more) => Member("]", Flat(v), LeakedItems(more, tail))
  }

  // ---- The printer prints it ----------------------------------------------

  /** p has printed text since, is at the same level and inside nothing new. */
  predicate Wrote(p: Printer, r: Printer, text: string)
  {
    r.level == p.level && NeedsComma(r.last) && r.out == p.out + text
  }

  lemma {:induction false} PrintsValue(j: Json, p: Printer, path: string, name: Option<string>)
    requires Reports(path) && p.level >= 0
    ensures Wrote(p, Feed(p, Reported(j, path, name).es), KeyText(p, path, name) + Printed(Flat(j), p.level))
    decreases j, 1
  {
    hide KeyText, Reported, Printed, ScalarText, Feed, Wrote, Flat, Reports;
    match j
    case Scalar(k, raw) => PrintsScalar(k, raw, p, path, name);
    case Arr(_) => PrintsArray(j, p, path, name);
    case Obj(_) => PrintsObject(j, p, path, name);
  }

  lemma {:induction false} PrintsArray(j: Json, p: Printer, path: string, name: Option<string>)
    requires j.Arr? && Reports(path) && p.level >= 0
    ensures Wrote(p, Feed(p, Reported(j, path, name).es), KeyText(p, path, name) + Printed(Flat(j), p.level))
    decreases j, 0
  {
    hide KeyText, CloseText, Indent, Feed, PrintedItems, ReportedItems, Wrote, Reports, FlatItems;
    var e := Event(ArrayStart, name, path, "");
    var text := PrintedItems(FlatItems(j.items), p.level + 1, true);
    PrintsItems(j.items, 0, Step(p, e), path, None, true);
    var b := ReportedItems(j.items, 0, path, None);
    PrintsBracket(p, e, b.es, Event(ArrayEnd, b.name, path, ""), KeyText(p, path, name) + "[", text);
    assert KeyText(p, path, name) + "[" + text == KeyText(p, path, name) + ("[" + text);
  }

  lemma {:induction false} PrintsObject(j: Json, p: Printer, path: string, name: Option<string>)
    requires j.Obj? && Reports(path) && p.level >= 0
    ensures Wrote(p, Feed(p, Reported(j, path, name).es), KeyText(p, path, name) + Printed(Flat(j), p.level))
    decreases j, 0
  {
    hide KeyText, CloseText, Indent, Feed, PrintedMembers, ReportedMembers, Wrote, Reports, FlatMembers, Due;
    var e := Event(ObjectStart, name, path, "");
    var flat := FlatMembers(j.members, NoMembers);
    var text := PrintedMembers(flat, p.level + 1, true);
    PrintsMembers(j.members, Step(p, e), path, None, NoMembers);
    var b := ReportedMembers(j.members, path, None);
    DueAtEnd(Feed(Step(p, e), b.es));
    DueAtStart(Step(p, e), flat);
    PrintsBracket(p, e, b.es, Event(ObjectEnd, b.name, path, ""), KeyText(p, path, name) + "{", text);
    assert KeyText(p, path, name) + "{" + text == KeyText(p, path, name) + ("{" + text);
  }

  lemma PrintsScalar(k: Kind, raw: string, p: Printer, path: string, name: Option<string>)
    requires Reports(path) && p.level >= 0
    ensures Wrote(p, Feed(p, Reported(Scalar(k, raw), path, name).es),
                  KeyText(p, path, name) + Printed(Flat(Scalar(k, raw)), p.level))
  {
    hide KeyText, ScalarText, Feed, Reports;
    var e := Event(Scalars(k), name, path, raw);
    FeedOne(p, e);
    assert p.out + (KeyText(p, path, name) + ScalarText(k, raw)) == p.out + KeyText(p, path, name) + ScalarText(k, raw);
  }

  /** An opening bracket, what is inside, and the closing bracket. */
  lemma PrintsBracket(p: Printer, e: Event, inside: seq<Event>, close: Event, open: string, text: string)
    requires Step(p, e).out == p.out + open && Step(p, e).level == p.level + 1
    requires close.token == ArrayEnd || close.token == ObjectEnd
    requires var r := Feed(Step(p, e), inside);
      r.level == p.level + 1 &&
      r.out + CloseText(r.last, r.level - 1, if close.token == ArrayEnd then "]" else "}") == Step(p, e).out + text
    ensures Wrote(p, Feed(p, [e] + inside + [close]), open + text)
  {
    hide KeyText, CloseText;
    FeedAppend(p, [e] + inside, [close]);
    FeedAppend(p, [e], inside);
    FeedOne(p, e);
    FeedOne(Feed(Step(p, e), inside), close);
    assert p.out + open + text == p.out + (open + text);
  }

  lemma FeedOne(p: Printer, e: Event)
    ensures Feed(p, [e]) == Step(p, e)
  {
    hide Step;
    assert [e][1..] == [];
    assert Feed(Step(p, e), []) == Step(p, e);
  }

  predicate First(p: Printer, first: bool) { p.last.Some? && Opens(p.last.value) == first }

  /** Before an array element, here or in a hidden array, no key is printed. */
  lemma ItemKeyText(p: Printer, path: string, i: nat, first: bool)
    requires First(p, first)
    ensures KeyText(p, path + Index(i), Some(Decimal(i))) == (if first then "" else ",") + NewLine(p.level)
  {
    hide Decimal;
    var q := path + Index(i);
    assert q[|q| - 1] == ']';
    assert NewLine(p.level) + "" == NewLine(p.level);
  }

  lemma MemberKeyText(p: Printer, path: string, key: string, first: bool)
    requires First(p, first) && key != ""
    ensures KeyText(p, path + "." + key, Some(key)) ==
            (if first then "" else ",") + (NewLine(p.level) + KeyPart(key))
  {
    var q := path + "." + key;
    assert q[|q| - 1] == key[|key| - 1];
    assert "\n" + (Indent(p.level) + KeyPart(key)) == NewLine(p.level) + KeyPart(key);
  }

  lemma {:induction false} PrintsItems(items: Items, i: nat, p: Printer, path: string, name: Option<string>, first: bool)
    requires p.level >= 1 && First(p, first)
    ensures var r := Feed(p, ReportedItems(items, i, path, name).es);
      r.level == p.level &&
      r.out + CloseText(r.last, r.level - 1, "]") ==
      p.out + ((if first || items.NoItems? then "" else ",") + PrintedItems(FlatItems(items), p.level, first))
    decreases items
  {
    hide KeyText, NewLine, Index, Printed, Reported, Reports, Flat;
    match items
    case NoItems => PrintsClose(p, first, "]");
    case Item(v, more) =>
      var q, n := path + Index(i), Some(Decimal(i));
      ItemReports(path, i);
      PrintsValue(v, p, q, n);
      var a := Reported(v, q, n);
      var r := Feed(p, a.es);
      FeedAppend(p, a.es, ReportedItems(more, i + 1, path, a.name).es);
      PrintsItems(more, i + 1, r, path, a.name, false);
      ItemKeyText(p, path, i, first);
      Regroup(p.out, if first then "" else ",", NewLine(p.level), Printed(Flat(v), p.level),
        (if more.NoItems? then "" else ",") + PrintedItems(FlatItems(more), p.level, false));
  }

  /** The closing bracket: on a line of its own, unless nothing stands inside. */
  lemma PrintsClose(p: Printer, first: bool, bracket: string)
    requires First(p, first)
    ensures p.out + CloseText(p.last, p.level - 1, bracket) ==
            p.out + ("" + ((if first then "" else NewLine(p.level - 1)) + bracket))
  {
    assert "" + (NewLine(p.level - 1) + bracket) == NewLine(p.level - 1) + bracket;
    assert "" + ("" + bracket) == bracket;
  }

  lemma Regroup(a: string, sep: string, nl: string, v: string, rest: string)
    ensures a + (sep + nl + v) + rest == a + (sep + (nl + (v + rest)))
  {
    assert sep + nl + v + rest == sep + (nl + (v + rest));
  }

  /** All that is printed up to the closing brace if ms is what is still to come. */
  function Due(p: Printer, ms: Members): string
    requires p.last.Some? && p.level >= 1
  {
    var first := Opens(p.last.value);
    p.out + ((if first || ms.NoMembers? then "" else ",") + PrintedMembers(ms, p.level, first))
  }

  lemma DueAtEnd(p: Printer)
    requires p.last.Some? && p.level >= 1
    ensures Due(p, NoMembers) == p.out + CloseText(p.last, p.level - 1, "}")
  {
    hide NewLine;
    PrintsClose(p, Opens(p.last.value), "}");
  }

  lemma DueAtStart(p: Printer, ms: Members)
    requires p.last == Some(ObjectStart) && p.level >= 1
    ensures Due(p, ms) == p.out + PrintedMembers(ms, p.level, true)
  {
    hide PrintedMembers;
    assert "" + PrintedMembers(ms, p.level, true) == PrintedMembers(ms, p.level, true);
  }

  /** One member printed. */
  lemma DueNext(p: Printer, r: Printer, key: string, v: Json, more: Members)
    requires p.last.Some? && p.level >= 1
    requires Wrote(p, r, (if Opens(p.last.value) then "" else ",") + (NewLine(p.level) + KeyPart(key)) + Printed(v, p.level))
    ensures Due(r, more) == Due(p, Member(key, v, more))
  {
    hide NewLine, KeyPart, Printed;
    var sep := if Opens(p.last.value) then "" else ",";
    var rest := (if more.NoMembers? then "" else ",") + PrintedMembers(more, p.level, false);
    Regroup(p.out, sep, NewLine(p.level) + KeyPart(key), Printed(v, p.level), rest);
    Assoc(NewLine(p.level), KeyPart(key), Printed(v, p.level) + rest);
  }

  /** The printer goes on as if only the flat members were there. */
  predicate Prints(p: Printer, r: Printer, ms: Members, tail: Members)
    requires p.last.Some? && p.level >= 1
  {
    r.level == p.level && r.last.Some? && Due(r, tail) == Due(p, ms)
  }

  lemma {:induction false} PrintsMembers(ms: Members, p: Printer, path: string, name: Option<string>, tail: Members)
    requires p.last.Some? && p.level >= 1
    ensures Prints(p, Feed(p, ReportedMembers(ms, path, name).es), FlatMembers(ms, tail), tail)
    decreases ms
  {
    hide KeyText, NewLine, Printed, Reported, KeyPart, Flat, Leaked, Due, Reports, Wrote;
    match ms
    case NoMembers =>
    case Member(key, v, more) =>
      var q, n, x := path + "." + key, Some(key), FlatMembers(more, tail);
      var a := Reported(v, q, n);
      var r := Feed(p, a.es);
      MemberReports(path, key);
      if Hidden(key) {
        PrintsLeaked(v, p, q, n, x);
      } else {
        PrintsValue(v, p, q, n);
        PrintsMember(p, r, path, key, v, x);
      }
      FeedAppend(p, a.es, ReportedMembers(more, path, a.name).es);
      PrintsMembers(more, r, path, a.name, tail);
  }

  lemma PrintsMember(p: Printer, r: Printer, path: string, key: string, v: Json, more: Members)
    requires p.last.Some? && p.level >= 1 && !Hidden(key)
    requires Wrote(p, r, KeyText(p, path + "." + key, Some(key)) + Printed(Flat(v), p.level))
    ensures Prints(p, r, Member(key, Flat(v), more), more)
  {
    hide KeyText, NewLine, Printed, KeyPart, Flat, Due;
    MemberKeyText(p, path, key, Opens(p.last.value));
    DueNext(p, r, key, Flat(v), more);
  }

  lemma {:induction false} PrintsLeaked(v: Json, p: Printer, path: string, name: Option<string>, tail: Members)
    requires p.last.Some? && p.level >= 1 && !Reports(path)
    ensures Prints(p, Feed(p, Reported(v, path, name).es), Leaked(v, tail), tail)
    decreases v
  {
    hide Due, Reports, FlatMembers, LeakedItems, ReportedItems, ReportedMembers;
    match v
    case Scalar(_, _) =>
    case Arr(items) =>
      PrintsLeakedItems(items, 0, p, path, name, tail);
      var es := ReportedItems(items, 0, path, name).es;
      assert [] + es + [] == es;
    case Obj(ms) =>
      PrintsMembers(ms, p, path, name, tail);
      var es := ReportedMembers(ms, path, name).es;
      assert [] + es + [] == es;
  }

  lemma {:induction false} PrintsLeakedItems(items: Items, i: nat, p: Printer, path: string, name: Option<string>,
                                             tail: Members)
    requires p.last.Some? && p.level >= 1
    ensures Prints(p, Feed(p, ReportedItems(items, i, path, name).es), LeakedItems(items, tail), tail)
    decreases items
  {
    hide KeyText, NewLine, Printed, Reported, KeyPart, Flat, Due, Reports, Index;
    match items
    case NoItems =>
    case Item(v, more) =>
      var q, n, x := path + Index(i), Some(Decimal(i)), LeakedItems(more, tail);
      var a := Reported(v, q, n);
      var r := Feed(p, a.es);
      ItemReports(path, i);
      PrintsValue(v, p, q, n);
      ItemKeyText(p, path, i, Opens(p.last.value));
      NoKeyPart(p.level);
      DueNext(p, r, "]", Flat(v), x);
      FeedAppend(p, a.es, ReportedItems(more, i + 1, path, a.name).es);
      PrintsLeakedItems(more, i + 1, r, path, a.name, tail);
  }

  lemma NoKeyPart(level: int)
    ensures NewLine(level) + KeyPart("]") == NewLine(level)
  {
    hide NewLine;
    assert NewLine(level) + "" == NewLine(level);
  }

  lemma PrintsDocument(j: Json)
    requires Fits(j, "")
    ensures Print(Report(j)) == Printed(Flat(j), 0)
  {
    hide Report, Fits, Printed, Feed, Reported, Flat;
    DocumentReports(j);
    PrintsValue(j, Blank, "", None);
    assert KeyText(Blank, "", None) == "";
    assert "" + ("" + Printed(Flat(j), 0)) == Printed(Flat(j), 0);
  }

  // ---- What the printed text means ----------------------------------------

  /** No key ends in a closing bracket. */
  predicate Unbracketed(j: Json)
  {
    match j
    case Scalar(_, _) => true
    case Arr(items) => ItemsUnbracketed(items)
    case Obj(ms) => MembersUnbracketed(ms)
  }
  predicate ItemsUnbracketed(items: Items)
  {
    match items
    case NoItems => true
    case Item(v, more) => Unbracketed(v) && ItemsUnbracketed(more)
  }
  predicate MembersUnbracketed(ms: Members)
  {
    match ms
    case NoMembers => true
    case Member(key, v, more) => !Bracketed(key) && Unbracketed(v) && MembersUnbracketed(more)
  }

  /** All tokens of the tree are tokens the parser reads. */
  predicate Tokens(j: Json)
  {
    match j
    case Scalar(k, raw) => Token(k, raw)
    case Arr(items) => ItemTokens(items)
    case Obj(ms) => MemberTokens(ms)
  }
  predicate ItemTokens(items: Items)
  {
    match items
    case NoItems => true
    case Item(v, more) => Tokens(v) && ItemTokens(more)
  }
  predicate MemberTokens(ms: Members)
  {
    match ms
    case NoMembers => true
    case Member(key, v, more) => Token(KString, key) && Tokens(v) && MemberTokens(more)
  }

  lemma ScalarToken(u: string)
    requires u != "" && ScalarOf(u).Parsed?
    ensures Tokens(ScalarOf(u).value)
  {
    hide StringBody, Number, Expect;
    if u[0] == '"' {
      StringLocal(u[1..], "");
      var r := StringBody(u[1..]).raw;
      assert r + "\"" + "" == r + "\"";
    } else if StartsNumber(u[0]) {
      NumberLocal(u, "");
      assert Number(u).raw + "" == Number(u).raw;
      NumberHead(u);
    }
  }

  lemma NumberHead(u: string)
    requires u != "" && Number(u).Lexed?
    ensures Number(u).raw[0] == u[0]
  {
    hide Number;
  }

  lemma {:induction false} WordIsString(w: string)
    requires forall i :: 0 <= i < |w| ==> IsWord(w[i])
    ensures Token(KString, w)
  {
    var t := w + "\"";
    if w != "" {
      WordIsString(w[1..]);
      assert t[1..] == w[1..] + "\"";
      assert CharStep(t) == 1;
      assert t[..1] + w[1..] == w;
    }
  }

  lemma KeyToken(t: string)
    requires Key(t).Lexed?
    ensures Token(KString, Key(t).raw)
  {
    hide StringBody;
    if IsAlpha(t[0]) {
      WordIsString(Key(t).raw);
    } else {
      StringLocal(t[1..], "");
      var r := Key(t).raw;
      assert r + "\"" + "" == r + "\"";
    }
  }

  lemma {:induction false} ValueTokens(t: string)
    requires Value(t).Parsed?
    ensures Tokens(Value(t).value)
    decreases |t|, 1
  {
    hide Token, ScalarOf, SkipWs, ItemsOf, MembersOf;
    var u := SkipWs(t);
    if u[0] == '{' { MembersTokens(u[1..]); }
    else if u[0] == '[' { ItemsTokens(u[1..]); }
    else { ScalarToken(u); }
  }

  lemma {:induction false} ItemsTokens(t: string)
    requires ItemsOf(t).Parsed?
    ensures ItemTokens(ItemsOf(t).value)
    decreases |t|, 3
  {
    hide Token, SkipWs, SkipComma, Value, Tokens;
    var u := SkipWs(t);
    if !Starts(']', u) {
      ValueTokens(u);
      ItemsTokens(SkipComma(Value(u).rest));
    }
  }

  lemma {:induction false} MembersTokens(t: string)
    requires MembersOf(t).Parsed?
    ensures MemberTokens(MembersOf(t).value)
    decreases |t|, 3
  {
    hide Token, SkipWs, SkipComma, Value, Tokens, Key;
    var u := SkipWs(t);
    if !Starts('}', u) {
      var k := KeyColon(u);
      KeyToken(SkipWs(u));
      ValueTokens(k.rest);
      MembersTokens(SkipComma(Value(k.rest).rest));
    }
  }

  /** The concrete tree the printer writes down. */
  function Pretty(j: Json, level: nat): Cst
    decreases j
  {
    match j
    case Scalar(k, raw) => CScalar(k, raw)
    case Arr(items) => CArray(PrettyItems(items, level + 1, true))
    case Obj(ms) => CObject(PrettyMembers(ms, level + 1, true))
  }
  function PrettyItems(items: Items, level: nat, first: bool): CItems
    decreases items
  {
    match items
    case NoItems => CEnd(if first then "" else NewLine(level - 1))
    case Item(v, more) =>
      CItem(NewLine(level), Pretty(v, level), "", more.Item?, PrettyItems(more, level, false))
  }
  function PrettyMembers(ms: Members, level: nat, first: bool): CMembers
    decreases ms
  {
    match ms
    case NoMembers => CClose(if first then "" else NewLine(level - 1))
    case Member(key, v, more) =>
      CMember(NewLine(level), false, key, "", " ", Pretty(v, level), "", more.Member?, PrettyMembers(more, level, false))
  }

  /** Two blanks for every level. */
  lemma {:induction false} IndentSpaces(level: int)
    ensures AllSpace(Indent(level)) && |Indent(level)| == if level > 0 then 2 * level else 0
    ensures forall i :: 0 <= i < |Indent(level)| ==> Indent(level)[i] == ' '
    decreases level
  {
    if level > 0 { IndentSpaces(level - 1); }
  }

  lemma NewLines()
    ensures NewLine(0) == "\n" && NewLine(1) == "\n  " && NewLine(2) == "\n    "
  {
    assert Indent(2) == "  " + Indent(1) && Indent(1) == "  " + Indent(0) && Indent(0) == "";
  }

  lemma ItemsLayout()
    ensures PrintedItems(Item(Scalar(KNumber, "1"), Item(Obj(NoMembers), NoItems)), 2, true) == "\n    1,\n    {}\n  ]"
  {
    hide NewLine;
    NewLines();
    var one, none := Scalar(KNumber, "1"), Obj(NoMembers);
    assert Printed(none, 2) == "{}" && Printed(one, 2) == "1";
    assert PrintedItems(NoItems, 2, false) == "\n  ]";
    assert PrintedItems(Item(none, NoItems), 2, false) == "\n    {}\n  ]";
  }

  /** {"a": [1, {}]} over six lines. */
  lemma Layout()
    ensures Printed(Obj(Member("a", Arr(Item(Scalar(KNumber, "1"), Item(Obj(NoMembers), NoItems))), NoMembers)), 0)
      == "{\n  \"a\": [\n    1,\n    {}\n  ]\n}"
  {
    hide Printed, PrintedItems;
    ItemsLayout();
    var items := Item(Scalar(KNumber, "1"), Item(Obj(NoMembers), NoItems));
    ArrayLayout(items);
    MemberLayout(Arr(items));
  }

  lemma ArrayLayout(items: Items)
    ensures Printed(Arr(items), 1) == "[" + PrintedItems(items, 2, true)
  {
  }

  lemma MemberLayout(v: Json)
    ensures Printed(Obj(Member("a", v, NoMembers)), 0) == "{" + ("\n  " + ("\"a\": " + (Printed(v, 1) + "\n}")))
  {
    NewLines();
    hide NewLine, PrintedItems;
    assert PrintedMembers(NoMembers, 1, false) == "\n}";
    assert "" + "\n}" == "\n}";
    assert KeyPart("a") == "\"a\": ";
  }

  lemma NewLineSpaces(level: int)
    ensures AllSpace(NewLine(level)) && NewLine(level) != ""
  {
    IndentSpaces(level);
  }

  /** The concrete tree is well formed, denotes j, and is what is printed for j. */
  predicate PrettyLaw(j: Json, level: nat)
  {
    var c := Pretty(j, level);
    WellFormed(c) && Tree(c) == j && (Unbracketed(j) ==> Text(c) == Printed(j, level))
  }

  lemma {:induction false} PrettyIs(j: Json, level: nat)
    requires Tokens(j)
    ensures PrettyLaw(j, level)
    decreases j
  {
    hide Token, ScalarText;
    match j
    case Scalar(k, raw) =>
    case Arr(items) => PrettyItemsAre(items, level + 1, true);
    case Obj(ms) => PrettyMembersAre(ms, level + 1, true);
  }

  lemma {:induction false} PrettyItemsAre(items: Items, level: nat, first: bool)
    requires ItemTokens(items)
    ensures var c := PrettyItems(items, level, first);
      WellFormedItems(c) && TreeItems(c) == items &&
      (ItemsUnbracketed(items) ==> ItemsText(c) == PrintedItems(items, level, first))
    decreases items
  {
    hide Token, Pretty, Printed, NewLine, AllSpace, Text, WellFormed, Tokens;
    NewLineSpaces(level);
    NewLineSpaces(level - 1);
    NoSpaces();
    if items.Item? {
      PrettyIs(items.v, level);
      PrettyItemsAre(items.more, level, false);
      var y := (if items.more.NoItems? then "" else ",") + PrintedItems(items.more, level, false);
      assert "" + y == y;
    }
  }

  lemma NoSpaces()
    ensures AllSpace("") && AllSpace(" ")
  {
  }

  lemma {:induction false} PrettyMembersAre(ms: Members, level: nat, first: bool)
    requires MemberTokens(ms)
    ensures var c := PrettyMembers(ms, level, first);
      WellFormedMembers(c) && TreeMembers(c) == ms &&
      (MembersUnbracketed(ms) ==> MembersText(c) == PrintedMembers(ms, level, first))
    decreases ms
  {
    hide Token, Pretty, Printed, NewLine, AllSpace, Text, WellFormed, Tokens, Quoted, Bracketed;
    NewLineSpaces(level);
    NewLineSpaces(level - 1);
    NoSpaces();
    if ms.Member? {
      PrettyIs(ms.v, level);
      PrettyMembersAre(ms.more, level, false);
      var y := (if ms.more.NoMembers? then "" else ",") + PrintedMembers(ms.more, level, false);
      KeyRegroup(ms.key, Text(Pretty(ms.v, level)), y);
    }
  }

  lemma KeyRegroup(key: string, v: string, y: string)
    ensures Quoted(key) + ("" + (":" + (" " + (v + ("" + y))))) == (Quoted(key) + ": ") + (v + y)
  {
    assert "" + y == y;
    assert "" + (":" + (" " + (v + y))) == ": " + (v + y);
  }
}
