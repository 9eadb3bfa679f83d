/**
 * json_prettify preserves meaning (armsrc/frozen.c:1292-1351 over 236-431):
 * exactly when, among the documents whose paths fit and whose keys are plain.
 */
module JsonMeaning {
  import opened Types
  import opened JsonParse
  import opened JsonGrammar
  import opened JsonWalk
  import opened JsonPretty
  import opened JsonHidden

  // ---- A key that is left out spoils the text -----------------------------

  lemma PrintedHead(j: Json, level: nat)
    requires Tokens(j)
    ensures Printed(j, level) != "" && Heads(Printed(j, level)[0])
  {
    hide Token, ScalarText;
    if j.Scalar? { ScalarHead(j.kind, j.raw); }
  }

  /** The text after a member: the walker reads on at a comma or a closing brace. */
  predicate NoColon(x: string) { Stops(x) && !Starts(':', SkipWs(x)) }

  /** A value standing where a key belongs is no key. */
  lemma NoKey(v: Json, level: nat, x: string)
    requires Tokens(v) && NoColon(x)
    ensures KeyColon(Printed(v, level) + x).LexErr?
  {
    hide StringBody, Number, SkipWs, Tokens, ScalarText;
    var u := Printed(v, level) + x;
    PrintedHead(v, level);
    assert u[0] == Printed(v, level)[0] && "" + u == u;
    SkipSpaces("", u);
    if v.Scalar? { NoScalarKey(v, x); }
  }

  lemma NoScalarKey(v: Json, x: string)
    requires v.Scalar? && Tokens(v) && NoColon(x)
    ensures var u := ScalarText(v.kind, v.raw) + x;
      Key(u).LexErr? || !Starts(':', SkipWs(Key(u).rest))
  {
    hide StringBody, Number, SkipWs;
    var u := ScalarText(v.kind, v.raw) + x;
    match v.kind
    case KString => StringReads(v.raw, x);
    case KNumber => assert u[0] == v.raw[0];
    case _ =>
      WordSpan(v.kind);
      SpanOf(IsWord, v.raw, x);
      assert u[..|v.raw|] == v.raw && u[|v.raw|..] == x && u[0] == v.raw[0];
  }

  lemma WordSpan(k: Kind)
    requires k != KString && k != KNumber
    ensures Word(k) != "" && IsAlpha(Word(k)[0]) && forall i :: 0 <= i < |Word(k)| ==> IsWord(Word(k)[i])
  {
  }

  lemma HeadAfter(j: Json, level: nat, x: string)
    requires Tokens(j)
    ensures Printed(j, level) + x != "" && Heads((Printed(j, level) + x)[0])
  {
    hide Tokens, Printed, Heads;
    PrintedHead(j, level);
  }

  /** A printed value with all its keys is read back, whatever follows it here. */
  lemma ReadsPrinted(j: Json, level: nat, x: string)
    requires Tokens(j) && Unbracketed(j) && Stops(x)
    ensures Value(Printed(j, level) + x) == Parsed(j, x)
  {
    hide Tokens, Unbracketed, Printed, Value, Stops, WellFormed, Pretty;
    PrettyIs(j, level);
    ReadsStrict(Pretty(j, level), x);
  }

  lemma {:induction false} Spoilt(j: Json, level: nat, x: string)
    requires Tokens(j) && !Unbracketed(j)
    ensures Value(Printed(j, level) + x).Err?
    decreases j
  {
    hide Token, ScalarText, ScalarOf, SkipWs, ItemsOf, MembersOf, PrintedItems, PrintedMembers;
    var u := Printed(j, level) + x;
    HeadAfter(j, level, x);
    ValueHere(u);
    match j
    case Arr(items) =>
      assert u[1..] == PrintedItems(items, level + 1, true) + x;
      SpoiltItems(items, level + 1, true, x);
    case Obj(ms) =>
      assert u[1..] == PrintedMembers(ms, level + 1, true) + x;
      SpoiltMembers(ms, level + 1, true, x);
  }

  /** The text after an element that is not the last. */
  lemma AfterComma(y: string)
    ensures SkipComma("," + y) == y && NoColon("," + y)
  {
    hide SkipWs;
    SkipSpaces("", "," + y);
    assert "" + ("," + y) == "," + y && ("," + y)[1..] == y;
  }

  function TailOfItem(more: Items, level: nat, x: string): string
  {
    (if more.NoItems? then "" else ",") + PrintedItems(more, level, false) + x
  }

  lemma ItemPrinted(items: Items, level: nat, first: bool, x: string)
    requires items.Item?
    ensures PrintedItems(items, level, first) + x ==
            NewLine(level) + (Printed(items.v, level) + TailOfItem(items.more, level, x))
  {
    hide Printed, NewLine;
    var y := (if items.more.NoItems? then "" else ",") + PrintedItems(items.more, level, false);
    Shift(NewLine(level), Printed(items.v, level), y, x);
  }

  lemma ItemTail(more: Items, level: nat, x: string)
    requires more.Item?
    ensures TailOfItem(more, level, x) == "," + (PrintedItems(more, level, false) + x)
  {
    hide PrintedItems;
    assert "," + PrintedItems(more, level, false) + x == "," + (PrintedItems(more, level, false) + x);
  }

  lemma {:induction false} SpoiltItems(items: Items, level: nat, first: bool, x: string)
    requires ItemTokens(items) && !ItemsUnbracketed(items)
    ensures ItemsOf(PrintedItems(items, level, first) + x).Err?
    decreases items
  {
    hide Tokens, Unbracketed, Printed, Value, NewLine, SkipWs, SkipComma, IsSpace, AllSpace, NoColon,
         TailOfItem, PrintedItems, Stops;
    var v, more := items.v, items.more;
    var tail := TailOfItem(more, level, x);
    ItemPrinted(items, level, first, x);
    NewLineSpaces(level);
    HeadAfter(v, level, tail);
    SkipSpaces(NewLine(level), Printed(v, level) + tail);
    if !Unbracketed(v) {
      Spoilt(v, level, tail);
    } else {
      ItemTail(more, level, x);
      AfterComma(PrintedItems(more, level, false) + x);
      StopsComma(PrintedItems(more, level, false) + x);
      ReadsPrinted(v, level, tail);
      SpoiltItems(more, level, false, x);
    }
  }

  lemma StopsComma(y: string)
    ensures Stops("," + y)
  {
  }

  /** What is printed after the last member. */
  lemma AfterLast(level: int, x: string)
    ensures NoColon(NewLine(level) + "}" + x)
  {
    hide SkipWs, Indent, Stops;
    NewLineSpaces(level);
    assert NewLine(level) + "}" + x == NewLine(level) + ("}" + x);
    TailStops(NewLine(level), '}', x);
  }

  lemma {:induction false} SpoiltMembers(ms: Members, level: nat, first: bool, x: string)
    requires MemberTokens(ms) && !MembersUnbracketed(ms)
    ensures MembersOf(PrintedMembers(ms, level, first) + x).Err?
    decreases ms
  {
    hide Token, Tokens, Unbracketed, Printed, PrintedMembers, Value, NewLine, SkipWs, SkipComma, IsSpace, AllSpace,
         NoColon, KeyColon, Heads, Bracketed;
    var key, v, more := ms.key, ms.v, ms.more;
    var tail := TailOf(more, level, x);
    var u := KeyPart(key) + (Printed(v, level) + tail);
    MemberPrinted(ms, level, first, x);
    NewLineSpaces(level);
    HeadAfter(v, level, tail);
    KeyedHead(key, Printed(v, level) + tail);
    SkipSpaces(NewLine(level), u);
    TailNoColon(more, level, x);
    if Bracketed(key) {
      NoKey(v, level, tail);
    } else {
      KeyedReads(key, Printed(v, level) + tail);
      if !Unbracketed(v) {
        Spoilt(v, level, tail);
      } else {
        SpoiltRest(ms, level, x);
      }
    }
  }

  function TailOf(more: Members, level: nat, x: string): string
  {
    (if more.NoMembers? then "" else ",") + PrintedMembers(more, level, false) + x
  }

  lemma MemberPrinted(ms: Members, level: nat, first: bool, x: string)
    requires ms.Member?
    ensures PrintedMembers(ms, level, first) + x ==
            NewLine(level) + (KeyPart(ms.key) + (Printed(ms.v, level) + TailOf(ms.more, level, x)))
  {
    hide Printed, NewLine, KeyPart;
    var y := (if ms.more.NoMembers? then "" else ",") + PrintedMembers(ms.more, level, false);
    Shift4(NewLine(level), KeyPart(ms.key), Printed(ms.v, level), y, x);
  }

  lemma Shift4(a: string, b: string, c: string, y: string, x: string)
    ensures (a + (b + (c + y))) + x == a + (b + (c + (y + x)))
  {
    Shift(b, c, y, x);
    assert (a + (b + (c + y))) + x == a + ((b + (c + y)) + x);
  }

  /** Heads is what the first character of a value and of a quoted key have in common. */
  lemma KeyedHead(key: string, y: string)
    requires y != "" && Heads(y[0])
    ensures KeyPart(key) + y != "" && Heads((KeyPart(key) + y)[0])
    ensures !IsSpace((KeyPart(key) + y)[0]) && (KeyPart(key) + y)[0] != '}'
    ensures Bracketed(key) ==> KeyPart(key) + y == y
  {
    if Bracketed(key) {
      assert KeyPart(key) + y == y;
    } else {
      assert (KeyPart(key) + y)[0] == '"';
    }
  }

  lemma TailNoColon(more: Members, level: nat, x: string)
    ensures NoColon(TailOf(more, level, x)) && Stops(TailOf(more, level, x))
    ensures more.Member? ==> SkipComma(TailOf(more, level, x)) == PrintedMembers(more, level, false) + x
  {
    hide NewLine, SkipWs, SkipComma, Printed;
    if more.NoMembers? {
      AfterLast(level - 1, x);
      assert TailOf(more, level, x) == NewLine(level - 1) + "}" + x;
    } else {
      AfterComma(PrintedMembers(more, level, false) + x);
      assert TailOf(more, level, x) == "," + (PrintedMembers(more, level, false) + x);
    }
  }

  /** A printed key is read, and the value after it is read as if it stood alone. */
  lemma KeyedReads(key: string, y: string)
    requires Token(KString, key) && !Bracketed(key)
    requires y != "" && Heads(y[0])
    ensures KeyColon(KeyPart(key) + y) == Lexed(key, " " + y)
    ensures Value(" " + y) == Value(y)
  {
    hide Token, Value, KeyColon, Quoted;
    NoSpaces();
    KeyReads(false, key, "", " " + y);
    assert KeyPart(key) + y == Quoted(key) + ("" + (":" + (" " + y)));
    SpacesBeforeValue(" ", y);
  }

  lemma {:induction false} SpoiltRest(ms: Members, level: nat, x: string)
    requires MemberTokens(ms) && !MembersUnbracketed(ms) && !Bracketed(ms.key) && Unbracketed(ms.v)
    ensures ms.more.Member?
    ensures Value(Printed(ms.v, level) + TailOf(ms.more, level, x)) == Parsed(ms.v, TailOf(ms.more, level, x))
    ensures MembersOf(SkipComma(TailOf(ms.more, level, x))).Err?
    decreases ms, 0
  {
    hide Token, Tokens, Unbracketed, Printed, PrintedMembers, Value, TailOf, SkipComma, NoColon, Stops, MembersOf;
    TailNoColon(ms.more, level, x);
    ReadsPrinted(ms.v, level, TailOf(ms.more, level, x));
    SpoiltMembers(ms.more, level, false, x);
  }

  // ---- Main results -------------------------------------------------------

  /** Walking text t succeeds and reports exactly es. */
  predicate Walks(t: string, es: seq<Event>)
  {
    Value(t).Parsed? && Report(Value(t).value) == es
  }

  /** The pretty print of a tree's reports is read back as the flat tree, or rejected. */
  lemma ReadsPrint(s: string)
    requires Value(s).Parsed? && Fits(Value(s).value, "")
    ensures var j := Value(s).value;
      var t := Print(Report(j));
      && (Unbracketed(Flat(j)) ==> Value(t) == Parsed(Flat(j), ""))
      && (!Unbracketed(Flat(j)) ==> Value(t).Err?)
  {
    hide Value, Report, Print, Printed, Unbracketed, Fits, Tokens, Flat;
    var j := Value(s).value;
    ValueTokens(s);
    FlatTokens(j);
    PrintsDocument(j);
    assert Printed(Flat(j), 0) + "" == Printed(Flat(j), 0);
    if Unbracketed(Flat(j)) {
      ReadsPrinted(Flat(j), 0, "");
    } else {
      Spoilt(Flat(j), 0, "");
    }
  }

  lemma FlatReports(j: Json)
    requires Fits(j, "")
    ensures Report(Flat(j)) == Events(Flat(j), "", None)
  {
    hide Report, Fits, Flat, Events, Reported, Plain;
    FlatPlain(j);
    FlatFits(j, "", "");
    DocumentReports(Flat(j));
    PlainReported(Flat(j), "", None);
  }

  /**
   * Take any accepted text whose paths fit the buffer and whose keys hold no NUL.
   * Walking its pretty print gives the same sequence of token types, names, paths
   * and raw texts if and only if: what stands under a key that is empty or ends in
   * a dot reports nothing, no object ends with such a member, and no other key
   * ends in ']'.
   */
  lemma PrettifyPreservesMeaning(s: string)
    requires Value(s).Parsed? && Fits(Value(s).value, "")
    ensures var j := Value(s).value;
      var t := Print(Report(j));
      && (Survives(j) <==> Walks(t, Report(j)))
      && (Survives(j) ==> Value(t) == Parsed(Flat(j), ""))
  {
    hide Value, Report, Print, Unbracketed, Fits, Flat, Survives, Clean, Events, Reported;
    var j := Value(s).value;
    ReadsPrint(s);
    SurvivesIs(j);
    SameReports(j);
    DocumentReports(j);
    FlatReports(j);
  }

  /** Printing a print changes nothing, whenever the print is accepted at all. */
  lemma PrettifyIdempotent(s: string)
    requires Value(s).Parsed? && Fits(Value(s).value, "")
    ensures var t := Print(Report(Value(s).value));
      Value(t).Parsed? ==> Print(Report(Value(t).value)) == t
  {
    hide Value, Report, Print, Printed, Unbracketed, Fits, Flat;
    var j := Value(s).value;
    ReadsPrint(s);
    PrintsDocument(j);
    FlatPlain(j);
    FlatFits(j, "", "");
    FlatOfPlain(Flat(j));
    PrintsDocument(Flat(j));
  }

  // ---- Texts ----------------------------------------------------------------

  function One(): Cst { CScalar(KNumber, "1") }

  /** {"key":v} without white space. */
  function Single(key: string, v: Cst): Cst { CObject(CMember("", false, key, "", "", v, "", false, CClose(""))) }

  lemma DigitToken(d: char)
    requires IsDigit(d)
    ensures Token(KNumber, [d])
  {
    SpanOf(IsDigit, [d], "");
    assert [d] + "" == [d] && [d][..1] == [d] && [d][1..] == "";
  }

  lemma SingleIs(key: string, v: Cst)
    requires Token(KString, key) && WellFormed(v)
    ensures WellFormed(Single(key, v)) && Tree(Single(key, v)) == Obj(Member(key, Tree(v), NoMembers))
    ensures Text(Single(key, v)) == "{\"" + key + "\":" + Text(v) + "}"
  {
    hide Token, Text, WellFormed, Tree;
    NoSpaces();
    SingleText(key, v);
    SingleForm(key, v);
  }

  lemma SingleText(key: string, v: Cst)
    ensures Text(Single(key, v)) == "{\"" + key + "\":" + Text(v) + "}"
  {
    var m := CMember("", false, key, "", "", v, "", false, CClose(""));
    assert MembersText(CClose("")) == "}";
    assert MembersText(m) == "\"" + key + "\":" + Text(v) + "}";
  }

  lemma SingleForm(key: string, v: Cst)
    requires Token(KString, key) && WellFormed(v)
    ensures WellFormed(Single(key, v)) && Tree(Single(key, v)) == Obj(Member(key, Tree(v), NoMembers))
  {
    hide Token;
    NoSpaces();
    assert WellFormedMembers(CClose(""));
    assert TreeMembers(CClose("")) == NoMembers;
  }

  lemma ReadsText(c: Cst)
    requires WellFormed(c) && !c.CScalar?
    ensures Value(Text(c)) == Parsed(Tree(c), "")
  {
    hide Value, WellFormed, Text, Tree;
    ReadsStrict(c, "");
    assert Text(c) + "" == Text(c);
  }

  /**
   * Under every empty or dot-ended key: an object loses its level in print, and a
   * number at the end of its object leaves a name behind that the print does not.
   */
  lemma HiddenKeyLosesMeaning(key: string)
    requires Token(KString, key) && Hidden(key) && '\0' !in key && |key| < 200
    ensures var s := "{\"" + key + "\":" + "{\"a\":1}" + "}";
      Value(s).Parsed? && !Walks(Print(Report(Value(s).value)), Report(Value(s).value))
    ensures var s := "{\"" + key + "\":" + "1" + "}";
      Value(s).Parsed? && !Walks(Print(Report(Value(s).value)), Report(Value(s).value))
  {
    hide Value, Report, Print, Walks, Token, WellFormed, Hidden, Text, Tree;
    WordIsString("a");
    DigitToken('1');
    OneIs();
    var inner := Single("a", One());
    SingleIs("a", One());
    SingleIs(key, inner);
    SingleIs(key, One());
    assert "{\"" + "a" + "\":" + "1" + "}" == "{\"a\":1}";
    ReadsText(Single(key, inner));
    ReadsText(Single(key, One()));
    NotSurviving(key);
    PrettifyPreservesMeaning(Text(Single(key, inner)));
    PrettifyPreservesMeaning(Text(Single(key, One())));
  }

  lemma OneIs()
    requires Token(KNumber, "1")
    ensures WellFormed(One()) && Text(One()) == "1" && Tree(One()) == Scalar(KNumber, "1")
  {
  }

  lemma NotSurviving(key: string)
    requires Hidden(key) && '\0' !in key && |key| < 200
    ensures var one := Scalar(KNumber, "1");
      var a, b := Obj(Member(key, Obj(Member("a", one, NoMembers)), NoMembers)), Obj(Member(key, one, NoMembers));
      !Survives(a) && Fits(a, "") && !Survives(b) && Fits(b, "")
  {
    var one := Scalar(KNumber, "1");
    var inner := Obj(Member("a", one, NoMembers));
    assert |"" + "." + key| == |key| + 1;
    assert |"" + "." + key + "." + "a"| == |key| + 3;
    assert Fits(one, "" + "." + key);
    assert Fits(inner, "" + "." + key);
  }
}
