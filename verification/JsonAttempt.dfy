/**
 * What the walker has reported when it stops, also in the middle of a text that it
 * rejects (armsrc/frozen.c:134-143, 296-431: every error returns at once).
 */
module JsonAttempt {
  import opened JsonParse
  import opened JsonWalk

  /** The walker after an attempt to read a value, successful or not. */
  function Attempt(t: string, w: Walker): (r: Walker)
    requires Valid(w)
    ensures Valid(r)
    decreases |t|, 1
  {
    AttemptAt(SkipWs(t), w)
  }

  function AttemptAt(u: string, w: Walker): (r: Walker)
    requires Valid(w)
    ensures Valid(r)
    decreases |u|, 0
  {
    if u == "" then w
    else if u[0] == '{' then
      var r := AttemptMembers(u[1..], Append(CallBack(w, ObjectStart, ""), "."));
      if MembersOf(u[1..]).Err? then r else CallBack(Truncate(r, w.len), ObjectEnd, "")
    else if u[0] == '[' then
      var r := AttemptItems(u[1..], 0, CallBack(w, ArrayStart, ""));
      if ItemsOf(u[1..]).Err? then r else CallBack(Truncate(r, w.len), ArrayEnd, "")
    else
      match ScalarOf(u)
      case Err(_) => w
      case Parsed(v, _) => if v.Scalar? then CallBack(w, Scalars(v.kind), v.raw) else w
  }

  function AttemptItems(t: string, i: nat, w: Walker): (r: Walker)
    requires Valid(w)
    ensures Valid(r)
    decreases |t|, 3
  {
    AttemptItemsAt(SkipWs(t), i, w)
  }

  function AttemptItemsAt(u: string, i: nat, w: Walker): (r: Walker)
    requires Valid(w)
    ensures Valid(r)
    decreases |u|, 2
  {
    if Starts(']', u) then w
    else
      var r := Attempt(u, EnterItem(w, i));
      match Value(u)
      case Err(_) => r
      case Parsed(_, rest) => AttemptItems(SkipComma(rest), i + 1, Truncate(r, w.len))
  }

  function AttemptMembers(t: string, w: Walker): (r: Walker)
    requires Valid(w)
    ensures Valid(r)
    decreases |t|, 3
  {
    AttemptMembersAt(SkipWs(t), w)
  }

  function AttemptMembersAt(u: string, w: Walker): (r: Walker)
    requires Valid(w)
    ensures Valid(r)
    decreases |u|, 2
  {
    if Starts('}', u) then w
    else
      var r := AttemptPair(u, w);
      match PairOf(u)
      case Err(_) => r
      case Parsed(_, rest) =>
        PairShorter(u);
        AttemptMembers(SkipComma(rest), Truncate(r, w.len))
  }

  /** A key enters the path as soon as it is read, before the colon is looked for. */
  function AttemptPair(u: string, w: Walker): (r: Walker)
    requires Valid(w)
    ensures Valid(r)
    decreases |u|, 1
  {
    match Key(SkipWs(u))
    case LexErr(_) => w
    case Lexed(key, _) =>
      match KeyColon(u)
      case LexErr(_) => EnterMember(w, key)
      case Lexed(_, after) => Attempt(after, EnterMember(w, key))
  }

  /** A key, its colon and its value. */
  function PairOf(t: string): Parsed<(string, Json)>
  {
    match KeyColon(t)
    case LexErr(c) => Err(c)
    case Lexed(key, after) =>
      match Value(after)
      case Err(c) => Err(c)
      case Parsed(v, rest) => Parsed((key, v), rest)
  }

  lemma PairShorter(u: string)
    ensures PairOf(u).Parsed? ==> |PairOf(u).rest| < |u|
  {
    hide Value, KeyColon;
  }

  // ---- A text that is accepted ------------------------------------------------

  lemma {:induction false} AttemptParsed(t: string, w: Walker)
    requires Valid(w) && Value(t).Parsed?
    ensures Attempt(t, w) == Walk(Value(t).value, w)
    decreases |t|, 1
  {
    hide SkipWs, ItemsOf, MembersOf, AttemptItems, AttemptMembers, CallBack, Append, Truncate;
    CallBackValid(w, ObjectStart);
    CallBackValid(w, ArrayStart);
    var u := SkipWs(t);
    if u[0] == '{' {
      AttemptMembersParsed(u[1..], Append(CallBack(w, ObjectStart, ""), "."));
    } else if u[0] == '[' {
      AttemptItemsParsed(u[1..], 0, CallBack(w, ArrayStart, ""));
    }
  }

  lemma CallBackValid(w: Walker, t: TokenType)
    requires Valid(w)
    ensures Valid(CallBack(w, t, ""))
  {
  }

  lemma {:induction false} AttemptItemsParsed(t: string, i: nat, w: Walker)
    requires Valid(w) && ItemsOf(t).Parsed?
    ensures AttemptItems(t, i, w) == WalkItems(ItemsOf(t).value, i, w)
    decreases |t|, 3
  {
    hide SkipWs, SkipComma, Value, Attempt, EnterItem, Truncate, Walk;
    var u := SkipWs(t);
    if !Starts(']', u) {
      AttemptParsed(u, EnterItem(w, i));
      AttemptItemsParsed(SkipComma(Value(u).rest), i + 1, Truncate(Attempt(u, EnterItem(w, i)), w.len));
    }
  }

  lemma {:induction false} AttemptMembersParsed(t: string, w: Walker)
    requires Valid(w) && MembersOf(t).Parsed?
    ensures AttemptMembers(t, w) == WalkMembers(MembersOf(t).value, w)
    decreases |t|, 3
  {
    hide SkipWs, SkipComma, Value, Attempt, EnterMember, Truncate, Walk, KeyColon, AttemptPair;
    var u := SkipWs(t);
    if !Starts('}', u) {
      PairEntered(u, w);
      var key, after := KeyColon(u).raw, KeyColon(u).rest;
      AttemptParsed(after, EnterMember(w, key));
      AttemptMembersParsed(SkipComma(Value(after).rest), Truncate(Attempt(after, EnterMember(w, key)), w.len));
    }
  }

  lemma PairEntered(u: string, w: Walker)
    requires Valid(w) && KeyColon(u).Lexed?
    ensures AttemptPair(u, w) == Attempt(KeyColon(u).rest, EnterMember(w, KeyColon(u).raw))
  {
    hide SkipWs, Key, Attempt, EnterMember;
  }

  // ---- One turn of the loops ----------------------------------------------------

  lemma ItemsParse(u: string)
    requires SkipWs(u) == u
    ensures ItemsOf(u) ==
      if Starts(']', u) then Parsed(NoItems, u[1..])
      else if Value(u).Err? then Err(Value(u).code)
      else if ItemsOf(SkipComma(Value(u).rest)).Err? then Err(ItemsOf(SkipComma(Value(u).rest)).code)
      else Parsed(Item(Value(u).value, ItemsOf(SkipComma(Value(u).rest)).value), ItemsOf(SkipComma(Value(u).rest)).rest)
  {
    hide SkipWs, SkipComma, Value;
    assert ItemsOf(u) == ItemsAt(u);
  }

  lemma ItemsAttempt(u: string, i: nat, w: Walker)
    requires SkipWs(u) == u && Valid(w)
    ensures AttemptItems(u, i, w) ==
      if Starts(']', u) then w
      else if Value(u).Err? then Attempt(u, EnterItem(w, i))
      else AttemptItems(SkipComma(Value(u).rest), i + 1, Truncate(Attempt(u, EnterItem(w, i)), w.len))
  {
    hide SkipWs, SkipComma, Value, Attempt, EnterItem, Truncate;
    assert AttemptItems(u, i, w) == AttemptItemsAt(u, i, w);
  }

  lemma MembersParse(u: string)
    requires SkipWs(u) == u
    ensures MembersOf(u) ==
      if Starts('}', u) then Parsed(NoMembers, u[1..])
      else if PairOf(u).Err? then Err(PairOf(u).code)
      else
        var rest := MembersOf(SkipComma(PairOf(u).rest));
        if rest.Err? then Err(rest.code)
        else Parsed(Member(PairOf(u).value.0, PairOf(u).value.1, rest.value), rest.rest)
  {
    hide SkipWs, SkipComma, Value, KeyColon;
    assert MembersOf(u) == MembersAt(u);
  }

  lemma MembersAttempt(u: string, w: Walker)
    requires SkipWs(u) == u && Valid(w)
    ensures AttemptMembers(u, w) ==
      if Starts('}', u) then w
      else if PairOf(u).Err? then AttemptPair(u, w)
      else AttemptMembers(SkipComma(PairOf(u).rest), Truncate(AttemptPair(u, w), w.len))
  {
    hide SkipWs, SkipComma, AttemptPair, Truncate, PairOf;
    assert AttemptMembers(u, w) == AttemptMembersAt(u, w);
  }
}
