/**
 * Hidden keys (armsrc/frozen.c:100-114): when leaving out what they hide changes
 * nothing that is reported, and why it always shows otherwise.
 */
module JsonHidden {
  import opened Types
  import opened JsonParse
  import opened JsonGrammar
  import opened JsonWalk
  import opened JsonPretty

  // ---- The condition --------------------------------------------------------

  /** A value that reports nothing under a hidden key. */
  predicate Mute(v: Json)
  {
    match v
    case Scalar(_, _) => true
    case Arr(items) => items.NoItems?
    case Obj(ms) => AllMute(ms)
  }
  predicate AllMute(ms: Members)
  {
    match ms
    case NoMembers => true
    case Member(key, v, more) => Hidden(key) && Mute(v) && AllMute(more)
  }

  predicate LastHidden(ms: Members)
  {
    match ms
    case NoMembers => false
    case Member(key, _, more) => if more.NoMembers? then Hidden(key) else LastHidden(more)
  }

  /**
   * Everything under a hidden key is mute, and no object ends with one (its name
   * would be left over for the closing brace).
   */
  predicate Clean(j: Json)
  {
    match j
    case Scalar(_, _) => true
    case Arr(items) => ItemsClean(items)
    case Obj(ms) => MembersClean(ms) && !LastHidden(ms)
  }
  predicate ItemsClean(items: Items)
  {
    match items
    case NoItems => true
    case Item(v, more) => Clean(v) && ItemsClean(more)
  }
  predicate MembersClean(ms: Members)
  {
    match ms
    case NoMembers => true
    case Member(key, v, more) => (if Hidden(key) then Mute(v) else Clean(v)) && MembersClean(more)
  }

  /** Clean, and no key that is reported ends in a closing bracket. */
  predicate Survives(j: Json)
  {
    match j
    case Scalar(_, _) => true
    case Arr(items) => ItemsSurvive(items)
    case Obj(ms) => MembersSurvive(ms) && !LastHidden(ms)
  }
  predicate ItemsSurvive(items: Items)
  {
    match items
    case NoItems => true
    case Item(v, more) => Survives(v) && ItemsSurvive(more)
  }
  predicate MembersSurvive(ms: Members)
  {
    match ms
    case NoMembers => true
    case Member(key, v, more) =>
      (if Hidden(key) then Mute(v) else !Bracketed(key) && Survives(v)) && MembersSurvive(more)
  }

  // ---- Clean trees ------------------------------------------------------------

  lemma {:induction false} MuteLeaks(v: Json, tail: Members)
    requires Mute(v)
    ensures Leaked(v, tail) == tail
    decreases v
  {
    if v.Obj? { AllMuteLeak(v.members, tail); }
  }

  lemma {:induction false} AllMuteLeak(ms: Members, tail: Members)
    requires AllMute(ms)
    ensures FlatMembers(ms, tail) == tail
    decreases ms
  {
    if ms.Member? {
      AllMuteLeak(ms.more, tail);
      MuteLeaks(ms.v, tail);
    }
  }

  lemma {:induction false} SurvivesIs(j: Json)
    ensures Survives(j) <==> Clean(j) && Unbracketed(Flat(j))
    decreases j
  {
    match j
    case Scalar(_, _) =>
    case Arr(items) => ItemsSurviveIs(items);
    case Obj(ms) => MembersSurviveIs(ms, NoMembers);
  }

  lemma {:induction false} ItemsSurviveIs(items: Items)
    ensures ItemsSurvive(items) <==> ItemsClean(items) && ItemsUnbracketed(FlatItems(items))
    decreases items
  {
    hide Survives, Clean, Flat, Unbracketed;
    if items.Item? {
      SurvivesIs(items.v);
      ItemsSurviveIs(items.more);
    }
  }

  lemma {:induction false} MembersSurviveIs(ms: Members, tail: Members)
    ensures MembersSurvive(ms) ==> MembersClean(ms)
    ensures MembersClean(ms) ==>
      (MembersUnbracketed(FlatMembers(ms, tail)) <==> MembersSurvive(ms) && MembersUnbracketed(tail))
    decreases ms
  {
    hide Survives, Clean, Flat, Unbracketed, Mute, Hidden, Bracketed, Leaked;
    if ms.Member? {
      MembersSurviveIs(ms.more, tail);
      if Hidden(ms.key) {
        if Mute(ms.v) { MuteLeaks(ms.v, FlatMembers(ms.more, tail)); }
      } else {
        SurvivesIs(ms.v);
      }
    }
  }

  /** A mute value reports nothing, and the name set last is left over. */
  lemma {:induction false} MuteTells(v: Json, path: string, name: Option<string>)
    requires Mute(v) && !Reports(path) && name.Some?
    ensures Reported(v, path, name).es == [] && Reported(v, path, name).name.Some?
    decreases v
  {
    hide Reports;
    if v.Obj? { AllMuteTell(v.members, path, name); }
  }

  lemma {:induction false} AllMuteTell(ms: Members, path: string, name: Option<string>)
    requires AllMute(ms) && name.Some?
    ensures ReportedMembers(ms, path, name).es == [] && ReportedMembers(ms, path, name).name.Some?
    decreases ms
  {
    hide Reports, Hidden, Mute, Reported;
    if ms.Member? {
      var q, n := path + "." + ms.key, Some(ms.key);
      MemberReports(path, ms.key);
      MuteTells(ms.v, q, n);
      AllMuteTell(ms.more, path, Reported(ms.v, q, n).name);
    }
  }

  lemma ReportedNoName(j: Json, path: string, name: Option<string>)
    requires Reports(path)
    ensures Reported(j, path, name).name == None
  {
    hide Reports;
  }

  /** The name left over by members of which the hidden ones are mute. */
  lemma {:induction false} LeftOver(ms: Members, path: string, name: Option<string>)
    requires MembersClean(ms)
    ensures ReportedMembers(ms, path, name).name.Some? <==> if ms.NoMembers? then name.Some? else LastHidden(ms)
    decreases ms
  {
    hide Reports, Hidden, Mute, Reported, Clean;
    if ms.Member? {
      var q, n := path + "." + ms.key, Some(ms.key);
      MemberReports(path, ms.key);
      if Hidden(ms.key) { MuteTells(ms.v, q, n); } else { ReportedNoName(ms.v, q, n); }
      LeftOver(ms.more, path, Reported(ms.v, q, n).name);
    }
  }

  /** A clean tree reports what the tree without its hidden members reports. */
  lemma {:induction false} CleanReported(j: Json, path: string, name: Option<string>)
    requires Clean(j) && Reports(path)
    ensures Reported(j, path, name) == Told(Events(Flat(j), path, name), None)
    decreases j
  {
    hide Reports, LastHidden;
    match j
    case Scalar(_, _) =>
    case Arr(items) => CleanItemsReported(items, 0, path);
    case Obj(ms) =>
      CleanMembersReported(ms, path, None, NoMembers);
      LeftOver(ms, path, None);
      NoneLeft(ms);
      assert ReportedMembers(ms, path, None).es + [] == ReportedMembers(ms, path, None).es;
  }

  lemma NoneLeft(ms: Members)
    ensures ms.NoMembers? ==> !LastHidden(ms)
  {
  }

  lemma {:induction false} CleanItemsReported(items: Items, i: nat, path: string)
    requires ItemsClean(items)
    ensures ReportedItems(items, i, path, None) == Told(ItemEvents(FlatItems(items), i, path), None)
    decreases items
  {
    hide Reports, Clean, Events, Reported, Index, Flat;
    if items.Item? {
      ItemReports(path, i);
      CleanReported(items.v, path + Index(i), Some(Decimal(i)));
      CleanItemsReported(items.more, i + 1, path);
    }
  }

  lemma {:induction false} CleanMembersReported(ms: Members, path: string, name: Option<string>, tail: Members)
    requires MembersClean(ms)
    ensures MemberEvents(FlatMembers(ms, tail), path) == ReportedMembers(ms, path, name).es + MemberEvents(tail, path)
    decreases ms
  {
    hide Reports, Clean, Events, Reported, Hidden, Flat, Mute, Leaked;
    if ms.Member? {
      var q, n := path + "." + ms.key, Some(ms.key);
      var a := Reported(ms.v, q, n);
      MemberReports(path, ms.key);
      CleanMembersReported(ms.more, path, a.name, tail);
      var b := ReportedMembers(ms.more, path, a.name);
      if Hidden(ms.key) {
        MuteTells(ms.v, q, n);
        MuteLeaks(ms.v, FlatMembers(ms.more, tail));
        assert [] + b.es == b.es;
      } else {
        CleanReported(ms.v, q, n);
        assert a.es + (b.es + MemberEvents(tail, path)) == a.es + b.es + MemberEvents(tail, path);
      }
    }
  }

  // ---- Trees that are not clean -------------------------------------------------

  predicate Ends(t: TokenType) { t == ArrayEnd || t == ObjectEnd }

  /** The length of the path, and one more for an end reported under a name. */
  function Weight(e: Event): nat { |e.path| + if Ends(e.token) && e.name.Some? then 1 else 0 }

  function Load(es: seq<Event>): nat { if es == [] then 0 else Weight(es[0]) + Load(es[1..]) }

  lemma {:induction false} LoadAppend(a: seq<Event>, b: seq<Event>)
    ensures Load(a + b) == Load(a) + Load(b)
    decreases |a|
  {
    hide Weight;
    if a == [] {
      assert a + b == b;
    } else {
      assert (a + b)[1..] == a[1..] + b;
      LoadAppend(a[1..], b);
    }
  }

  lemma LoadOne(e: Event)
    ensures Load([e]) == Weight(e)
  {
    hide Weight;
    assert [e][1..] == [];
    assert Load([]) == 0;
  }

  lemma LoadBracket(e: Event, es: seq<Event>, c: Event)
    ensures Load([e] + es + [c]) == Weight(e) + Load(es) + Weight(c)
  {
    hide Weight, Load;
    LoadAppend([e] + es, [c]);
    LoadAppend([e], es);
    LoadOne(e);
    LoadOne(c);
  }

  /**
   * What is reported weighs at least as much as the events of the flat tree at a
   * path that is no longer, and more unless the tree is clean and the path as long.
   */
  lemma {:induction false} LoadValue(j: Json, path: string, name: Option<string>, q: string, m: Option<string>)
    requires Reports(path) && |q| <= |path|
    ensures Load(Reported(j, path, name).es) >= Load(Events(Flat(j), q, m))
    ensures Load(Reported(j, path, name).es) == Load(Events(Flat(j), q, m)) ==> |q| == |path| && Clean(j)
    decreases j, 1
  {
    hide Load, Reports, Reported, Events, Flat, Clean;
    match j
    case Scalar(k, raw) => LoadScalar(k, raw, path, name, q, m);
    case Arr(items) => LoadArray(j, path, name, q, m);
    case Obj(ms) => LoadObject(j, path, name, q, m);
  }

  lemma LoadScalar(k: Kind, raw: string, path: string, name: Option<string>, q: string, m: Option<string>)
    requires Reports(path)
    ensures Load(Reported(Scalar(k, raw), path, name).es) == |path|
    ensures Load(Events(Flat(Scalar(k, raw)), q, m)) == |q| && Clean(Scalar(k, raw))
  {
    hide Load, Reports;
    LoadOne(Event(Scalars(k), name, path, raw));
    LoadOne(Event(Scalars(k), m, q, raw));
  }

  lemma {:induction false} LoadArray(j: Json, path: string, name: Option<string>, q: string, m: Option<string>)
    requires j.Arr? && Reports(path) && |q| <= |path|
    ensures Load(Reported(j, path, name).es) >= Load(Events(Flat(j), q, m))
    ensures Load(Reported(j, path, name).es) == Load(Events(Flat(j), q, m)) ==> |q| == |path| && Clean(j)
    decreases j, 0
  {
    hide Load, Reports, ReportedItems, ItemEvents, FlatItems, ItemsClean;
    var b, flat := ReportedItems(j.items, 0, path, None), FlatItems(j.items);
    LoadItems(j.items, 0, path, None, q);
    LoadBracket(Event(ArrayStart, name, path, ""), b.es, Event(ArrayEnd, b.name, path, ""));
    LoadBracket(Event(ArrayStart, m, q, ""), ItemEvents(flat, 0, q), Event(ArrayEnd, None, q, ""));
  }

  lemma {:induction false} LoadObject(j: Json, path: string, name: Option<string>, q: string, m: Option<string>)
    requires j.Obj? && Reports(path) && |q| <= |path|
    ensures Load(Reported(j, path, name).es) >= Load(Events(Flat(j), q, m))
    ensures Load(Reported(j, path, name).es) == Load(Events(Flat(j), q, m)) ==> |q| == |path| && Clean(j)
    decreases j, 0
  {
    hide Load, Reports, ReportedMembers, FlatMembers, MembersClean, LastHidden, AllMute;
    var b, flat := ReportedMembers(j.members, path, None), FlatMembers(j.members, NoMembers);
    LoadMembers(j.members, path, None, q, NoMembers);
    assert MemberEvents(NoMembers, q) == [];
    LoadNothing();
    LoadBracket(Event(ObjectStart, name, path, ""), b.es, Event(ObjectEnd, b.name, path, ""));
    LoadBracket(Event(ObjectStart, m, q, ""), MemberEvents(flat, q), Event(ObjectEnd, None, q, ""));
    if MembersClean(j.members) {
      LeftOver(j.members, path, None);
      NoneLeft(j.members);
    }
  }

  lemma LoadNothing()
    ensures Load([]) == 0
  {
  }

  lemma {:induction false} LoadItems(items: Items, i: nat, path: string, name: Option<string>, q: string)
    requires |q| <= |path|
    ensures Load(ReportedItems(items, i, path, name).es) >= Load(ItemEvents(FlatItems(items), i, q))
    ensures Load(ReportedItems(items, i, path, name).es) == Load(ItemEvents(FlatItems(items), i, q)) ==> ItemsClean(items)
    decreases items
  {
    hide Load, Reports, Reported, Events, Flat, Clean, Index;
    if items.Item? {
      var p, n := path + Index(i), Some(Decimal(i));
      var a := Reported(items.v, p, n);
      ItemReports(path, i);
      LoadValue(items.v, p, n, q + Index(i), n);
      LoadItems(items.more, i + 1, path, a.name, q);
      LoadAppend(a.es, ReportedItems(items.more, i + 1, path, a.name).es);
      LoadAppend(Events(Flat(items.v), q + Index(i), n), ItemEvents(FlatItems(items.more), i + 1, q));
    }
  }

  lemma {:induction false} LoadMembers(ms: Members, path: string, name: Option<string>, q: string, tail: Members)
    requires |q| <= |path|
    ensures var l := Load(ReportedMembers(ms, path, name).es) + Load(MemberEvents(tail, q));
      var f := Load(MemberEvents(FlatMembers(ms, tail), q));
      && l >= f
      && (l == f && |q| == |path| ==> MembersClean(ms))
      && (l == f && |q| < |path| ==> AllMute(ms))
    decreases ms
  {
    hide Load, Reports, Reported, Events, Flat, Clean, Hidden, Mute, Leaked;
    match ms
    case NoMembers => LoadNothing();
    case Member(key, v, more) =>
      var p, n, x := path + "." + key, Some(key), FlatMembers(more, tail);
      var a := Reported(v, p, n);
      LoadMembers(more, path, a.name, q, tail);
      LoadAppend(a.es, ReportedMembers(more, path, a.name).es);
      MemberReports(path, key);
      if Hidden(key) {
        LoadLeaked(v, p, n, q, x);
      } else {
        LoadValue(v, p, n, q + "." + key, n);
        LoadAppend(Events(Flat(v), q + "." + key, n), MemberEvents(x, q));
      }
  }

  lemma {:induction false} LoadLeaked(v: Json, path: string, name: Option<string>, q: string, tail: Members)
    requires |q| < |path| && !Reports(path)
    ensures var l := Load(Reported(v, path, name).es) + Load(MemberEvents(tail, q));
      var f := Load(MemberEvents(Leaked(v, tail), q));
      l >= f && (l == f ==> Mute(v))
    decreases v
  {
    hide Load, Reports, ReportedItems, ReportedMembers, MemberEvents, FlatMembers, LeakedItems, AllMute, MembersClean;
    match v
    case Scalar(_, _) => LoadNothing();
    case Arr(items) =>
      LoadLeakedItems(items, 0, path, name, q, tail);
      var es := ReportedItems(items, 0, path, name).es;
      assert [] + es + [] == es;
    case Obj(ms) =>
      LoadMembers(ms, path, name, q, tail);
      var es := ReportedMembers(ms, path, name).es;
      assert [] + es + [] == es;
  }

  lemma {:induction false} LoadLeakedItems(items: Items, i: nat, path: string, name: Option<string>, q: string,
                                           tail: Members)
    requires |q| < |path|
    ensures var l := Load(ReportedItems(items, i, path, name).es) + Load(MemberEvents(tail, q));
      var f := Load(MemberEvents(LeakedItems(items, tail), q));
      l >= f && (l == f ==> items.NoItems?)
    decreases items
  {
    hide Load, Reports, Reported, Events, Flat, Clean, Index;
    match items
    case NoItems => LoadNothing();
    case Item(v, more) =>
      var p, n, x := path + Index(i), Some(Decimal(i)), LeakedItems(more, tail);
      var a := Reported(v, p, n);
      var q' := q + "." + "]";
      ItemReports(path, i);
      DigitsOnly(i);
      LoadValue(v, p, n, q', Some("]"));
      LoadLeakedItems(more, i + 1, path, a.name, q, tail);
      LoadAppend(a.es, ReportedItems(more, i + 1, path, a.name).es);
      LoadAppend(Events(Flat(v), q', Some("]")), MemberEvents(x, q));
  }

  /** The reports of a tree are those of its flat tree exactly when it is clean. */
  lemma SameReports(j: Json)
    ensures Reported(j, "", None).es == Events(Flat(j), "", None) <==> Clean(j)
  {
    hide Reported, Events, Flat, Clean, Load;
    if Clean(j) {
      CleanReported(j, "", None);
    } else {
      LoadValue(j, "", None, "", None);
    }
  }

  // ---- The flat tree is an ordinary one -------------------------------------------

  lemma {:induction false} FlatPlain(j: Json)
    ensures Plain(Flat(j))
    decreases j
  {
    match j
    case Scalar(_, _) =>
    case Arr(items) => FlatItemsPlain(items);
    case Obj(ms) => FlatMembersPlain(ms, NoMembers);
  }
  lemma {:induction false} FlatItemsPlain(items: Items)
    ensures ItemsPlain(FlatItems(items))
    decreases items
  {
    if items.Item? { FlatPlain(items.v); FlatItemsPlain(items.more); }
  }
  lemma {:induction false} FlatMembersPlain(ms: Members, tail: Members)
    requires MembersPlain(tail)
    ensures MembersPlain(FlatMembers(ms, tail))
    decreases ms
  {
    if ms.Member? {
      FlatMembersPlain(ms.more, tail);
      if Hidden(ms.key) { LeakedPlain(ms.v, FlatMembers(ms.more, tail)); } else { FlatPlain(ms.v); }
    }
  }
  lemma {:induction false} LeakedPlain(v: Json, tail: Members)
    requires MembersPlain(tail)
    ensures MembersPlain(Leaked(v, tail))
    decreases v
  {
    match v
    case Scalar(_, _) =>
    case Arr(items) => LeakedItemsPlain(items, tail);
    case Obj(ms) => FlatMembersPlain(ms, tail);
  }
  lemma {:induction false} LeakedItemsPlain(items: Items, tail: Members)
    requires MembersPlain(tail)
    ensures MembersPlain(LeakedItems(items, tail))
    decreases items
  {
    if items.Item? { FlatPlain(items.v); LeakedItemsPlain(items.more, tail); }
  }

  /** Its paths are no longer. */
  lemma {:induction false} FlatFits(j: Json, path: string, q: string)
    requires Fits(j, path) && |q| <= |path|
    ensures Fits(Flat(j), q)
    decreases j
  {
    match j
    case Scalar(_, _) =>
    case Arr(items) => FlatItemsFit(items, 0, path, q);
    case Obj(ms) => FlatMembersFit(ms, path, NoMembers, q);
  }
  lemma {:induction false} FlatItemsFit(items: Items, i: nat, path: string, q: string)
    requires ItemsFit(items, i, path) && |q| <= |path|
    ensures ItemsFit(FlatItems(items), i, q)
    decreases items
  {
    hide Index, Fits, Flat;
    if items.Item? {
      FlatFits(items.v, path + Index(i), q + Index(i));
      FlatItemsFit(items.more, i + 1, path, q);
    }
  }
  lemma {:induction false} FlatMembersFit(ms: Members, path: string, tail: Members, q: string)
    requires MembersFit(ms, path) && |q| <= |path| && MembersFit(tail, q)
    ensures MembersFit(FlatMembers(ms, tail), q)
    decreases ms
  {
    hide Fits, Flat, Hidden, Leaked;
    if ms.Member? {
      FlatMembersFit(ms.more, path, tail, q);
      if Hidden(ms.key) {
        LeakedFits(ms.v, path + "." + ms.key, FlatMembers(ms.more, tail), q);
      } else {
        FlatFits(ms.v, path + "." + ms.key, q + "." + ms.key);
      }
    }
  }
  lemma {:induction false} LeakedFits(v: Json, path: string, tail: Members, q: string)
    requires Fits(v, path) && |q| <= |path| && MembersFit(tail, q)
    ensures MembersFit(Leaked(v, tail), q)
    decreases v
  {
    match v
    case Scalar(_, _) =>
    case Arr(items) => LeakedItemsFit(items, 0, path, tail, q);
    case Obj(ms) => FlatMembersFit(ms, path, tail, q);
  }
  lemma {:induction false} LeakedItemsFit(items: Items, i: nat, path: string, tail: Members, q: string)
    requires ItemsFit(items, i, path) && |q| <= |path| && MembersFit(tail, q)
    ensures MembersFit(LeakedItems(items, tail), q)
    decreases items
  {
    hide Index, Fits, Flat;
    if items.Item? {
      DigitsOnly(i);
      FlatFits(items.v, path + Index(i), q + "." + "]");
      LeakedItemsFit(items.more, i + 1, path, tail, q);
    }
  }

  /** Its tokens are tokens. */
  lemma {:induction false} FlatTokens(j: Json)
    requires Tokens(j)
    ensures Tokens(Flat(j))
    decreases j
  {
    hide Token;
    match j
    case Scalar(_, _) =>
    case Arr(items) => FlatItemTokens(items);
    case Obj(ms) => FlatMemberTokens(ms, NoMembers);
  }
  lemma {:induction false} FlatItemTokens(items: Items)
    requires ItemTokens(items)
    ensures ItemTokens(FlatItems(items))
    decreases items
  {
    hide Token;
    if items.Item? { FlatTokens(items.v); FlatItemTokens(items.more); }
  }
  lemma {:induction false} FlatMemberTokens(ms: Members, tail: Members)
    requires MemberTokens(ms) && MemberTokens(tail)
    ensures MemberTokens(FlatMembers(ms, tail))
    decreases ms
  {
    hide Token, Hidden;
    if ms.Member? {
      FlatMemberTokens(ms.more, tail);
      if Hidden(ms.key) { LeakedTokens(ms.v, FlatMembers(ms.more, tail)); } else { FlatTokens(ms.v); }
    }
  }
  lemma {:induction false} LeakedTokens(v: Json, tail: Members)
    requires Tokens(v) && MemberTokens(tail)
    ensures MemberTokens(Leaked(v, tail))
    decreases v
  {
    hide Token;
    match v
    case Scalar(_, _) =>
    case Arr(items) => LeakedItemTokens(items, tail);
    case Obj(ms) => FlatMemberTokens(ms, tail);
  }
  lemma {:induction false} LeakedItemTokens(items: Items, tail: Members)
    requires ItemTokens(items) && MemberTokens(tail)
    ensures MemberTokens(LeakedItems(items, tail))
    decreases items
  {
    hide Token;
    if items.Item? {
      BracketToken();
      FlatTokens(items.v);
      LeakedItemTokens(items.more, tail);
    }
  }

  lemma BracketToken()
    ensures Token(KString, "]")
  {
    assert "]" + "\"" == "]\"" && "]\""[1..] == "\"" && "]\""[..1] == "]" && "\""[1..] == "";
    assert StringBody("\"") == Lexed("", "");
    assert CharStep("]\"") == 1;
    assert "]" + "" == "]";
  }

  /** A tree without hidden keys is its own flat tree. */
  lemma {:induction false} FlatOfPlain(j: Json)
    requires Plain(j)
    ensures Flat(j) == j
    decreases j
  {
    match j
    case Scalar(_, _) =>
    case Arr(items) => FlatItemsOfPlain(items);
    case Obj(ms) => FlatMembersOfPlain(ms);
  }
  lemma {:induction false} FlatItemsOfPlain(items: Items)
    requires ItemsPlain(items)
    ensures FlatItems(items) == items
    decreases items
  {
    if items.Item? { FlatOfPlain(items.v); FlatItemsOfPlain(items.more); }
  }
  lemma {:induction false} FlatMembersOfPlain(ms: Members)
    requires MembersPlain(ms)
    ensures FlatMembers(ms, NoMembers) == ms
    decreases ms
  {
    hide Hidden;
    if ms.Member? { FlatOfPlain(ms.v); FlatMembersOfPlain(ms.more); }
  }
}
