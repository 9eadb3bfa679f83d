/**
 * What the JSON walker reports (armsrc/frozen.c:68-129, 236-431): the calls of
 * the callback, made from a path buffer of fixed size that is extended on the
 * way into a value and cut back on the way out.
 */
module JsonWalk {
  import opened Types
  import opened JsonParse

  const PATH_SIZE: nat := 256

  datatype TokenType = Scalars(kind: Kind) | ArrayStart | ArrayEnd | ObjectStart | ObjectEnd

  /** One call of the callback. raw is the token's text, "" for brackets. */
  datatype Event = Event(token: TokenType, name: Option<string>, path: string, raw: string)

  /** cur_name: absent, in the text, or at an offset of the path buffer. */
  datatype Name = NoName | InText(text: string) | InPath(at: int, len: nat)

  datatype Walker = Walker(path: string, len: nat, name: Name, log: seq<Event>)

  predicate Valid(w: Walker) { |w.path| == PATH_SIZE && w.len < PATH_SIZE && w.path[w.len] == '\0' }

  /** A C string: what stands before the first NUL. */
  function CString(s: string): (r: string)
    ensures |r| <= |s| && r == s[..|r|]
    ensures |r| < |s| ==> s[|r|] == '\0'
    ensures '\0' !in r
  {
    if s == "" || s[0] == '\0' then "" else [s[0]] + CString(s[1..])
  }

  function Resolve(w: Walker): Option<string>
  {
    match w.name
    case NoName => None
    case InText(t) => Some(t)
    case InPath(at, n) =>
      // an offset outside the buffer has no content here
      Some(if 0 <= at && at + n <= |w.path| then w.path[at..at + n] else "")
  }

  /** CALL_BACK: nothing is reported while the path ends in a dot. */
  function CallBack(w: Walker, t: TokenType, raw: string): (r: Walker)
  {
    if w.len > 0 && w.len <= |w.path| && w.path[w.len - 1] == '.' then w
    else w.(log := w.log + [Event(t, Resolve(w), CString(w.path), raw)], name := NoName)
  }

  function Min(a: nat, b: nat): nat { if a < b then a else b }

  /** json_append_to_path: what does not fit is dropped. */
  function Append(w: Walker, s: string): (r: Walker)
    requires Valid(w)
    ensures Valid(r) && r.log == w.log && r.name == w.name
    ensures r.len == Min(w.len + |s|, PATH_SIZE - 1)
    ensures r.path[..w.len] == w.path[..w.len]
  {
    var n := Min(|s|, PATH_SIZE - 1 - w.len);
    w.(path := w.path[..w.len] + s[..n] + ['\0'] + w.path[w.len + n + 1..], len := w.len + n)
  }

  function Truncate(w: Walker, len: nat): (r: Walker)
    requires Valid(w) && len < PATH_SIZE
    ensures Valid(r) && r.len == len && r.log == w.log && r.name == w.name
  {
    w.(path := w.path[len := '\0'], len := len)
  }

  function Digit(i: nat): string requires i < 10 { ["0123456789"[i]] }
  function Decimal(i: nat): (s: string)
    ensures s != "" && forall k :: 0 <= k < |s| ==> IsDigit(s[k])
  {
    if i < 10 then Digit(i) else Decimal(i / 10) + Digit(i % 10)
  }

  /** The number that decimal digits spell. */
  function Spelt(s: string): int
  {
    if s == "" then 0 else 10 * Spelt(s[..|s| - 1]) + (s[|s| - 1] as int - '0' as int)
  }

  /** An index is spelt in decimal and without leading zeros. */
  lemma {:induction false} DecimalSpells(i: nat)
    ensures Spelt(Decimal(i)) == i && (i > 0 ==> Decimal(i)[0] != '0')
  {
    var s := Decimal(i);
    if i < 10 {
      assert s[..0] == "";
    } else {
      DecimalSpells(i / 10);
      assert s[..|s| - 1] == Decimal(i / 10) && s[|s| - 1] == Digit(i % 10)[0];
      assert s[0] == Decimal(i / 10)[0];
    }
  }

  function Index(i: nat): string { "[" + Decimal(i) + "]" }

  /** Into array element i: its path, and a name pointing at the index within it. */
  function EnterItem(w: Walker, i: nat): (r: Walker)
    requires Valid(w)
    ensures Valid(r) && r.log == w.log
  {
    var a := Append(w, Index(i));
    a.(name := InPath(|CString(a.path)| - |Index(i)| + 1, |Index(i)| - 2))
  }

  /** Into an object's member: a clamped path may let the key itself be reported. */
  function EnterMember(w: Walker, key: string): (r: Walker)
    requires Valid(w)
    ensures Valid(r)
  {
    Append(CallBack(w, Scalars(KString), key).(name := InText(key)), key)
  }

  function Walk(j: Json, w: Walker): (r: Walker)
    requires Valid(w)
    ensures Valid(r)
    decreases j
  {
    match j
    case Scalar(k, raw) => CallBack(w, Scalars(k), raw)
    case Arr(items) =>
      var w1 := WalkItems(items, 0, CallBack(w, ArrayStart, ""));
      CallBack(Truncate(w1, w.len), ArrayEnd, "")
    case Obj(ms) =>
      var w1 := WalkMembers(ms, Append(CallBack(w, ObjectStart, ""), "."));
      CallBack(Truncate(w1, w.len), ObjectEnd, "")
  }

  function WalkItems(items: Items, i: nat, w: Walker): (r: Walker)
    requires Valid(w)
    ensures Valid(r)
    decreases items
  {
    match items
    case NoItems => w
    case Item(v, more) => WalkItems(more, i + 1, Truncate(Walk(v, EnterItem(w, i)), w.len))
  }

  function WalkMembers(ms: Members, w: Walker): (r: Walker)
    requires Valid(w)
    ensures Valid(r)
    decreases ms
  {
    match ms
    case NoMembers => w
    case Member(key, v, more) => WalkMembers(more, Truncate(Walk(v, EnterMember(w, key)), w.len))
  }

  function Nuls(n: nat): (s: string)
    ensures |s| == n && forall i :: 0 <= i < n ==> s[i] == '\0'
  {
    if n == 0 then "" else Nuls(n - 1) + ['\0']
  }

  /** json_walk clears the whole state first. */
  function Start(): (w: Walker)
    ensures Valid(w)
  {
    Walker(Nuls(PATH_SIZE), 0, NoName, [])
  }

  // ---- The path comes back ------------------------------------------------

  /** The path and all that was reported are kept, clamped paths included. */
  predicate Keeps(w: Walker, r: Walker)
    requires Valid(w) && Valid(r)
  {
    r.len == w.len && r.path[..w.len] == w.path[..w.len] &&
    |w.log| <= |r.log| && r.log[..|w.log|] == w.log
  }

  lemma KeepsTrans(a: Walker, b: Walker, c: Walker)
    requires Valid(a) && Valid(b) && Valid(c) && Keeps(a, b) && Keeps(b, c)
    ensures Keeps(a, c)
  {
    assert c.log[..|a.log|] == c.log[..|b.log|][..|a.log|];
  }

  /** In, something that keeps the longer path, and out again. */
  lemma KeepsInOut(w: Walker, inside: Walker, r: Walker)
    requires Valid(w) && Valid(inside) && Valid(r)
    requires w.len <= inside.len && inside.path[..w.len] == w.path[..w.len]
    requires |w.log| <= |inside.log| && inside.log[..|w.log|] == w.log
    requires Keeps(inside, r)
    ensures Keeps(w, Truncate(r, w.len))
  {
    assert r.path[..w.len] == r.path[..inside.len][..w.len];
    assert inside.path[..w.len] == inside.path[..inside.len][..w.len];
    assert Truncate(r, w.len).path[..w.len] == r.path[..w.len];
    assert r.log[..|w.log|] == r.log[..|inside.log|][..|w.log|];
  }

  lemma KeepsSelf(w: Walker)
    requires Valid(w)
    ensures Keeps(w, w)
  {
  }

  lemma EnterItemInside(w: Walker, i: nat)
    requires Valid(w)
    ensures var r := EnterItem(w, i); w.len <= r.len && r.path[..w.len] == w.path[..w.len] && r.log == w.log
  {
    hide Index;
  }

  lemma EnterMemberInside(w: Walker, key: string)
    requires Valid(w)
    ensures var r := EnterMember(w, key);
      w.len <= r.len && r.path[..w.len] == w.path[..w.len] && |w.log| <= |r.log| && r.log[..|w.log|] == w.log
  {
    hide Append;
  }

  lemma CallBackKeeps(w: Walker, t: TokenType, raw: string)
    requires Valid(w)
    ensures Keeps(w, CallBack(w, t, raw))
  {
  }

  lemma CallBackInside(w: Walker, open: TokenType, inside: Walker, r: Walker, close: TokenType)
    requires Valid(w) && Valid(inside) && Valid(r) && Keeps(inside, r)
    requires var w1 := CallBack(w, open, "");
      w.len <= inside.len && inside.path[..w.len] == w1.path[..w.len] && inside.log == w1.log
    ensures Keeps(w, CallBack(Truncate(r, w.len), close, ""))
  {
    CallBackKeeps(w, open, "");
    KeepsInOut(w, inside, r);
    CallBackKeeps(Truncate(r, w.len), close, "");
    KeepsTrans(w, Truncate(r, w.len), CallBack(Truncate(r, w.len), close, ""));
  }

  /** Whatever the value, the walk of it leaves the path as it found it. */
  lemma {:induction false} PathRestored(j: Json, w: Walker)
    requires Valid(w)
    ensures Keeps(w, Walk(j, w))
    decreases j
  {
    hide Append, Truncate, Keeps;
    match j
    case Scalar(k, raw) => CallBackKeeps(w, Scalars(k), raw);
    case Arr(items) =>
      var w1 := CallBack(w, ArrayStart, "");
      var w2 := WalkItems(items, 0, w1);
      ItemsPathRestored(items, 0, w1);
      CallBackInside(w, ArrayStart, w1, w2, ArrayEnd);
    case Obj(ms) =>
      var w1 := CallBack(w, ObjectStart, "");
      var w2 := Append(w1, ".");
      MembersPathRestored(ms, w2);
      CallBackInside(w, ObjectStart, w2, WalkMembers(ms, w2), ObjectEnd);
  }

  lemma {:induction false} ItemsPathRestored(items: Items, i: nat, w: Walker)
    requires Valid(w)
    ensures Keeps(w, WalkItems(items, i, w))
    decreases items
  {
    hide Append, Truncate, Keeps, CallBack, Walk;
    match items
    case NoItems => KeepsSelf(w);
    case Item(v, more) =>
      var w1 := EnterItem(w, i);
      EnterItemInside(w, i);
      PathRestored(v, w1);
      KeepsInOut(w, w1, Walk(v, w1));
      var w2 := Truncate(Walk(v, w1), w.len);
      ItemsPathRestored(more, i + 1, w2);
      KeepsTrans(w, w2, WalkItems(more, i + 1, w2));
  }

  lemma {:induction false} MembersPathRestored(ms: Members, w: Walker)
    requires Valid(w)
    ensures Keeps(w, WalkMembers(ms, w))
    decreases ms
  {
    hide Append, Truncate, Keeps, Walk, EnterMember;
    match ms
    case NoMembers => KeepsSelf(w);
    case Member(key, v, more) =>
      var w1 := EnterMember(w, key);
      EnterMemberInside(w, key);
      PathRestored(v, w1);
      KeepsInOut(w, w1, Walk(v, w1));
      var w2 := Truncate(Walk(v, w1), w.len);
      MembersPathRestored(more, w2);
      KeepsTrans(w, w2, WalkMembers(more, w2));
  }

  // ---- What is reported, said without a buffer ----------------------------

  /** A key whose value is not reported: the path then ends in a dot. */
  predicate Hidden(key: string) { key == "" || key[|key| - 1] == '.' }

  predicate Reports(path: string) { path == "" || path[|path| - 1] != '.' }

  /** Reports made, and the name left over from a member that was not reported. */
  datatype Told = Told(es: seq<Event>, name: Option<string>)

  function Tell(t: TokenType, path: string, name: Option<string>, raw: string): Told
  {
    if Reports(path) then Told([Event(t, name, path, raw)], None) else Told([], name)
  }

  /** Everything reported for j at path, the first of it under the given name. */
  function Reported(j: Json, path: string, name: Option<string>): Told
    decreases j
  {
    match j
    case Scalar(k, raw) => Tell(Scalars(k), path, name, raw)
    case Arr(items) =>
      var a := Tell(ArrayStart, path, name, "");
      var b := ReportedItems(items, 0, path, a.name);
      var c := Tell(ArrayEnd, path, b.name, "");
      Told(a.es + b.es + c.es, c.name)
    case Obj(ms) =>
      var a := Tell(ObjectStart, path, name, "");
      var b := ReportedMembers(ms, path, a.name);
      var c := Tell(ObjectEnd, path, b.name, "");
      Told(a.es + b.es + c.es, c.name)
  }
  function ReportedItems(items: Items, i: nat, path: string, name: Option<string>): Told
    decreases items
  {
    match items
    case NoItems => Told([], name)
    case Item(v, more) =>
      var a := Reported(v, path + Index(i), Some(Decimal(i)));
      var b := ReportedItems(more, i + 1, path, a.name);
      Told(a.es + b.es, b.name)
  }
  function ReportedMembers(ms: Members, path: string, name: Option<string>): Told
    decreases ms
  {
    match ms
    case NoMembers => Told([], name)
    case Member(key, v, more) =>
      var a := Reported(v, path + "." + key, Some(key));
      var b := ReportedMembers(more, path, a.name);
      Told(a.es + b.es, b.name)
  }

  /** The events of a tree without hidden keys: one per scalar and bracket. */
  function Events(j: Json, path: string, name: Option<string>): seq<Event>
  {
    match j
    case Scalar(k, raw) => [Event(Scalars(k), name, path, raw)]
    case Arr(items) =>
      [Event(ArrayStart, name, path, "")] + ItemEvents(items, 0, path) + [Event(ArrayEnd, None, path, "")]
    case Obj(ms) =>
      [Event(ObjectStart, name, path, "")] + MemberEvents(ms, path) + [Event(ObjectEnd, None, path, "")]
  }
  function ItemEvents(items: Items, i: nat, path: string): seq<Event>
  {
    match items
    case NoItems => []
    case Item(v, more) => Events(v, path + Index(i), Some(Decimal(i))) + ItemEvents(more, i + 1, path)
  }
  function MemberEvents(ms: Members, path: string): seq<Event>
  {
    match ms
    case NoMembers => []
    case Member(key, v, more) => Events(v, path + "." + key, Some(key)) + MemberEvents(more, path)
  }

  /** Every path formed below this one fits the buffer, and no key cuts it short. */
  predicate Fits(j: Json, path: string)
  {
    |path| < PATH_SIZE &&
    match j
    case Scalar(_, _) => true
    case Arr(items) => ItemsFit(items, 0, path)
    case Obj(ms) => |path| + 1 < PATH_SIZE && MembersFit(ms, path)
  }
  predicate ItemsFit(items: Items, i: nat, path: string)
  {
    match items
    case NoItems => true
    case Item(v, more) => Fits(v, path + Index(i)) && ItemsFit(more, i + 1, path)
  }
  predicate MembersFit(ms: Members, path: string)
  {
    match ms
    case NoMembers => true
    case Member(key, v, more) => '\0' !in key && Fits(v, path + "." + key) && MembersFit(more, path)
  }

  /** The walker stands at this path. */
  predicate At(w: Walker, path: string)
    requires Valid(w)
  {
    |path| == w.len && w.path[..w.len] == path && '\0' !in path
  }

  lemma PathIs(w: Walker, path: string)
    requires Valid(w) && At(w, path)
    ensures CString(w.path) == path
  {
    assert forall i :: 0 <= i < w.len ==> w.path[i] == path[i] && path[i] in path;
    UpToNul(w.path, w.len);
  }

  lemma {:induction false} UpToNul(s: string, n: nat)
    requires n < |s| && s[n] == '\0' && forall i :: 0 <= i < n ==> s[i] != '\0'
    ensures CString(s) == s[..n]
  {
    if n > 0 {
      UpToNul(s[1..], n - 1);
      assert [s[0]] + s[1..][..n - 1] == s[..n];
    }
  }

  lemma AppendAt(w: Walker, path: string, s: string)
    requires Valid(w) && At(w, path) && |path| + |s| < PATH_SIZE && '\0' !in s
    ensures At(Append(w, s), path + s)
  {
    assert s[..|s|] == s;
  }

  /** A call of the callback where something is reported. */
  lemma CallBackAt(w: Walker, path: string, t: TokenType, raw: string)
    requires Valid(w) && At(w, path) && Reports(path)
    ensures CallBack(w, t, raw) ==
            w.(log := w.log + [Event(t, Resolve(w), path, raw)], name := NoName)
  {
    PathIs(w, path);
  }

  lemma DigitsOnly(i: nat)
    ensures '\0' !in Index(i) && |Index(i)| >= 3 && Index(i)[|Index(i)| - 1] == ']'
    ensures Index(i)[1..|Index(i)| - 1] == Decimal(i)
  {
  }

  lemma Inner(path: string, s: string)
    requires |s| >= 2
    ensures (path + s)[|path| + 1..|path + s| - 1] == s[1..|s| - 1]
  {
  }

  lemma SliceOfPrefix(s: string, p: string, lo: nat, hi: nat)
    requires lo <= hi <= |p| <= |s| && s[..|p|] == p
    ensures s[lo..hi] == p[lo..hi]
  {
    assert forall i :: lo <= i < hi ==> s[i] == s[..|p|][i];
  }

  lemma AtLength(w: Walker, path: string)
    requires Valid(w) && At(w, path)
    ensures |path| == w.len < PATH_SIZE
  {
  }

  lemma EnterItemAt(w: Walker, path: string, i: nat)
    requires Valid(w) && At(w, path) && |path| + |Index(i)| < PATH_SIZE
    ensures At(EnterItem(w, i), path + Index(i)) && Reports(path + Index(i))
    ensures Resolve(EnterItem(w, i)) == Some(Decimal(i))
  {
    hide Append, Index, Decimal;
    DigitsOnly(i);
    var a := Append(w, Index(i));
    var p := path + Index(i);
    AppendAt(w, path, Index(i));
    PathIs(a, p);
    SliceOfPrefix(a.path, p, |path| + 1, |p| - 1);
    Inner(path, Index(i));
  }

  lemma EnterMemberAt(w: Walker, path: string, key: string)
    requires Valid(w) && At(w, path + ".") && '\0' !in key && |path| + 1 + |key| < PATH_SIZE
    ensures At(EnterMember(w, key), path + "." + key) && Named(EnterMember(w, key), Some(key))
    ensures EnterMember(w, key).log == w.log
  {
    hide Append;
    assert w.path[..w.len][w.len - 1] == '.';
    var n := w.(name := InText(key));
    AppendAt(n, path + ".", key);
  }

  /** The walker holds this name, wherever its path goes. */
  predicate Named(w: Walker, name: Option<string>)
  {
    match name
    case None => w.name == NoName
    case Some(t) => w.name == InText(t)
  }

  /** The walker is back at path and has reported es since. */
  predicate Done(w: Walker, r: Walker, path: string, es: seq<Event>)
    requires Valid(w) && Valid(r)
  {
    At(r, path) && r.log == w.log + es
  }

  lemma BackAt(r: Walker, path: string, ext: string)
    requires Valid(r) && At(r, path + ext)
    ensures At(Truncate(r, |path|), path)
  {
    SliceOfPrefix(r.path, path + ext, 0, |path|);
    assert (path + ext)[..|path|] == path;
    assert forall c :: c in path ==> c in path + ext;
  }

  /** One call of CALL_BACK, reported or not. */
  lemma CallBackDone(w: Walker, path: string, name: Option<string>, t: TokenType, raw: string)
    requires Valid(w) && At(w, path) && Resolve(w) == name && (Reports(path) || Named(w, name))
    ensures var r, o := CallBack(w, t, raw), Tell(t, path, name, raw);
      Valid(r) && Done(w, r, path, o.es) && Named(r, o.name) && r.len == w.len
  {
    if Reports(path) {
      CallBackAt(w, path, t, raw);
    } else {
      assert w.path[..w.len][w.len - 1] == '.';
    }
  }

  lemma NamedResolves(w: Walker, name: Option<string>)
    requires Named(w, name)
    ensures Resolve(w) == name
  {
  }

  /** Back from inside a bracket, and the report of its end. */
  lemma CloseDone(w: Walker, r: Walker, path: string, ext: string, name: Option<string>, t: TokenType, es: seq<Event>)
    requires Valid(w) && Valid(r) && At(r, path + ext) && Named(r, name) && r.log == w.log + es
    ensures |path| < PATH_SIZE
    ensures var c, o := CallBack(Truncate(r, |path|), t, ""), Tell(t, path, name, "");
      Valid(c) && At(c, path) && c.log == w.log + (es + o.es) && Named(c, o.name)
  {
    hide Append, At, Tell, CallBack;
    AtLength(r, path + ext);
    BackAt(r, path, ext);
    var u := Truncate(r, |path|);
    NamedResolves(u, name);
    CallBackDone(u, path, name, t, "");
    LogAssoc(w, es, Tell(t, path, name, "").es);
  }

  lemma LogAssoc(w: Walker, a: seq<Event>, b: seq<Event>)
    ensures w.log + a + b == w.log + (a + b)
  {
  }

  lemma OpenObject(w: Walker, path: string)
    requires Valid(w) && At(w, path) && |path| + 1 < PATH_SIZE
    ensures At(Append(w, "."), path + ".")
  {
    AppendAt(w, path, ".");
  }

  lemma FitsLength(j: Json, path: string)
    requires Fits(j, path)
    ensures |path| < PATH_SIZE
  {
  }

  /**
   * Where every path fits, the buffered walker reports exactly the events of the
   * tree, each under its full path and name: none for keys, none while the path
   * ends in a dot, and the name of a member that was not reported stays.
   */
  lemma {:induction false} WalkReports(j: Json, w: Walker, path: string, name: Option<string>)
    requires Valid(w) && At(w, path) && Fits(j, path)
    requires Resolve(w) == name && (Reports(path) || Named(w, name))
    ensures Done(w, Walk(j, w), path, Reported(j, path, name).es)
    ensures Named(Walk(j, w), Reported(j, path, name).name)
    decreases j, 1
  {
    hide Append, CallBack, Resolve, Reports, Truncate, Valid, At, Tell, Named;
    match j
    case Scalar(k, raw) => CallBackDone(w, path, name, Scalars(k), raw);
    case Arr(items) => WalkReportsArray(j, w, path, name);
    case Obj(ms) => WalkReportsObject(j, w, path, name);
  }

  lemma {:induction false} WalkReportsArray(j: Json, w: Walker, path: string, name: Option<string>)
    requires j.Arr? && Valid(w) && At(w, path) && Fits(j, path)
    requires Resolve(w) == name && (Reports(path) || Named(w, name))
    ensures Done(w, Walk(j, w), path, Reported(j, path, name).es)
    ensures Named(Walk(j, w), Reported(j, path, name).name)
    decreases j, 0
  {
    hide Append, CallBack, Resolve, Reports, Truncate, Valid, At, WalkItems, ReportedItems, Tell, Named;
    AtLength(w, path);
    CallBackDone(w, path, name, ArrayStart, "");
    var w1, a := CallBack(w, ArrayStart, ""), Tell(ArrayStart, path, name, "");
    ItemsReport(j.items, 0, w1, path, a.name);
    var b := ReportedItems(j.items, 0, path, a.name);
    CloseDone(w1, WalkItems(j.items, 0, w1), path, "", b.name, ArrayEnd, b.es);
    var c := Tell(ArrayEnd, path, b.name, "");
    assert w.log + a.es + (b.es + c.es) == w.log + (a.es + b.es + c.es);
  }

  lemma {:induction false} WalkReportsObject(j: Json, w: Walker, path: string, name: Option<string>)
    requires j.Obj? && Valid(w) && At(w, path) && Fits(j, path)
    requires Resolve(w) == name && (Reports(path) || Named(w, name))
    ensures Done(w, Walk(j, w), path, Reported(j, path, name).es)
    ensures Named(Walk(j, w), Reported(j, path, name).name)
    decreases j, 0
  {
    hide Append, CallBack, Resolve, Reports, Truncate, Valid, At, WalkMembers, ReportedMembers, Tell;
    AtLength(w, path);
    CallBackDone(w, path, name, ObjectStart, "");
    var w1, a := CallBack(w, ObjectStart, ""), Tell(ObjectStart, path, name, "");
    OpenObject(w1, path);
    var w2 := Append(w1, ".");
    MembersReport(j.members, w2, path, a.name);
    var b := ReportedMembers(j.members, path, a.name);
    CloseDone(w1, WalkMembers(j.members, w2), path, ".", b.name, ObjectEnd, b.es);
    var c := Tell(ObjectEnd, path, b.name, "");
    assert w.log + a.es + (b.es + c.es) == w.log + (a.es + b.es + c.es);
  }

  lemma {:induction false} ItemsReport(items: Items, i: nat, w: Walker, path: string, name: Option<string>)
    requires Valid(w) && At(w, path) && ItemsFit(items, i, path) && Named(w, name)
    ensures At(WalkItems(items, i, w), path + "")
    ensures WalkItems(items, i, w).log == w.log + ReportedItems(items, i, path, name).es
    ensures Named(WalkItems(items, i, w), ReportedItems(items, i, path, name).name)
    decreases items
  {
    hide Append, CallBack, Resolve, Reports, Truncate, Valid, At, EnterItem, Index, Walk, Fits, Reported, Named;
    assert path + "" == path;
    AtLength(w, path);
    match items
    case NoItems =>
    case Item(v, more) =>
      var p, n := path + Index(i), Some(Decimal(i));
      FitsLength(v, p);
      EnterItemAt(w, path, i);
      var w1, a := EnterItem(w, i), Reported(v, p, n);
      WalkReports(v, w1, p, n);
      BackAt(Walk(v, w1), path, Index(i));
      var w2 := Truncate(Walk(v, w1), |path|);
      SameName(Walk(v, w1), |path|, a.name);
      ItemsReport(more, i + 1, w2, path, a.name);
      LogAssoc(w, a.es, ReportedItems(more, i + 1, path, a.name).es);
  }

  lemma SameName(w: Walker, len: nat, name: Option<string>)
    requires Valid(w) && len < PATH_SIZE && Named(w, name)
    ensures Named(Truncate(w, len), name)
  {
  }

  lemma {:induction false} MembersReport(ms: Members, w: Walker, path: string, name: Option<string>)
    requires Valid(w) && At(w, path + ".") && MembersFit(ms, path) && Named(w, name)
    ensures At(WalkMembers(ms, w), path + ".")
    ensures WalkMembers(ms, w).log == w.log + ReportedMembers(ms, path, name).es
    ensures Named(WalkMembers(ms, w), ReportedMembers(ms, path, name).name)
    decreases ms
  {
    hide Append, CallBack, Resolve, Reports, Truncate, Valid, At, EnterMember, Walk, Fits, Reported, Named;
    AtLength(w, path + ".");
    match ms
    case NoMembers =>
    case Member(key, v, more) =>
      var p, n := path + "." + key, Some(key);
      FitsLength(v, p);
      EnterMemberAt(w, path, key);
      var w1, a := EnterMember(w, key), Reported(v, p, n);
      NamedResolves(w1, n);
      WalkReports(v, w1, p, n);
      BackAt(Walk(v, w1), path + ".", key);
      var w2 := Truncate(Walk(v, w1), w.len);
      SameName(Walk(v, w1), w.len, a.name);
      MembersReport(more, w2, path, a.name);
      LogAssoc(w, a.es, ReportedMembers(more, path, a.name).es);
  }

  /** The events of a whole document. */
  function Report(j: Json): seq<Event> { Walk(j, Start()).log }

  lemma DocumentReports(j: Json)
    requires Fits(j, "")
    ensures Report(j) == Reported(j, "", None).es
  {
    hide Walk, Fits, Reported, Nuls, CString;
    var es := Reported(j, "", None).es;
    assert Start().log + es == es;
    WalkReports(j, Start(), "", None);
  }

  // ---- Trees without hidden keys --------------------------------------------

  predicate Plain(j: Json)
  {
    match j
    case Scalar(_, _) => true
    case Arr(items) => ItemsPlain(items)
    case Obj(ms) => MembersPlain(ms)
  }
  predicate ItemsPlain(items: Items)
  {
    match items
    case NoItems => true
    case Item(v, more) => Plain(v) && ItemsPlain(more)
  }
  predicate MembersPlain(ms: Members)
  {
    match ms
    case NoMembers => true
    case Member(key, v, more) => !Hidden(key) && Plain(v) && MembersPlain(more)
  }

  lemma ItemReports(path: string, i: nat)
    ensures Reports(path + Index(i))
  {
    hide Decimal;
  }

  lemma MemberReports(path: string, key: string)
    ensures Reports(path + "." + key) <==> !Hidden(key)
  {
    var p := path + "." + key;
    assert p[|p| - 1] == if key == "" then '.' else key[|key| - 1];
  }

  /** Without hidden keys nothing is lost and no name is left over. */
  lemma {:induction false} PlainReported(j: Json, path: string, name: Option<string>)
    requires Plain(j) && Reports(path)
    ensures Reported(j, path, name) == Told(Events(j, path, name), None)
    decreases j
  {
    hide Reports;
    match j
    case Scalar(_, _) =>
    case Arr(items) => PlainItemsReported(items, 0, path);
    case Obj(ms) => PlainMembersReported(ms, path);
  }

  lemma {:induction false} PlainItemsReported(items: Items, i: nat, path: string)
    requires ItemsPlain(items)
    ensures ReportedItems(items, i, path, None) == Told(ItemEvents(items, i, path), None)
    decreases items
  {
    hide Reports, Plain, Events, Reported, Index;
    if items.Item? {
      ItemReports(path, i);
      PlainReported(items.v, path + Index(i), Some(Decimal(i)));
      PlainItemsReported(items.more, i + 1, path);
    }
  }

  lemma {:induction false} PlainMembersReported(ms: Members, path: string)
    requires MembersPlain(ms)
    ensures ReportedMembers(ms, path, None) == Told(MemberEvents(ms, path), None)
    decreases ms
  {
    hide Reports, Plain, Events, Reported, Hidden;
    if ms.Member? {
      MemberReports(path, ms.key);
      PlainReported(ms.v, path + "." + ms.key, Some(ms.key));
      PlainMembersReported(ms.more, path);
    }
  }
}
