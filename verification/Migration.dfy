/** _internal_convert_v0: the INBOUND and OUTBOUND event types of each service become one type plus an outgoing bit. */
module Migration {
  import opened Seqs
  import opened Tables
  import opened Text
  import opened Connections

  /** A row of EventTypes with its plug-in. */
  datatype TypeRow = TypeRow(id: int, name: string, pluginId: int)
  datatype ServiceRow = ServiceRow(id: int, name: string, pluginId: int)
  datatype FlagRow = FlagRow(serviceId: int, name: string, value: int)

  datatype V0 = V0(events: seq<Event>, types: seq<TypeRow>, services: seq<ServiceRow>, flags: seq<FlagRow>)

  function Prefix(): string {
    "RTCOM_EL_EVENTTYPE_"
  }

  function Inbound(service: string): string {
    Prefix() + (service + "_INBOUND")
  }

  function Outbound(service: string): string {
    Prefix() + (service + "_OUTBOUND")
  }

  function Merged(service: string): string {
    Prefix() + (if service == "CALL" then service else service + "_MESSAGE")
  }

  /** SELECT id FROM EventTypes WHERE name = n, kept in an int that starts at 0. */
  function TypeId(types: seq<TypeRow>, n: string): int {
    if types == [] then 0 else if Last(types).name == n then Last(types).id else TypeId(types[..|types| - 1], n)
  }

  /** ALTER TABLE Events ADD COLUMN outgoing BOOL DEFAULT 0. */
  function ZeroOutgoing(): Event -> Event {
    (e: Event) => e.(outgoing := 0)
  }

  predicate IsOutboundType(types: seq<TypeRow>, id: int) {
    exists t :: t in types && t.id == id && Like("%_" + "OUTBOUND", t.name)
  }

  /** UPDATE Events SET outgoing = 1 WHERE event_type_id IN (types LIKE '%_OUTBOUND'). */
  function MarkOutgoing(types: seq<TypeRow>): Event -> Event {
    (e: Event) => if IsOutboundType(types, e.typeId) then e.(outgoing := 1) else e
  }

  /** UPDATE Events SET event_type_id = to WHERE event_type_id = from. */
  function Retype(from: int, to: int): Event -> Event {
    (e: Event) => if e.typeId == from then e.(typeId := to) else e
  }

  function Renamed(from: string, to: string): TypeRow -> TypeRow {
    (t: TypeRow) => if t.name == from then t.(name := to) else t
  }

  /** UPDATE EventTypes SET name = to WHERE name = from, under UNIQUE(name). */
  function RenameType(db: V0, from: string, to: string): Option<V0> {
    if TypeId(db.types, from) != 0 && exists t :: t in db.types && t.name == to then None
    else Some(db.(types := Map(db.types, Renamed(from, to))))
  }

  function NotNamed(n: string): TypeRow -> bool {
    (t: TypeRow) => t.name != n
  }

  function DropType(db: V0, n: string): V0 {
    db.(types := Filter(db.types, NotNamed(n)))
  }

  /** INSERT INTO EventTypes, under UNIQUE(name). */
  function AddType(db: V0, n: string, pluginId: int): Option<V0> {
    if exists t :: t in db.types && t.name == n then None
    else Some(db.(types := db.types + [TypeRow(NextTypeId(db.types), n, pluginId)]))
  }

  function NextTypeId(types: seq<TypeRow>): int {
    if types == [] then 1 else Last(types).id + 1
  }

  function AddFlag(db: V0, serviceId: int, n: string, value: int): Option<V0> {
    if exists f :: f in db.flags && f.name == n then None
    else Some(db.(flags := db.flags + [FlagRow(serviceId, n, value)]))
  }

  function PluginOf(types: seq<TypeRow>, n: string): int {
    if types == [] then 0 else if types[0].name == n then types[0].pluginId else PluginOf(types[1..], n)
  }

  function ServiceOf(services: seq<ServiceRow>, pluginId: int): int {
    if services == [] then 0
    else if Last(services).pluginId == pluginId then Last(services).id
    else ServiceOf(services[..|services| - 1], pluginId)
  }

  function Services(): seq<string> {
    ["CHAT", "CALL", "SMS"]
  }

  function NewTypes(): seq<string> {
    ["CHAT_NOTICE", "CHAT_ACTION", "CHAT_AUTOREPLY", "CHAT_JOIN", "CHAT_LEAVE", "CHAT_TOPIC"]
  }

  function NewFlags(): seq<(string, int)> {
    [("RTCOM_EL_FLAG_CHAT_GROUP", 1), ("RTCOM_EL_FLAG_CHAT_ROOM", 2), ("RTCOM_EL_FLAG_CHAT_OPAQUE", 4),
        ("RTCOM_EL_FLAG_CHAT_OFFLINE", 8)]
  }

  function EarlierType(): (TypeRow, TypeRow) -> bool {
    (a: TypeRow, b: TypeRow) => a.id < b.id && a.name != b.name
  }

  /** The rows of EventTypes come in the order of their PRIMARY KEY, and names are UNIQUE. */
  ghost predicate TypesKeyed(types: seq<TypeRow>) {
    Pairwise(types, EarlierType())
  }

  lemma SameType(types: seq<TypeRow>, t: TypeRow, u: TypeRow)
    requires TypesKeyed(types) && t in types && u in types && (t.id == u.id || t.name == u.name)
    ensures t == u
  {
    var i :| 0 <= i < |types| && types[i] == t;
    var j :| 0 <= j < |types| && types[j] == u;
  }

  /** The two types of a service both exist. */
  predicate HasTypes(types: seq<TypeRow>, service: string) {
    TypeId(types, Inbound(service)) != 0 && TypeId(types, Outbound(service)) != 0
  }

  /** What the conversion makes of one event, read off the old type table. */
  function Converted(types: seq<TypeRow>): Event -> Event {
    (e: Event) =>
      e.(typeId := NewTypeId(types, e.typeId), outgoing := if IsOutboundType(types, e.typeId) then 1 else 0)
  }

  function NewTypeId(types: seq<TypeRow>, id: int): int {
    if id == TypeId(types, Outbound("CHAT")) then TypeId(types, Inbound("CHAT"))
    else if id == TypeId(types, Outbound("CALL")) then TypeId(types, Inbound("CALL"))
    else if id == TypeId(types, Outbound("SMS")) then TypeId(types, Inbound("SMS"))
    else id
  }

  /** The old type, from the new type and the outgoing bit. */
  function OldTypeId(types: seq<TypeRow>, id: int, outgoing: int): int {
    if outgoing != 1 then id
    else if id == TypeId(types, Inbound("CHAT")) then TypeId(types, Outbound("CHAT"))
    else if id == TypeId(types, Inbound("CALL")) then TypeId(types, Outbound("CALL"))
    else if id == TypeId(types, Inbound("SMS")) then TypeId(types, Outbound("SMS"))
    else id
  }

  lemma {:induction false} TypeIdRow(types: seq<TypeRow>, n: string)
    ensures TypeId(types, n) != 0 ==> exists t :: t in types && t.id == TypeId(types, n) && t.name == n
  {
    if types != [] {
      if Last(types).name == n {
        assert Last(types) in types;
      } else {
        TypeIdRow(types[..|types| - 1], n);
      }
    }
  }

  /** Different names have different ids. */
  lemma {:induction false} TypeIdsDiffer(types: seq<TypeRow>, m: string, n: string)
    requires TypesKeyed(types) && m != n && TypeId(types, m) != 0
    ensures TypeId(types, m) != TypeId(types, n)
  {
    TypeIdRow(types, m);
    TypeIdRow(types, n);
    if TypeId(types, m) == TypeId(types, n) {
      var t :| t in types && t.id == TypeId(types, m) && t.name == m;
      var u :| u in types && u.id == TypeId(types, n) && u.name == n;
      SameType(types, t, u);
    }
  }

  lemma PrefixCancels(p: string, a: string, b: string)
    requires p + a == p + b
    ensures a == b
  {
    assert (p + a)[|p|..] == a && (p + b)[|p|..] == b;
  }

  lemma SuffixCancels(a: string, b: string, c: string)
    requires a + c == b + c
    ensures a == b
  {
    assert |a| == |b| && (a + c)[..|a|] == a && (b + c)[..|b|] == b;
  }

  /** The six type names are six names. */
  lemma NamesDiffer(s: string, t: string)
    requires s in {"CHAT", "CALL", "SMS"} && t in {"CHAT", "CALL", "SMS"}
    ensures Inbound(s) != Outbound(t)
    ensures s != t ==> Inbound(s) != Inbound(t) && Outbound(s) != Outbound(t)
  {
    if Inbound(s) == Outbound(t) {
      PrefixCancels(Prefix(), s + "_INBOUND", t + "_OUTBOUND");
      EndsDiffer(s, t);
    }
    if s != t && Inbound(s) == Inbound(t) {
      PrefixCancels(Prefix(), s + "_INBOUND", t + "_INBOUND");
      SuffixCancels(s, t, "_INBOUND");
    }
    if s != t && Outbound(s) == Outbound(t) {
      PrefixCancels(Prefix(), s + "_OUTBOUND", t + "_OUTBOUND");
      SuffixCancels(s, t, "_OUTBOUND");
    }
  }

  lemma EndsDiffer(s: string, t: string)
    ensures s + "_INBOUND" != t + "_OUTBOUND"
  {
    var a, b := s + "_INBOUND", t + "_OUTBOUND";
    assert a[|a| - 8] == "_INBOUND"[0] == '_';
    assert b[|b| - 8] == "_OUTBOUND"[1] == 'O';
  }

  /** '%_v': at least one character, then v. */
  lemma {:induction false} LikeAfterOne(v: string, s: string)
    requires Plain(v)
    ensures Like("%_" + v, s) <==> |v| < |s| && SameFolded(s[|s| - |v|..], v)
  {
    var p := "_" + v;
    assert ("%_" + v)[1..] == p && p[1..] == v && ("%_" + v)[0] == '%' && p[0] == '_';
    if s != [] {
      LikePlain(v, s[1..]);
      LikeAfterOne(v, s[1..]);
      if |v| < |s| - 1 {
        assert s[1..][|s| - 1 - |v|..] == s[|s| - |v|..];
      } else if |v| == |s| - 1 {
        assert s[|s| - |v|..] == s[1..];
      }
    }
  }

  /** A text that ends in the value of the pattern, after at least one more character. */
  lemma {:induction false} EndMatches(v: string, x: string, c: char)
    requires Plain(v)
    ensures Like("%_" + v, x + [c] + v)
  {
    var s := x + [c] + v;
    LikeAfterOne(v, s);
    assert s[|s| - |v|..] == v;
  }

  /** A text that ends in something as long as the value, but with another first letter. */
  lemma {:induction false} EndDiffers(v: string, x: string, y: string)
    requires Plain(v) && |y| == |v| > 0 && Fold(y[0]) != Fold(v[0])
    ensures !Like("%_" + v, x + y)
  {
    var s := x + y;
    LikeAfterOne(v, s);
    assert s[|s| - |v|..] == y;
  }

  lemma {:induction false} EndRecognised(x: string)
    ensures Like("%_" + "OUTBOUND", x + "_OUTBOUND") && !Like("%_" + "OUTBOUND", x + "_INBOUND")
  {
    assert "_OUTBOUND" == ['_'] + "OUTBOUND";
    assert x + "_OUTBOUND" == x + ['_'] + "OUTBOUND";
    EndMatches("OUTBOUND", x, '_');
    EndDiffers("OUTBOUND", x, "_INBOUND");
  }

  /** OUTBOUND types are recognised by the pattern, INBOUND types are not. */
  lemma OutboundRecognised(s: string)
    ensures Like("%_" + "OUTBOUND", Outbound(s)) && !Like("%_" + "OUTBOUND", Inbound(s))
  {
    EndRecognised(Prefix() + s);
    Regroup(Prefix(), s, "_OUTBOUND", "");
    Regroup(Prefix(), s, "_INBOUND", "");
  }

  lemma {:induction false} OutboundMarked(types: seq<TypeRow>, s: string)
    requires TypesKeyed(types) && HasTypes(types, s)
    ensures IsOutboundType(types, TypeId(types, Outbound(s))) && !IsOutboundType(types, TypeId(types, Inbound(s)))
  {
    OutboundRecognised(s);
    TypeIdRow(types, Outbound(s));
    TypeIdRow(types, Inbound(s));
  }

  ghost predicate AllTypes(types: seq<TypeRow>) {
    TypesKeyed(types) && HasTypes(types, "CHAT") && HasTypes(types, "CALL") && HasTypes(types, "SMS")
  }

  /** The six ids are six ids. */
  lemma {:induction false} SixIds(types: seq<TypeRow>, s: string, t: string)
    requires AllTypes(types) && s in {"CHAT", "CALL", "SMS"} && t in {"CHAT", "CALL", "SMS"}
    ensures TypeId(types, Inbound(s)) != TypeId(types, Outbound(t))
    ensures s != t ==> TypeId(types, Inbound(s)) != TypeId(types, Inbound(t))
    ensures s != t ==> TypeId(types, Outbound(s)) != TypeId(types, Outbound(t))
  {
    NamesDiffer(s, t);
    TypeIdsDiffer(types, Inbound(s), Outbound(t));
    if s != t {
      TypeIdsDiffer(types, Inbound(s), Inbound(t));
      TypeIdsDiffer(types, Outbound(s), Outbound(t));
    }
  }

  /** The conversion of an event can be undone, keeps everything but type and outgoing bit, and leaves no event with a
      deleted type. */
  lemma {:induction false} ConversionInvertible(types: seq<TypeRow>, e: Event)
    requires AllTypes(types)
    ensures var c := Converted(types)(e);
            && OldTypeId(types, c.typeId, c.outgoing) == e.typeId
            && c == e.(typeId := c.typeId, outgoing := c.outgoing)
            && c.typeId != TypeId(types, Outbound("CHAT")) && c.typeId != TypeId(types, Outbound("CALL"))
            && c.typeId != TypeId(types, Outbound("SMS"))
            && (e.typeId !in {TypeId(types, Outbound("CHAT")), TypeId(types, Outbound("CALL")),
                TypeId(types, Outbound("SMS"))} ==>
                c.typeId == e.typeId)
  {
    SixIds(types, "CHAT", "CHAT"); SixIds(types, "CALL", "CALL"); SixIds(types, "SMS", "SMS");
    SixIds(types, "CHAT", "CALL"); SixIds(types, "CHAT", "SMS"); SixIds(types, "CALL", "SMS");
    SixIds(types, "CALL", "CHAT"); SixIds(types, "SMS", "CHAT"); SixIds(types, "SMS", "CALL");
    OutboundMarked(types, "CHAT");
    OutboundMarked(types, "CALL");
    OutboundMarked(types, "SMS");
  }

  /* ---- the conversion itself ---- */

  /** The statements for one service.  The outcome of the last one, which drops the OUTBOUND type, is never looked at;
      `dropped` says whether it worked. */
  function ConvertService(db: V0, service: string, dropped: bool): Option<V0> {
    if !HasTypes(db.types, service) then None
    else
      match RenameType(Merge(db, service), Inbound(service), Merged(service))
      case None => None
      case Some(db') => Some(if dropped then DropType(db', Outbound(service)) else db')
  }

  /** UPDATE Events: the service's OUTBOUND events take its INBOUND type. */
  function Merge(db: V0, service: string): V0 {
    db.(events := Map(db.events, Retype(TypeId(db.types, Outbound(service)), TypeId(db.types, Inbound(service)))))
  }

  function ConvertServices(db: V0, services: seq<string>, drops: seq<bool>): Option<V0>
    requires |services| == |drops|
  {
    if services == [] then Some(db)
    else
      match ConvertServices(db, services[..|services| - 1], drops[..|drops| - 1])
      case None => None
      case Some(db') => ConvertService(db', Last(services), Last(drops))
  }

  function AddTypes(db: V0, names: seq<string>, pluginId: int): Option<V0> {
    if names == [] then Some(db)
    else
      match AddTypes(db, names[..|names| - 1], pluginId)
      case None => None
      case Some(db') => AddType(db', Prefix() + Last(names), pluginId)
  }

  function AddFlags(db: V0, flags: seq<(string, int)>, serviceId: int): Option<V0> {
    if flags == [] then Some(db)
    else
      match AddFlags(db, flags[..|flags| - 1], serviceId)
      case None => None
      case Some(db') => AddFlag(db', serviceId, Last(flags).0, Last(flags).1)
  }

  function Marked(db: V0): V0 {
    db.(events := Map(Map(db.events, ZeroOutgoing()), MarkOutgoing(db.types)))
  }

  /** Everything the conversion does to the tables. */
  function Convert(db: V0, drops: seq<bool>): Option<V0>
    requires |drops| == 3
  {
    match ConvertServices(Marked(db), Services(), drops)
    case None => None
    case Some(db1) => AddRest(db1)
  }

  /** The new chat types and flags. */
  function AddRest(db: V0): Option<V0> {
    var plugin := PluginOf(db.types, Merged("CHAT"));
    if plugin == 0 then None
    else
      match AddTypes(db, NewTypes(), plugin)
      case None => None
      case Some(db1) =>
        var service := ServiceOf(db1.services, plugin);
        if service == 0 then None else AddFlags(db1, NewFlags(), service)
  }

  lemma {:induction false} RenameKeeps(types: seq<TypeRow>, from: string, to: string, n: string)
    requires n != from && n != to
    ensures TypeId(Map(types, Renamed(from, to)), n) == TypeId(types, n)
  {
    if types != [] {
      var init := types[..|types| - 1];
      RenameKeeps(init, from, to, n);
      assert Map(types, Renamed(from, to))[..|types| - 1] == Map(init, Renamed(from, to));
    }
  }

  lemma {:induction false} DropKeeps(types: seq<TypeRow>, m: string, n: string)
    requires n != m
    ensures TypeId(Filter(types, NotNamed(m)), n) == TypeId(types, n)
  {
    if types != [] {
      var init := types[..|types| - 1];
      DropKeeps(init, m, n);
      var kept := Filter(init, NotNamed(m));
      assert (kept + [Last(types)])[..|kept|] == kept;
    }
  }

  /** The merged name of one service is neither old name of another. */
  lemma MergedDiffers(s: string, t: string)
    ensures Merged(s) != Inbound(t) && Merged(s) != Outbound(t)
  {
    var merged := if s == "CALL" then s else s + "_MESSAGE";
    if Merged(s) == Inbound(t) {
      PrefixCancels(Prefix(), merged, t + "_INBOUND");
      LastLetters(s, t);
    }
    if Merged(s) == Outbound(t) {
      PrefixCancels(Prefix(), merged, t + "_OUTBOUND");
      LastLetters(s, t);
    }
  }

  lemma LastLetters(s: string, t: string)
    ensures var merged := if s == "CALL" then s else s + "_MESSAGE";
            merged != t + "_INBOUND" && merged != t + "_OUTBOUND"
  {
    var i, o := t + "_INBOUND", t + "_OUTBOUND";
    assert i[|i| - 1] == 'D' && o[|o| - 1] == 'D';
    if s != "CALL" {
      var m := s + "_MESSAGE";
      assert m[|m| - 1] == 'E';
    }
  }

  /** Converting one service leaves the ids of another service's types alone. */
  lemma ServiceKeepsOthers(db: V0, s: string, t: string, dropped: bool)
    requires s in {"CHAT", "CALL", "SMS"} && t in {"CHAT", "CALL", "SMS"} && s != t
    requires ConvertService(db, s, dropped).Some?
    ensures var types := ConvertService(db, s, dropped).value.types;
            TypeId(types, Inbound(t)) == TypeId(db.types, Inbound(t))
                && TypeId(types, Outbound(t)) == TypeId(db.types, Outbound(t))
  {
    NamesDiffer(s, t);
    NamesDiffer(t, s);
    MergedDiffers(s, t);
    var renamed := Map(db.types, Renamed(Inbound(s), Merged(s)));
    RenameKeeps(db.types, Inbound(s), Merged(s), Inbound(t));
    RenameKeeps(db.types, Inbound(s), Merged(s), Outbound(t));
    DropKeeps(renamed, Outbound(s), Inbound(t));
    DropKeeps(renamed, Outbound(s), Outbound(t));
  }

  lemma {:induction false} ThreeServices(db: V0, drops: seq<bool>)
    requires |drops| == 3
    ensures ConvertServices(db, Services(), drops) ==
            match ConvertService(db, "CHAT", drops[0])
            case None => None
            case Some(db1) =>
              match ConvertService(db1, "CALL", drops[1])
              case None => None
              case Some(db2) => ConvertService(db2, "SMS", drops[2])
  {
    var two, one := Services()[..2], Services()[..1];
    assert two == ["CHAT", "CALL"] && one == ["CHAT"] && two[..1] == one && one[..0] == [];
    assert drops[..2][..1] == drops[..1] && drops[..1][..0] == [];
    assert ConvertServices(db, one[..0], drops[..1][..0]) == Some(db);
    assert ConvertServices(db, one, drops[..1]) == ConvertService(db, "CHAT", drops[0]);
  }

  /** The whole conversion of Events is the event-by-event one, read off the type table as it was before. */
  lemma EventsConverted(db: V0, drops: seq<bool>)
    requires |drops| == 3 && TypesKeyed(db.types) && Convert(db, drops).Some?
    ensures AllTypes(db.types) && Convert(db, drops).value.events == Map(db.events, Converted(db.types))
  {
    ThreeServices(Marked(db), drops);
    var m0 := Marked(db);
    var m1 := ConvertService(m0, "CHAT", drops[0]).value;
    var m2 := ConvertService(m1, "CALL", drops[1]).value;
    var m3 := ConvertService(m2, "SMS", drops[2]).value;
    ServiceKeepsOthers(m0, "CHAT", "CALL", drops[0]);
    ServiceKeepsOthers(m0, "CHAT", "SMS", drops[0]);
    ServiceKeepsOthers(m1, "CALL", "SMS", drops[1]);
    assert AllTypes(db.types);
    RestKeepsEvents(m3);
    assert m3.events == Map(Map(Map(m0.events, RetypeOf(db.types, "CHAT")), RetypeOf(db.types, "CALL")),
           RetypeOf(db.types, "SMS"));
    forall i | 0 <= i < |db.events| ensures m3.events[i] == Converted(db.types)(db.events[i]) {
      OneEvent(db.types, db.events[i]);
    }
  }

  function RetypeOf(types: seq<TypeRow>, s: string): Event -> Event {
    Retype(TypeId(types, Outbound(s)), TypeId(types, Inbound(s)))
  }

  lemma OneEvent(types: seq<TypeRow>, e: Event)
    requires AllTypes(types)
    ensures var marked := MarkOutgoing(types)(ZeroOutgoing()(e));
            RetypeOf(types, "SMS")(RetypeOf(types, "CALL")(RetypeOf(types, "CHAT")(marked))) == Converted(types)(e)
  {
    SixIds(types, "CHAT", "CALL");
    SixIds(types, "CHAT", "SMS");
    SixIds(types, "CALL", "SMS");
  }

  lemma {:induction false} TypesKeepEvents(db: V0, names: seq<string>, pluginId: int)
    ensures AddTypes(db, names, pluginId).Some? ==> AddTypes(db, names, pluginId).value.events == db.events
  {
    if names != [] { TypesKeepEvents(db, names[..|names| - 1], pluginId); }
  }

  lemma {:induction false} FlagsKeepEvents(db: V0, flags: seq<(string, int)>, serviceId: int)
    ensures AddFlags(db, flags, serviceId).Some? ==> AddFlags(db, flags, serviceId).value.events == db.events
  {
    if flags != [] { FlagsKeepEvents(db, flags[..|flags| - 1], serviceId); }
  }

  lemma RestKeepsEvents(db: V0)
    ensures AddRest(db).Some? ==> AddRest(db).value.events == db.events
  {
    var plugin := PluginOf(db.types, Merged("CHAT"));
    TypesKeepEvents(db, NewTypes(), plugin);
    if AddTypes(db, NewTypes(), plugin).Some? {
      var db1 := AddTypes(db, NewTypes(), plugin).value;
      FlagsKeepEvents(db1, NewFlags(), ServiceOf(db1.services, plugin));
    }
  }

  /** A successful conversion loses nothing: the events are as many, in the same order; each keeps its id and every
      column but type and outgoing; its old type follows from the new type and the outgoing bit; and none has a dropped
      type. */
  lemma ConversionLosesNothing(db: V0, drops: seq<bool>, i: nat)
    requires |drops| == 3 && TypesKeyed(db.types) && Convert(db, drops).Some? && i < |db.events|
    ensures |Convert(db, drops).value.events| == |db.events|
    ensures var e, c := db.events[i], Convert(db, drops).value.events[i];
            && OldTypeId(db.types, c.typeId, c.outgoing) == e.typeId
            && c == e.(typeId := c.typeId, outgoing := c.outgoing)
            && c.typeId !in {TypeId(db.types, Outbound("CHAT")), TypeId(db.types, Outbound("CALL")),
                TypeId(db.types, Outbound("SMS"))}
  {
    EventsConverted(db, drops);
    ConversionInvertible(db.types, db.events[i]);
  }

  ghost predicate AllDropped(drops: seq<bool>) {
    forall k :: 0 <= k < |drops| ==> drops[k]
  }

  /** _internal_convert_v0, in the transaction its caller opened.  `drops` records the unchecked DELETEs, and `alive`
      whether the transaction survived all of them.  If one of them fails and takes the transaction with it, the
      statements after it run outside any transaction; then the conversion cannot succeed, nor be undone. */
  method ConvertV0(conn: Connection<V0>) returns (ok: bool, ghost drops: seq<bool>, ghost alive: bool)
    requires !conn.autocommit && conn.journal
    modifies conn`db, conn`autocommit
    ensures ok ==> alive && |drops| == 3 && Convert(old(conn.db), drops) == Some(conn.db)
    ensures conn.autocommit
    ensures !ok && alive ==> conn.db == conn.saved
    ensures AllDropped(drops) ==> alive
  {
    drops, alive := [], true;
    ok := MarkAll(conn);
    if ok {
      ok, drops, alive := ConvertEach(conn, Services());
    }
    if ok {
      ok := AddNewRows(conn);
    }
    if ok {
      RenewTriggers(conn);
      ok := conn.Exec(Some(conn.db));
    }
    if ok {
      ok := conn.Commit();
    }
    if !ok {
      var undone := conn.Rollback();
    }
  }

  /** The new columns and the outgoing bit. */
  method MarkAll(conn: Connection<V0>) returns (ok: bool)
    requires conn.journal && !conn.autocommit
    modifies conn`db, conn`autocommit
    ensures ok ==> !conn.autocommit && conn.db == Marked(old(conn.db))
    ensures !ok ==> !conn.autocommit || conn.db == conn.saved
  {
    ok := conn.Exec(Some(conn.db.(events := Map(conn.db.events, ZeroOutgoing()))));
    if ok {
      ok := conn.Exec(Some(conn.db));
    }
    if ok {
      ok := conn.Exec(Some(conn.db.(events := Map(conn.db.events, MarkOutgoing(conn.db.types)))));
    }
  }

  /** The loop over the services. */
  method ConvertEach(conn: Connection<V0>, services: seq<string>)
      returns (ok: bool, ghost drops: seq<bool>, ghost alive: bool)
    requires conn.journal && !conn.autocommit
    modifies conn`db, conn`autocommit
    ensures ok ==> |drops| == |services|
    ensures ok && !conn.autocommit ==> ConvertServices(old(conn.db), services, drops) == Some(conn.db)
    ensures alive ==> if ok then !conn.autocommit else !conn.autocommit || conn.db == conn.saved
    ensures !alive ==> conn.autocommit
    ensures AllDropped(drops) ==> alive
  {
    var i := 0;
    drops, alive := [], true;
    ok := true;
    while i < |services|
      invariant 0 <= i <= |services| && |drops| == i && conn.journal && ok
      invariant !conn.autocommit ==> ConvertServices(old(conn.db), services[..i], drops) == Some(conn.db)
      invariant alive <==> !conn.autocommit
      invariant AllDropped(drops) ==> alive
    {
      var worked;
      ghost var before := drops;
      ok, worked := ConvertOne(conn, services[i]);
      if !ok {
        return;
      }
      alive := !conn.autocommit;
      drops := drops + [worked];
      ServicesPush(old(conn.db), services, i, before, worked);
      DroppedPush(before, worked);
      i := i + 1;
    }
    assert services[..i] == services;
  }

  lemma DroppedPush(drops: seq<bool>, worked: bool)
    ensures AllDropped(drops + [worked]) ==> AllDropped(drops) && worked
  {
    var all := drops + [worked];
    if AllDropped(all) {
      assert all[|drops|] == worked;
      forall k | 0 <= k < |drops| ensures drops[k] { assert all[k] == drops[k]; }
    }
  }

  lemma {:induction false} ServicesPush(db: V0, services: seq<string>, i: nat, drops: seq<bool>, worked: bool)
    requires i < |services| && |drops| == i
    ensures ConvertServices(db, services[..i + 1], drops + [worked]) ==
            match ConvertServices(db, services[..i], drops)
            case None => None
            case Some(db') => ConvertService(db', services[i], worked)
  {
    assert services[..i + 1][..i] == services[..i] && (drops + [worked])[..i] == drops;
  }

  /** The loop body of the conversion. */
  method ConvertOne(conn: Connection<V0>, service: string) returns (ok: bool, dropped: bool)
    requires conn.journal
    modifies conn`db, conn`autocommit
    ensures ok && !conn.autocommit ==>
            !old(conn.autocommit) && ConvertService(old(conn.db), service, dropped) == Some(conn.db)
    ensures ok && dropped ==> conn.autocommit == old(conn.autocommit)
    ensures old(conn.autocommit) ==> conn.autocommit
    ensures !ok ==>
              if conn.autocommit then !old(conn.autocommit) ==> conn.db == conn.saved else !old(conn.autocommit)
  {
    dropped := false;
    ok := conn.Ask();
    if !ok || TypeId(conn.db.types, Inbound(service)) == 0 {
      return false, false;
    }
    ok := conn.Ask();
    if !ok || TypeId(conn.db.types, Outbound(service)) == 0 {
      return false, false;
    }
    ok := conn.Exec(Some(Merge(conn.db, service)));
    if !ok {
      return;
    }
    ok := conn.Exec(RenameType(conn.db, Inbound(service), Merged(service)));
    if !ok {
      return;
    }
    dropped := conn.Exec(Some(DropType(conn.db, Outbound(service))));
  }

  /** The rest of the conversion: new chat types and flags. */
  method AddNewRows(conn: Connection<V0>) returns (ok: bool)
    requires conn.journal
    modifies conn`db, conn`autocommit
    ensures ok ==> conn.autocommit == old(conn.autocommit) && AddRest(old(conn.db)) == Some(conn.db)
    ensures !ok ==>
              if conn.autocommit then !old(conn.autocommit) ==> conn.db == conn.saved else !old(conn.autocommit)
  {
    ok := conn.Ask();
    var plugin := PluginOf(conn.db.types, Merged("CHAT"));
    if !ok || plugin == 0 {
      return false;
    }
    ok := AddNewTypes(conn, plugin);
    if !ok {
      return;
    }
    ok := conn.Ask();
    var service := ServiceOf(conn.db.services, plugin);
    if !ok || service == 0 {
      return false;
    }
    ok := AddNewFlags(conn, service);
  }

  /** The old triggers go, the current ones come; none of the five outcomes is looked at.  The tables stay as they are,
      unless a failure rolls everything back. */
  method RenewTriggers(conn: Connection<V0>)
    requires conn.journal
    modifies conn`db, conn`autocommit
    ensures conn.Unwound()
  {
    var unseen := conn.Exec(Some(conn.db));
    unseen := conn.Exec(Some(conn.db));
    unseen := conn.Exec(Some(conn.db));
    unseen := conn.Exec(Some(conn.db));
    unseen := conn.Exec(Some(conn.db));
  }

  method AddNewTypes(conn: Connection<V0>, plugin: int) returns (ok: bool)
    requires conn.journal
    modifies conn`db, conn`autocommit
    ensures ok ==>
              conn.autocommit == old(conn.autocommit) && AddTypes(old(conn.db), NewTypes(), plugin) == Some(conn.db)
    ensures !ok ==>
              if conn.autocommit then !old(conn.autocommit) ==> conn.db == conn.saved else !old(conn.autocommit)
  {
    var names, i := NewTypes(), 0;
    ok := true;
    while i < |names|
      invariant 0 <= i <= |names| && conn.journal && conn.autocommit == old(conn.autocommit) && ok
      invariant AddTypes(old(conn.db), names[..i], plugin) == Some(conn.db)
    {
      ok := conn.Exec(AddType(conn.db, Prefix() + names[i], plugin));
      if !ok {
        return;
      }
      assert names[..i + 1][..i] == names[..i];
      i := i + 1;
    }
    assert names[..i] == names;
  }

  method AddNewFlags(conn: Connection<V0>, service: int) returns (ok: bool)
    requires conn.journal
    modifies conn`db, conn`autocommit
    ensures ok ==>
              conn.autocommit == old(conn.autocommit) && AddFlags(old(conn.db), NewFlags(), service) == Some(conn.db)
    ensures !ok ==>
              if conn.autocommit then !old(conn.autocommit) ==> conn.db == conn.saved else !old(conn.autocommit)
  {
    var flags, j := NewFlags(), 0;
    ok := true;
    while j < |flags|
      invariant 0 <= j <= |flags| && conn.journal && conn.autocommit == old(conn.autocommit) && ok
      invariant AddFlags(old(conn.db), flags[..j], service) == Some(conn.db)
    {
      ok := conn.Exec(AddFlag(conn.db, service, flags[j].0, flags[j].1));
      if !ok {
        return;
      }
      assert flags[..j + 1][..j] == flags[..j];
      j := j + 1;
    }
    assert flags[..j] == flags;
  }
}
