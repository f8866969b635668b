/** The EventTypes table after the conversion, and how it alone gives every event its old type back. */
module MigratedTypes {
  import opened Seqs
  import opened Tables
  import opened Migration
  import opened Operations

  /** The old and new type names of one service. */
  datatype Names = Names(inbound: string, outbound: string, merged: string)

  function NamesOf(s: string): Names {
    Names(Inbound(s), Outbound(s), Merged(s))
  }

  /** The name a row bears after the round for a service. */
  function RoundName(s: Names, n: string): string {
    if n == s.inbound then s.merged else n
  }

  /** No row bears this name. */
  ghost predicate Nameless(types: seq<TypeRow>, n: string) {
    forall t | t in types :: t.name != n
  }

  /** What the round for a service does to the table. */
  ghost predicate Round(before: seq<TypeRow>, after: seq<TypeRow>, s: Names, dropped: bool) {
    && TypesKeyed(after)
    && Nameless(before, s.merged)
    && (forall t | t in before && t.name != s.outbound :: t.(name := RoundName(s, t.name)) in after)
    && (forall n | Nameless(before, n) && n != s.merged :: Nameless(after, n))
    && (dropped ==> Nameless(after, s.outbound))
  }

  lemma RenamedKeyed(types: seq<TypeRow>, from: string, to: string)
    requires TypesKeyed(types) && forall t | t in types :: t.name != to
    ensures TypesKeyed(Map(types, Renamed(from, to)))
  {
    var after := Map(types, Renamed(from, to));
    forall i, j | 0 <= i < j < |after| ensures EarlierType()(after[i], after[j]) {
      assert EarlierType()(types[i], types[j]) && types[i] in types && types[j] in types;
    }
  }

  function RoundTable(types: seq<TypeRow>, s: Names, dropped: bool): seq<TypeRow> {
    var renamed := Map(types, Renamed(s.inbound, s.merged));
    if dropped then Filter(renamed, NotNamed(s.outbound)) else renamed
  }

  lemma RoundDone(types: seq<TypeRow>, s: Names, dropped: bool)
    requires TypesKeyed(types) && Nameless(types, s.merged)
    requires s.inbound != s.outbound && s.merged != s.outbound
    ensures Round(types, RoundTable(types, s, dropped), s, dropped)
  {
    var renamed := Map(types, Renamed(s.inbound, s.merged));
    var after := RoundTable(types, s, dropped);
    RenamedKeyed(types, s.inbound, s.merged);
    FilterPairwise(renamed, NotNamed(s.outbound), EarlierType());
    FilterAll(renamed, NotNamed(s.outbound));
    forall t | t in types && t.name != s.outbound ensures t.(name := RoundName(s, t.name)) in after {
      var k :| 0 <= k < |types| && types[k] == t;
      assert renamed[k] == t.(name := RoundName(s, t.name)) && renamed[k] in renamed;
    }
    forall n, t | Nameless(types, n) && n != s.merged && t in after ensures t.name != n {
      var k :| 0 <= k < |renamed| && renamed[k] == t;
      assert types[k] in types;
    }
  }

  lemma ServiceRound(db: V0, s: string, dropped: bool)
    requires TypesKeyed(db.types) && s in {"CHAT", "CALL", "SMS"} && ConvertService(db, s, dropped).Some?
    ensures Round(db.types, ConvertService(db, s, dropped).value.types, NamesOf(s), dropped)
  {
    MergedDiffers(s, s);
    NamesDiffer(s, s);
    assert ConvertService(db, s, dropped).value.types == RoundTable(db.types, NamesOf(s), dropped);
    RoundDone(db.types, NamesOf(s), dropped);
  }

  /** Three services whose names all differ. */
  ghost predicate Distinct(ss: seq<Names>) {
    && |ss| == 3
    && (forall i, j :: 0 <= i < 3 && 0 <= j < 3 ==> ss[i].inbound != ss[j].outbound)
    && (forall i, j :: 0 <= i < 3 && 0 <= j < 3 ==> ss[i].merged != ss[j].inbound && ss[i].merged != ss[j].outbound)
    && (forall i, j :: 0 <= i < j < 3 ==> ss[i].inbound != ss[j].inbound && ss[i].outbound != ss[j].outbound)
    && (forall i, j :: 0 <= i < j < 3 ==> ss[i].merged != ss[j].merged)
  }

  /** The name a row bears after all three rounds. */
  function NewName(ss: seq<Names>, n: string): string
    requires |ss| == 3
  {
    if n == ss[0].inbound then ss[0].merged
    else if n == ss[1].inbound then ss[1].merged
    else if n == ss[2].inbound then ss[2].merged
    else n
  }

  predicate IsOutbound(ss: seq<Names>, n: string)
    requires |ss| == 3
  {
    n == ss[0].outbound || n == ss[1].outbound || n == ss[2].outbound
  }

  predicate IsMerged(ss: seq<Names>, n: string)
    requires |ss| == 3
  {
    n == ss[0].merged || n == ss[1].merged || n == ss[2].merged
  }

  /** What the conversion as a whole does to the table: every row but the OUTBOUND ones is still there, the INBOUND ones
      under the merged name, which no row bore before; a dropped OUTBOUND name is gone. */
  ghost predicate Migrated(before: seq<TypeRow>, after: seq<TypeRow>, ss: seq<Names>, drops: seq<bool>)
    requires |ss| == 3 && |drops| == 3
  {
    && TypesKeyed(after)
    && (forall t | t in before :: !IsMerged(ss, t.name))
    && (forall t | t in before && !IsOutbound(ss, t.name) :: t.(name := NewName(ss, t.name)) in after)
    && (forall k | 0 <= k < 3 && drops[k] :: Nameless(after, ss[k].outbound))
  }

  ghost predicate ThreeRounds(a: seq<TypeRow>, b: seq<TypeRow>, c: seq<TypeRow>, d: seq<TypeRow>, ss: seq<Names>,
      drops: seq<bool>)
    requires |ss| == 3 && |drops| == 3
  {
    Round(a, b, ss[0], drops[0]) && Round(b, c, ss[1], drops[1]) && Round(c, d, ss[2], drops[2])
  }

  lemma RowThrough(before: seq<TypeRow>, after: seq<TypeRow>, s: Names, dropped: bool, t: TypeRow)
    requires Round(before, after, s, dropped) && t in before
    ensures t.name != s.merged
    ensures t.name != s.outbound ==> t.(name := RoundName(s, t.name)) in after
  {
  }

  /** One row through the three rounds. */
  lemma OneRow(a: seq<TypeRow>, b: seq<TypeRow>, c: seq<TypeRow>, d: seq<TypeRow>, ss: seq<Names>, drops: seq<bool>,
      t: TypeRow)
    requires Distinct(ss) && |drops| == 3 && t in a && ThreeRounds(a, b, c, d, ss, drops)
    ensures !IsMerged(ss, t.name)
    ensures !IsOutbound(ss, t.name) ==> t.(name := NewName(ss, t.name)) in d
  {
    RowThrough(a, b, ss[0], drops[0], t);
    if !IsOutbound(ss, t.name) {
      var t1 := t.(name := RoundName(ss[0], t.name));
      RowThrough(b, c, ss[1], drops[1], t1);
      var t2 := t1.(name := RoundName(ss[1], t1.name));
      RowThrough(c, d, ss[2], drops[2], t2);
      assert t2.(name := RoundName(ss[2], t2.name)) == t.(name := NewName(ss, t.name));
    }
  }

  lemma RoundsMigrate(a: seq<TypeRow>, b: seq<TypeRow>, c: seq<TypeRow>, d: seq<TypeRow>, ss: seq<Names>,
      drops: seq<bool>)
    requires Distinct(ss) && |drops| == 3 && ThreeRounds(a, b, c, d, ss, drops)
    ensures Migrated(a, d, ss, drops)
  {
    forall t | t in a
      ensures !IsMerged(ss, t.name)
      ensures !IsOutbound(ss, t.name) ==> t.(name := NewName(ss, t.name)) in d
    {
      OneRow(a, b, c, d, ss, drops, t);
    }
  }

  /* ---- the conversion ---- */

  function Three(): seq<Names> {
    [NamesOf("CHAT"), NamesOf("CALL"), NamesOf("SMS")]
  }

  lemma MergedLengths()
    ensures |Merged("CHAT")| == |Prefix()| + 12 && |Merged("CALL")| == |Prefix()| + 4
            && |Merged("SMS")| == |Prefix()| + 11
  {
  }

  predicate Unlike(a: Names, b: Names) {
    a.inbound != b.outbound && a.merged != b.inbound && a.merged != b.outbound
  }

  predicate Other(a: Names, b: Names) {
    Unlike(a, b) && Unlike(b, a) && a.inbound != b.inbound && a.outbound != b.outbound && a.merged != b.merged
  }

  lemma UnlikeNames(s: string, t: string)
    requires s in {"CHAT", "CALL", "SMS"} && t in {"CHAT", "CALL", "SMS"}
    ensures Unlike(NamesOf(s), NamesOf(t))
  {
    NamesDiffer(s, t);
    MergedDiffers(s, t);
  }

  lemma OtherNames(s: string, t: string)
    requires s in {"CHAT", "CALL", "SMS"} && t in {"CHAT", "CALL", "SMS"} && |Merged(s)| != |Merged(t)|
    ensures Other(NamesOf(s), NamesOf(t))
  {
    UnlikeNames(s, t);
    UnlikeNames(t, s);
    NamesDiffer(s, t);
    assert Merged(s) != Merged(t);
    assert s != t;
  }

  lemma DistinctFrom(a: Names, b: Names, c: Names)
    requires Unlike(a, a) && Unlike(b, b) && Unlike(c, c) && Other(a, b) && Other(a, c) && Other(b, c)
    ensures Distinct([a, b, c])
  {
  }

  lemma ThreeDistinct()
    ensures Distinct(Three())
  {
    MergedLengths();
    UnlikeNames("CHAT", "CHAT");
    UnlikeNames("CALL", "CALL");
    UnlikeNames("SMS", "SMS");
    OtherNames("CHAT", "CALL");
    OtherNames("CHAT", "SMS");
    OtherNames("CALL", "SMS");
    DistinctFrom(NamesOf("CHAT"), NamesOf("CALL"), NamesOf("SMS"));
  }

  lemma {:induction false} FlagsKeepTypes(db: V0, flags: seq<(string, int)>, serviceId: int)
    ensures AddFlags(db, flags, serviceId).Some? ==> AddFlags(db, flags, serviceId).value.types == db.types
  {
    if flags != [] { FlagsKeepTypes(db, flags[..|flags| - 1], serviceId); }
  }

  /** Rows are appended, with new ids and with the names given. */
  ghost predicate Grown(before: seq<TypeRow>, after: seq<TypeRow>, names: seq<string>) {
    && TypesKeyed(after)
    && (forall t | t in before :: t in after)
    && (forall n | Nameless(before, n) && n !in names :: Nameless(after, n))
  }

  lemma TypeAppended(types: seq<TypeRow>, n: string, pluginId: int)
    requires TypesKeyed(types) && Nameless(types, n)
    ensures Grown(types, types + [TypeRow(NextTypeId(types), n, pluginId)], [n])
  {
    var after := types + [TypeRow(NextTypeId(types), n, pluginId)];
    forall i, j | 0 <= i < j < |after| ensures EarlierType()(after[i], after[j]) {
      assert types[i] in types;
      assert i < |types| - 1 ==> EarlierType()(types[i], types[|types| - 1]);
      assert j < |types| ==> EarlierType()(types[i], types[j]);
    }
    assert n in [n];
  }

  function Prefixed(names: seq<string>): seq<string> {
    Map(names, (n: string) => Prefix() + n)
  }

  lemma {:induction false} TypesGrow(db: V0, names: seq<string>, pluginId: int)
    requires TypesKeyed(db.types) && AddTypes(db, names, pluginId).Some?
    ensures Grown(db.types, AddTypes(db, names, pluginId).value.types, Prefixed(names))
  {
    if names != [] {
      var init := names[..|names| - 1];
      TypesGrow(db, init, pluginId);
      var before := AddTypes(db, init, pluginId).value.types;
      TypeAppended(before, Prefix() + Last(names), pluginId);
      assert Prefixed(names) == Prefixed(init) + [Prefix() + Last(names)];
    }
  }

  lemma RestGrows(db: V0)
    requires TypesKeyed(db.types) && AddRest(db).Some?
    ensures Grown(db.types, AddRest(db).value.types, Prefixed(NewTypes()))
  {
    var plugin := PluginOf(db.types, Merged("CHAT"));
    TypesGrow(db, NewTypes(), plugin);
    var db1 := AddTypes(db, NewTypes(), plugin).value;
    FlagsKeepTypes(db1, NewFlags(), ServiceOf(db1.services, plugin));
  }

  /** None of the new names is an OUTBOUND name. */
  lemma NewNamesDiffer(s: string)
    ensures Outbound(s) !in Prefixed(NewTypes())
  {
    var o := Outbound(s);
    assert o == Prefix() + s + "_OUTBOUND";
    assert o[|o| - 1] == 'D';
    var news := NewTypes();
    forall k | 0 <= k < |news| ensures Prefix() + news[k] != o {
      assert news[k][|news[k]| - 1] != 'D';
      assert (Prefix() + news[k])[|Prefix() + news[k]| - 1] == news[k][|news[k]| - 1];
    }
  }

  lemma GrownMigrated(a: seq<TypeRow>, b: seq<TypeRow>, c: seq<TypeRow>, ss: seq<Names>, drops: seq<bool>,
      names: seq<string>)
    requires |ss| == 3 && |drops| == 3 && Migrated(a, b, ss, drops) && Grown(b, c, names)
    requires forall k :: 0 <= k < 3 ==> ss[k].outbound !in names
    ensures Migrated(a, c, ss, drops)
  {
  }

  /** The loop over the services, as three rounds. */
  lemma RoundsOf(db: V0, drops: seq<bool>) returns (b: seq<TypeRow>, c: seq<TypeRow>, after: V0)
    requires |drops| == 3 && TypesKeyed(db.types) && ConvertServices(db, Services(), drops).Some?
    ensures ConvertServices(db, Services(), drops) == Some(after)
    ensures Round(db.types, b, NamesOf("CHAT"), drops[0]) && Round(b, c, NamesOf("CALL"), drops[1])
    ensures Round(c, after.types, NamesOf("SMS"), drops[2])
  {
    ThreeServices(db, drops);
    var m1 := ConvertService(db, "CHAT", drops[0]).value;
    var m2 := ConvertService(m1, "CALL", drops[1]).value;
    after := ConvertService(m2, "SMS", drops[2]).value;
    ServiceRound(db, "CHAT", drops[0]);
    ServiceRound(m1, "CALL", drops[1]);
    ServiceRound(m2, "SMS", drops[2]);
    b, c := m1.types, m2.types;
  }

  lemma OutboundNotNew(k: nat)
    requires k < 3
    ensures Three()[k].outbound !in Prefixed(NewTypes())
  {
    NewNamesDiffer(if k == 0 then "CHAT" else if k == 1 then "CALL" else "SMS");
  }

  /** A successful conversion keeps every row of EventTypes but the OUTBOUND ones, under the merged name if it was an
      INBOUND one; the merged names are new; an OUTBOUND name is gone if its DELETE worked. */
  lemma TypesMigrated(db: V0, drops: seq<bool>)
    requires |drops| == 3 && TypesKeyed(db.types) && Convert(db, drops).Some?
    ensures Migrated(db.types, Convert(db, drops).value.types, Three(), drops)
  {
    var b, c, after := RoundsOf(Marked(db), drops);
    ThreeDistinct();
    RoundsMigrate(db.types, b, c, after.types, Three(), drops);
    RestGrows(after);
    forall k | 0 <= k < 3 ensures Three()[k].outbound !in Prefixed(NewTypes()) {
      OutboundNotNew(k);
    }
    GrownMigrated(db.types, after.types, Convert(db, drops).value.types, Three(), drops, Prefixed(NewTypes()));
  }

  /* ---- reading the old type back ---- */

  /** SELECT name FROM EventTypes WHERE id = k. */
  function TypeName(types: seq<TypeRow>, id: int): Option<string> {
    if types == [] then None
    else if Last(types).id == id then Some(Last(types).name)
    else TypeName(types[..|types| - 1], id)
  }

  lemma {:induction false} TypeNameIs(types: seq<TypeRow>, t: TypeRow)
    requires TypesKeyed(types) && t in types
    ensures TypeName(types, t.id) == Some(t.name)
  {
    if Last(types).id == t.id {
      SameType(types, t, Last(types));
    } else {
      var init := types[..|types| - 1];
      assert types == init + [Last(types)];
      TypeNameIs(init, t);
    }
  }

  /** The old type name, from the new name and the outgoing bit. */
  function Recovered(ss: seq<Names>, n: string, outgoing: int): string
    requires |ss| == 3
  {
    if n == ss[0].merged then (if outgoing == 1 then ss[0].outbound else ss[0].inbound)
    else if n == ss[1].merged then (if outgoing == 1 then ss[1].outbound else ss[1].inbound)
    else if n == ss[2].merged then (if outgoing == 1 then ss[2].outbound else ss[2].inbound)
    else n
  }

  lemma RecoveredInbound(ss: seq<Names>, k: nat)
    requires Distinct(ss) && k < 3
    ensures NewName(ss, ss[k].inbound) == ss[k].merged && !IsOutbound(ss, ss[k].inbound)
    ensures Recovered(ss, ss[k].merged, 0) == ss[k].inbound && Recovered(ss, ss[k].merged, 1) == ss[k].outbound
  {
  }

  lemma {:induction false} TypeIdIs(types: seq<TypeRow>, t: TypeRow)
    requires TypesKeyed(types) && t in types && TypeId(types, t.name) != 0
    ensures TypeId(types, t.name) == t.id
  {
    TypeIdRow(types, t.name);
    var u :| u in types && u.id == TypeId(types, t.name) && u.name == t.name;
    SameType(types, t, u);
  }

  /** An event of an INBOUND or OUTBOUND type gets the INBOUND id, and the outgoing bit tells which. */
  lemma {:induction false} ConvertedTyped(types: seq<TypeRow>, e: Event, s: string)
    requires AllTypes(types) && s in {"CHAT", "CALL", "SMS"}
    ensures e.typeId == TypeId(types, Outbound(s)) ==>
              Converted(types)(e).typeId == TypeId(types, Inbound(s)) && Converted(types)(e).outgoing == 1
    ensures e.typeId == TypeId(types, Inbound(s)) ==>
              Converted(types)(e).typeId == TypeId(types, Inbound(s)) && Converted(types)(e).outgoing == 0
  {
    OutboundMarked(types, s);
    SixIds(types, s, "CHAT");
    SixIds(types, s, "CALL");
    SixIds(types, s, "SMS");
  }

  /** An event of a type of INBOUND or OUTBOUND name, read back. */
  lemma {:induction false} PairRecovered(types: seq<TypeRow>, now: seq<TypeRow>, drops: seq<bool>, e: Event, s: string,
      k: nat, t: TypeRow)
    requires |drops| == 3 && AllTypes(types) && Migrated(types, now, Three(), drops)
    requires k < 3 && Three()[k] == NamesOf(s) && s in {"CHAT", "CALL", "SMS"}
    requires t in types && t.id == e.typeId && (t.name == Inbound(s) || t.name == Outbound(s))
    ensures var c := Converted(types)(e);
            && TypeName(now, c.typeId) == Some(Merged(s))
            && Recovered(Three(), Merged(s), c.outgoing) == t.name
  {
    var ss := Three();
    ThreeDistinct();
    RecoveredInbound(ss, k);
    ConvertedTyped(types, e, s);
    TypeIdIs(types, t);
    TypeIdRow(types, Inbound(s));
    var u :| u in types && u.id == TypeId(types, Inbound(s)) && u.name == Inbound(s);
    TypeNameIs(now, u.(name := NewName(ss, u.name)));
  }

  lemma {:induction false} OtherRecovered(types: seq<TypeRow>, now: seq<TypeRow>, drops: seq<bool>, e: Event,
      t: TypeRow)
    requires |drops| == 3 && AllTypes(types) && Migrated(types, now, Three(), drops)
    requires t in types && t.id == e.typeId && !IsOutbound(Three(), t.name) && NewName(Three(), t.name) == t.name
    ensures var c := Converted(types)(e);
            TypeName(now, c.typeId) == Some(t.name) && Recovered(Three(), t.name, c.outgoing) == t.name
  {
    TypeIdDiffers(types, t, Outbound("CHAT"));
    TypeIdDiffers(types, t, Outbound("CALL"));
    TypeIdDiffers(types, t, Outbound("SMS"));
    assert t.(name := NewName(Three(), t.name)) == t;
    TypeNameIs(now, t);
  }

  lemma {:induction false} TypeIdDiffers(types: seq<TypeRow>, t: TypeRow, n: string)
    requires TypesKeyed(types) && t in types && t.name != n && TypeId(types, n) != 0
    ensures t.id != TypeId(types, n)
  {
    TypeIdRow(types, n);
    var u :| u in types && u.id == TypeId(types, n) && u.name == n;
    if t.id == u.id { SameType(types, t, u); }
  }

  /** The new tables alone give every event of a known type its old type name back: the name of its new type and its
      outgoing bit determine it. */
  lemma OldTypeFollows(db: V0, drops: seq<bool>, i: nat, t: TypeRow)
    requires |drops| == 3 && TypesKeyed(db.types) && Convert(db, drops).Some?
    requires i < |db.events| && t in db.types && t.id == db.events[i].typeId
    ensures var now := Convert(db, drops).value;
            && |now.events| == |db.events|
            && var n := TypeName(now.types, now.events[i].typeId);
               n.Some? && Recovered(Three(), n.value, now.events[i].outgoing) == t.name
  {
    EventsConverted(db, drops);
    TypesMigrated(db, drops);
    var now := Convert(db, drops).value.types;
    var e := db.events[i];
    if t.name == Inbound("CHAT") || t.name == Outbound("CHAT") {
      PairRecovered(db.types, now, drops, e, "CHAT", 0, t);
    } else if t.name == Inbound("CALL") || t.name == Outbound("CALL") {
      PairRecovered(db.types, now, drops, e, "CALL", 1, t);
    } else if t.name == Inbound("SMS") || t.name == Outbound("SMS") {
      PairRecovered(db.types, now, drops, e, "SMS", 2, t);
    } else {
      OtherRecovered(db.types, now, drops, e, t);
    }
  }

  /* ---- what else the conversion leaves ---- */

  /** The six new chat types are there, of the plug-in of chats; the four new flags follow the old ones, with their
      values, under the service of that plug-in. */
  ghost predicate Extended(before: V0, after: V0, plugin: int, service: int) {
    && (forall n | n in {"CHAT_NOTICE", "CHAT_ACTION", "CHAT_AUTOREPLY", "CHAT_JOIN", "CHAT_LEAVE", "CHAT_TOPIC"} ::
          Present(after.types, "RTCOM_EL_EVENTTYPE_" + n, plugin))
    && after.flags == before.flags +
        [FlagRow(service, "RTCOM_EL_FLAG_CHAT_GROUP", 1), FlagRow(service, "RTCOM_EL_FLAG_CHAT_ROOM", 2)]
                      + [FlagRow(service, "RTCOM_EL_FLAG_CHAT_OPAQUE", 4),
                          FlagRow(service, "RTCOM_EL_FLAG_CHAT_OFFLINE", 8)]
  }

  predicate Present(types: seq<TypeRow>, n: string, plugin: int) {
    exists t :: t in types && t.name == n && t.pluginId == plugin
  }

  lemma {:induction false} TypesPresent(db: V0, names: seq<string>, plugin: int)
    requires AddTypes(db, names, plugin).Some?
    ensures forall t :: t in db.types ==> t in AddTypes(db, names, plugin).value.types
    ensures forall n :: n in names ==> Present(AddTypes(db, names, plugin).value.types, Prefix() + n, plugin)
    ensures AddTypes(db, names, plugin).value.flags == db.flags
    ensures AddTypes(db, names, plugin).value.services == db.services
  {
    if names != [] {
      var init, n := names[..|names| - 1], Last(names);
      TypesPresent(db, init, plugin);
      var before := AddTypes(db, init, plugin).value;
      var row := TypeRow(NextTypeId(before.types), Prefix() + n, plugin);
      assert names == init + [n];
      assert row in before.types + [row];
    }
  }

  function FlagRows(service: int, flags: seq<(string, int)>): seq<FlagRow> {
    Map(flags, (f: (string, int)) => FlagRow(service, f.0, f.1))
  }

  lemma {:induction false} FlagsAppended(db: V0, flags: seq<(string, int)>, service: int)
    requires AddFlags(db, flags, service).Some?
    ensures AddFlags(db, flags, service).value == db.(flags := db.flags + FlagRows(service, flags))
  {
    if flags != [] {
      var init := flags[..|flags| - 1];
      FlagsAppended(db, init, service);
      assert FlagRows(service, flags) == FlagRows(service, init) + [FlagRow(service, Last(flags).0, Last(flags).1)];
    }
  }

  lemma FourFlags(service: int)
    ensures FlagRows(service, NewFlags()) ==
            [FlagRow(service, "RTCOM_EL_FLAG_CHAT_GROUP", 1), FlagRow(service, "RTCOM_EL_FLAG_CHAT_ROOM", 2)] +
            [FlagRow(service, "RTCOM_EL_FLAG_CHAT_OPAQUE", 4), FlagRow(service, "RTCOM_EL_FLAG_CHAT_OFFLINE", 8)]
  {
  }

  lemma {:induction false} PluginIs(types: seq<TypeRow>, n: string)
    ensures PluginOf(types, n) != 0 ==> Present(types, n, PluginOf(types, n))
  {
    if types != [] {
      PluginIs(types[1..], n);
      assert types == [types[0]] + types[1..];
    }
  }

  lemma {:induction false} ServiceIs(services: seq<ServiceRow>, plugin: int)
    ensures ServiceOf(services, plugin) != 0 ==>
              exists s :: s in services && s.id == ServiceOf(services, plugin) && s.pluginId == plugin
  {
    if services != [] {
      ServiceIs(services[..|services| - 1], plugin);
      assert Last(services) in services;
    }
  }

  /** The rest of the conversion. */
  lemma RestExtends(db: V0) returns (plugin: int, service: int)
    requires AddRest(db).Some?
    ensures Present(db.types, Merged("CHAT"), plugin)
    ensures exists s :: s in db.services && s.id == service && s.pluginId == plugin
    ensures Extended(db, AddRest(db).value, plugin, service)
  {
    plugin := PluginOf(db.types, Merged("CHAT"));
    PluginIs(db.types, Merged("CHAT"));
    TypesPresent(db, NewTypes(), plugin);
    var db1 := AddTypes(db, NewTypes(), plugin).value;
    service := ServiceOf(db1.services, plugin);
    ServiceIs(db1.services, plugin);
    FlagsAppended(db1, NewFlags(), service);
    FourFlags(service);
  }

  lemma ChatNames()
    ensures Inbound("CHAT") == "RTCOM_EL_EVENTTYPE_CHAT_INBOUND"
    ensures Outbound("CHAT") == "RTCOM_EL_EVENTTYPE_CHAT_OUTBOUND"
    ensures Merged("CHAT") == "RTCOM_EL_EVENTTYPE_CHAT_MESSAGE"
  {
  }

  lemma CallNames()
    ensures Inbound("CALL") == "RTCOM_EL_EVENTTYPE_CALL_INBOUND"
    ensures Outbound("CALL") == "RTCOM_EL_EVENTTYPE_CALL_OUTBOUND"
    ensures Merged("CALL") == "RTCOM_EL_EVENTTYPE_CALL"
  {
  }

  lemma SmsNames()
    ensures Inbound("SMS") == "RTCOM_EL_EVENTTYPE_SMS_INBOUND"
    ensures Outbound("SMS") == "RTCOM_EL_EVENTTYPE_SMS_OUTBOUND"
    ensures Merged("SMS") == "RTCOM_EL_EVENTTYPE_SMS_MESSAGE"
  {
  }

  /** Old clients and old databases are treated alike: a deprecated CHAT or SMS type name becomes the name that the
      conversion gives its type, and an OUTBOUND one sets the outgoing mark; no other name changes. */
  lemma ModernisedAsMigrated(ev: ElEvent)
    ensures forall s | s in {"CHAT", "SMS"} ::
              && (ev.eventType == Set(Some(Inbound(s))) ==> Modernised(ev) == ev.(eventType := Set(Some(Merged(s)))))
              && (ev.eventType == Set(Some(Outbound(s))) ==>
                    Modernised(ev) == ev.(eventType := Set(Some(Merged(s))), outgoing := Set(1)))
    ensures (forall s | s in {"CHAT", "SMS"} ::
               ev.eventType != Set(Some(Inbound(s))) && ev.eventType != Set(Some(Outbound(s)))) ==> Modernised(ev) == ev
  {
    ChatNames();
    SmsNames();
    NamesDiffer("CHAT", "SMS");
    NamesDiffer("SMS", "CHAT");
  }

  function OtherFlag(): (FlagRow, FlagRow) -> bool {
    (a: FlagRow, b: FlagRow) => a.name != b.name
  }

  /** Names of flags are UNIQUE, and stay so. */
  lemma {:induction false} FlagsStayUnique(db: V0, flags: seq<(string, int)>, service: int)
    requires Pairwise(db.flags, OtherFlag()) && AddFlags(db, flags, service).Some?
    ensures Pairwise(AddFlags(db, flags, service).value.flags, OtherFlag())
  {
    if flags != [] {
      FlagsStayUnique(db, flags[..|flags| - 1], service);
      var before := AddFlags(db, flags[..|flags| - 1], service).value;
      assert forall i :: 0 <= i < |before.flags| ==> before.flags[i] in before.flags;
    }
  }

  /** The rounds of the loop leave services and flags alone. */
  lemma ServiceKeepsRest(db: V0, s: string, dropped: bool)
    requires ConvertService(db, s, dropped).Some?
    ensures ConvertService(db, s, dropped).value.services == db.services
    ensures ConvertService(db, s, dropped).value.flags == db.flags
  {
  }
}
