/** Storing an event and reading it back, compared the way rtcom_el_event_equals compares. */
module ReadBack {
  import opened Seqs
  import opened Tables
  import opened Text
  import opened Fields
  import opened Criteria
  import opened Select
  import opened Statements
  import opened Operations
  import opened Integrity
  import opened Iterators
  import opened Effects

  /** strcmp on a NULL string crashes. */
  datatype Verdict = Same | Differs | Crash

  /** One field: compared only when set on both sides. */
  function IntVerdict(a: Field<int>, b: Field<int>): Verdict {
    if a.Set? && b.Set? && a.value != b.value then Differs else Same
  }

  function StringVerdict(a: Field<CString>, b: Field<CString>): Verdict {
    if a.Unset? || b.Unset? then Same
    else if a.value == None || b.value == None then Crash
    else if a.value != b.value then Differs
    else Same
  }

  /** The comparison stops at the first verdict that is not Same. */
  function Then(a: Verdict, b: Verdict): Verdict {
    if a != Same then a else b
  }

  function NumbersEqual(a: ElEvent, b: ElEvent): Verdict {
    Then(IntVerdict(a.id, b.id), Then(IntVerdict(a.serviceId, b.serviceId),
        Then(IntVerdict(a.eventTypeId, b.eventTypeId),
    Then(IntVerdict(a.storageTime, b.storageTime), Then(IntVerdict(a.startTime, b.startTime),
    Then(IntVerdict(a.endTime, b.endTime), Then(IntVerdict(a.flags, b.flags),
    Then(IntVerdict(a.bytesSent, b.bytesSent), IntVerdict(a.bytesReceived, b.bytesReceived)))))))))
  }

  function StringsEqual(a: ElEvent, b: ElEvent): Verdict {
    Then(StringVerdict(a.remoteEbookUid, b.remoteEbookUid), Then(StringVerdict(a.remoteEbookUid, b.remoteEbookUid),
    Then(StringVerdict(a.localUid, b.localUid), Then(StringVerdict(a.localName, b.localName),
    Then(StringVerdict(a.remoteUid, b.remoteUid), Then(StringVerdict(a.remoteName, b.remoteName),
    Then(StringVerdict(a.channel, b.channel), Then(StringVerdict(a.freeText, b.freeText),
    StringVerdict(a.groupUid, b.groupUid)))))))))
  }

  /** rtcom_el_event_equals: is_read, outgoing, service and event type are not compared. */
  function EventEquals(a: ElEvent, b: ElEvent): Verdict {
    Then(NumbersEqual(a, b), StringsEqual(a, b))
  }

  predicate Fits(f: Field<int>) {
    f.Set? ==> -0x8000_0000 <= f.value < 0x8000_0000
  }

  predicate NotNull(f: Field<CString>) {
    f.Set? ==> f.value.Some?
  }

  /** An event as a client fills it in: ids and storage time left to the library, strings present, integers of 32 bits,
      contact details only together with a remote uid. */
  predicate ClientEvent(ev: ElEvent) {
    && ev.id.Unset? && ev.serviceId.Unset? && ev.eventTypeId.Unset? && ev.storageTime.Unset?
    && Fits(ev.startTime) && Fits(ev.endTime) && Fits(ev.flags) && Fits(ev.bytesSent) && Fits(ev.bytesReceived)
    && NotNull(ev.localUid) && NotNull(ev.localName) && NotNull(ev.remoteUid) && NotNull(ev.remoteName)
    && NotNull(ev.remoteEbookUid) && NotNull(ev.channel) && NotNull(ev.freeText) && NotNull(ev.groupUid)
    && (ev.remoteUid.Unset? ==> ev.remoteName.Unset? && ev.remoteEbookUid.Unset?)
  }

  /** The contact stored for an event after the upsert. */
  function StoredRemote(c: Checked, known: Option<Remote>): Option<Remote> {
    var local, remote := StringOf(c.ev.localUid), StringOf(c.ev.remoteUid);
    var name, abook := StringOf(c.ev.remoteName), StringOf(c.ev.remoteEbookUid);
    if c.ev.remoteUid.Unset? || local == None || remote == None then None
    else
      match known
      case None => Some(Remote(local.value, remote.value, name, abook))
      case Some(old_) =>
        Some(old_.(abookUid := if abook != old_.name then abook else old_.abookUid,
                   name := if name != None then name else old_.name))
  }

  /** An unset or NULL uid matches no contact. */
  lemma {:induction false} FindRemoteIs(remotes: seq<Remote>, local: CString, remote: CString)
    requires Pairwise(remotes, OtherRemote())
    ensures var found := Filter(remotes, RemoteIs(local, remote));
            |found| <= 1 && forall r | r in found :: r in remotes && IsRemote(r, local, remote)
  {
    FilterAll(remotes, RemoteIs(local, remote));
    var found := Filter(remotes, RemoteIs(local, remote));
    assert |found| > 1 ==> found[0] in found && found[1] in found;
    AtMostOne(remotes, RemoteIs(local, remote), OtherRemote());
  }

  /** Updating the one contact with given uids in place. */
  lemma {:induction false} MapKeepsMatch(remotes: seq<Remote>, local: CString, remote: CString, f: Remote -> Remote)
    requires forall r :: f(r).localUid == r.localUid && f(r).remoteUid == r.remoteUid
    ensures Filter(Map(remotes, f), RemoteIs(local, remote)) == Map(Filter(remotes, RemoteIs(local, remote)), f)
  {
    if remotes != [] {
      var init := remotes[..|remotes| - 1];
      MapKeepsMatch(init, local, remote, f);
      assert Map(remotes, f)[..|remotes| - 1] == Map(init, f);
      assert Map(remotes, f) == Map(init, f) + [f(Last(remotes))];
    }
  }

  /** The upsert leaves exactly the stored contact for the event's uids. */
  lemma UpsertStores(db: Db, c: Checked)
    requires Pairwise(db.remotes, OtherRemote()) && c.ev.remoteUid.Set?
    requires UpsertRemote(db, c.ev, KnownRemote(db, c.ev)).Some?
    ensures StoredRemote(c, KnownRemote(db, c.ev)).Some?
    ensures Filter(UpsertRemote(db, c.ev, KnownRemote(db, c.ev)).value.remotes,
            RemoteIs(StringOf(c.ev.localUid), StringOf(c.ev.remoteUid))) ==
            [StoredRemote(c, KnownRemote(db, c.ev)).value]
  {
    var local, remote := StringOf(c.ev.localUid), StringOf(c.ev.remoteUid);
    FindRemoteIs(db.remotes, local, remote);
    if KnownRemote(db, c.ev) == None {
      FilterPush(db.remotes, Remote(local.value, remote.value, StringOf(c.ev.remoteName),
          StringOf(c.ev.remoteEbookUid)), RemoteIs(local, remote));
    } else {
      KnownUpserted(db, c.ev);
    }
  }

  lemma KnownUpserted(db: Db, ev: ElEvent)
    requires Pairwise(db.remotes, OtherRemote()) && KnownRemote(db, ev).Some?
    ensures var local, remote := StringOf(ev.localUid), StringOf(ev.remoteUid);
            var f, g := WithAbook(local, remote, StringOf(ev.remoteEbookUid)),
                WithName(local, remote, StringOf(ev.remoteName));
            var known := KnownRemote(db, ev).value;
            && Filter(db.remotes, RemoteIs(local, remote)) == [known]
            && Filter(Map(db.remotes, f), RemoteIs(local, remote)) == [f(known)]
            && Filter(Map(db.remotes, g), RemoteIs(local, remote)) == [g(known)]
            && Filter(Map(Map(db.remotes, f), g), RemoteIs(local, remote)) == [g(f(known))]
  {
    var local, remote := StringOf(ev.localUid), StringOf(ev.remoteUid);
    var f, g := WithAbook(local, remote, StringOf(ev.remoteEbookUid)), WithName(local, remote, StringOf(ev.remoteName));
    FindRemoteIs(db.remotes, local, remote);
    MapKeepsMatch(db.remotes, local, remote, f);
    MapKeepsMatch(db.remotes, local, remote, g);
    MapKeepsMatch(Map(db.remotes, f), local, remote, g);
  }

  /** The join finds the stored contact for the new event. */
  lemma JoinedRemote(db: Db, c: Checked, now: int, last: CString, e: Event)
    requires Sound(db) && AddCore(db, c, now, last).Some? && e == NewRow(c, now, last).(id := NextId(db.events))
    ensures First(Filter(AddCore(db, c, now, last).value.remotes, RemoteMatches(e))) ==
            StoredRemote(c, KnownRemote(db, c.ev))
    ensures c.ev.remoteUid.Set? ==> StoredRemote(c, KnownRemote(db, c.ev)).Some?
  {
    var db1 := InsertEvent(db, NewRow(c, now, last)).value;
    var remotes := AddCore(db, c, now, last).value.remotes;
    FilterAll(remotes, RemoteMatches(e));
    if c.ev.remoteUid.Set? {
      UpsertStores(db1, c);
      FilterSame(remotes, RemoteMatches(e), RemoteIs(StringOf(c.ev.localUid), StringOf(c.ev.remoteUid)));
    } else {
      var found := Filter(remotes, RemoteMatches(e));
      assert |found| > 0 ==> Last(found) in found;
    }
  }

  /** Whether the address book id of the event ends up stored: always for a new contact; for a known one, unless the id
      equals the stored remote name, with which the library mistakenly compares it. */
  predicate AbookStored(ev: ElEvent, known: Option<Remote>) {
    ev.remoteEbookUid.Unset? || known.None? || StringOf(ev.remoteEbookUid) != known.value.name ||
    StringOf(ev.remoteEbookUid) == known.value.abookUid
  }

  lemma IntReadsBack(f: Field<int>, row: Row, col: Col)
    requires Fits(f) && KindOf(col) == IntKind && Value(row, col) == Int(IntOf(f))
    ensures IntVerdict(f, IntAt(Cells(row), col)) == Same
  {
    assert Cells(row)(col) == IntCell(Signed32(IntOf(f)));
  }

  lemma StringReadsBack(f: Field<CString>, row: Row, col: Col)
    requires NotNull(f) && KindOf(col) == TextKind && (f.Set? ==> Value(row, col) == TextOrNull(f.value))
    ensures StringVerdict(f, StringAt(Cells(row), col)) == Same
  {
    assert f.Set? ==> Cells(row)(col) == StringCell(f.value);
  }

  /** An added event, read back through the iterator, equals the original if and only if its address book id was stored.
      */
  lemma {:induction false} ReadsBackExactly(db: Db, c: Checked, now: int, last: CString)
    requires Sound(db) && ClientEvent(c.ev) && AddCore(db, c, now, Remembered(last, c.ev)).Some?
    requires var e := NewRow(c, now, Remembered(last, c.ev)).(id := NextId(db.events));
             Known(AddCore(db, c, now, Remembered(last, c.ev)).value, e)
    ensures var e := NewRow(c, now, Remembered(last, c.ev)).(id := NextId(db.events));
            var row := TheRow(AddCore(db, c, now, Remembered(last, c.ev)).value, e);
            EventEquals(c.ev, FullEvent(Cells(row))) == Same <==> AbookStored(c.ev, KnownRemote(db, c.ev))
  {
    var last' := Remembered(last, c.ev);
    var e := NewRow(c, now, last').(id := NextId(db.events));
    var db' := AddCore(db, c, now, last').value;
    var row := TheRow(db', e);
    JoinedRemote(db, c, now, last', e);
    assert row.remote == StoredRemote(c, KnownRemote(db, c.ev));
    FieldsReadBack(db, c, now, last', row);
  }

  lemma KnownHasUids(db: Db, ev: ElEvent)
    requires KnownRemote(db, ev).Some?
    ensures StringOf(ev.localUid) == Some(KnownRemote(db, ev).value.localUid)
    ensures StringOf(ev.remoteUid) == Some(KnownRemote(db, ev).value.remoteUid)
  {
    var local, remote := StringOf(ev.localUid), StringOf(ev.remoteUid);
    FilterAll(db.remotes, RemoteIs(local, remote));
    assert Last(Filter(db.remotes, RemoteIs(local, remote))) in Filter(db.remotes, RemoteIs(local, remote));
  }

  /** The comparison with a filled event, given the verdict on each column. */
  lemma NumbersFrom(ev: ElEvent, cells: Col -> Cell)
    requires ev.id.Unset? && ev.serviceId.Unset? && ev.eventTypeId.Unset? && ev.storageTime.Unset?
    requires IntVerdict(ev.startTime, IntAt(cells, StartTime)) == Same
             && IntVerdict(ev.endTime, IntAt(cells, EndTime)) == Same
    requires IntVerdict(ev.flags, IntAt(cells, FlagBits)) == Same
    requires IntVerdict(ev.bytesSent, IntAt(cells, BytesSent)) == Same
    requires IntVerdict(ev.bytesReceived, IntAt(cells, BytesReceived)) == Same
    ensures NumbersEqual(ev, FullEvent(cells)) == Same
  {
  }

  lemma StringsFrom(ev: ElEvent, cells: Col -> Cell)
    requires StringVerdict(ev.localUid, StringAt(cells, LocalUid)) == Same
    requires StringVerdict(ev.localName, StringAt(cells, LocalName)) == Same
    requires StringVerdict(ev.remoteUid, StringAt(cells, RemoteUid)) == Same
    requires StringVerdict(ev.remoteName, StringAt(cells, RemoteName)) == Same
    requires StringVerdict(ev.channel, StringAt(cells, Channel)) == Same
    requires StringVerdict(ev.freeText, StringAt(cells, FreeText)) == Same
    requires StringVerdict(ev.groupUid, StringAt(cells, GroupUid)) == Same
    ensures StringsEqual(ev, FullEvent(cells)) == Same <==>
            StringVerdict(ev.remoteEbookUid, StringAt(cells, RemoteEbookUid)) == Same
  {
  }

  lemma NumbersReadBack(c: Checked, now: int, last: CString, row: Row, id: int)
    requires ClientEvent(c.ev) && row.event == NewRow(c, now, last).(id := id)
    ensures NumbersEqual(c.ev, FullEvent(Cells(row))) == Same
  {
    IntReadsBack(c.ev.startTime, row, StartTime);
    IntReadsBack(c.ev.endTime, row, EndTime);
    IntReadsBack(c.ev.flags, row, FlagBits);
    IntReadsBack(c.ev.bytesSent, row, BytesSent);
    IntReadsBack(c.ev.bytesReceived, row, BytesReceived);
    NumbersFrom(c.ev, Cells(row));
  }

  /** The address book id as it reads back. */
  lemma AbookReadsBack(ev: ElEvent, known: Option<Remote>, row: Row)
    requires ClientEvent(ev) && (ev.remoteUid.Set? ==> row.remote.Some?)
    requires row.remote.Some? ==>
               row.remote.value.abookUid ==
               (if known.None? || StringOf(ev.remoteEbookUid) != known.value.name
                then StringOf(ev.remoteEbookUid) else known.value.abookUid)
    ensures StringVerdict(ev.remoteEbookUid, StringAt(Cells(row), RemoteEbookUid)) == Same <==> AbookStored(ev, known)
  {
    assert Cells(row)(RemoteEbookUid) == ReadCell(row, RemoteEbookUid);
  }

  /** The event's own strings. */
  lemma OwnStringsReadBack(ev: ElEvent, row: Row)
    requires NotNull(ev.localUid) && NotNull(ev.localName) && NotNull(ev.channel) && NotNull(ev.freeText)
             && NotNull(ev.groupUid)
    requires row.event.localUid == StringOf(ev.localUid) && row.event.localName == StringOf(ev.localName)
    requires row.event.channel == StringOf(ev.channel) && row.event.freeText == StringOf(ev.freeText)
    requires ev.groupUid.Set? ==> row.event.groupUid == ev.groupUid.value
    ensures StringVerdict(ev.localUid, StringAt(Cells(row), LocalUid)) == Same
    ensures StringVerdict(ev.localName, StringAt(Cells(row), LocalName)) == Same
    ensures StringVerdict(ev.channel, StringAt(Cells(row), Channel)) == Same
    ensures StringVerdict(ev.freeText, StringAt(Cells(row), FreeText)) == Same
    ensures StringVerdict(ev.groupUid, StringAt(Cells(row), GroupUid)) == Same
  {
    StringReadsBack(ev.localUid, row, LocalUid);
    StringReadsBack(ev.localName, row, LocalName);
    StringReadsBack(ev.channel, row, Channel);
    StringReadsBack(ev.freeText, row, FreeText);
    StringReadsBack(ev.groupUid, row, GroupUid);
  }

  /** The contact's strings. */
  lemma ContactReadsBack(c: Checked, known: Option<Remote>, row: Row)
    requires ClientEvent(c.ev) && row.remote == StoredRemote(c, known) && (c.ev.remoteUid.Set? ==> row.remote.Some?)
    requires known.Some? ==> StringOf(c.ev.remoteUid) == Some(known.value.remoteUid)
    ensures StringVerdict(c.ev.remoteUid, StringAt(Cells(row), RemoteUid)) == Same
    ensures StringVerdict(c.ev.remoteName, StringAt(Cells(row), RemoteName)) == Same
    ensures StringVerdict(c.ev.remoteEbookUid, StringAt(Cells(row), RemoteEbookUid)) == Same <==>
            AbookStored(c.ev, known)
  {
    StringReadsBack(c.ev.remoteUid, row, RemoteUid);
    StringReadsBack(c.ev.remoteName, row, RemoteName);
    AbookReadsBack(c.ev, known, row);
  }

  lemma {:induction false} FieldsReadBack(db: Db, c: Checked, now: int, last: CString, row: Row)
    requires ClientEvent(c.ev) && row.event == NewRow(c, now, last).(id := NextId(db.events))
    requires c.ev.groupUid.Set? ==> last == c.ev.groupUid.value
    requires row.remote == StoredRemote(c, KnownRemote(db, c.ev)) && (c.ev.remoteUid.Set? ==> row.remote.Some?)
    ensures EventEquals(c.ev, FullEvent(Cells(row))) == Same <==> AbookStored(c.ev, KnownRemote(db, c.ev))
  {
    if KnownRemote(db, c.ev).Some? { KnownHasUids(db, c.ev); }
    NumbersReadBack(c, now, last, row, NextId(db.events));
    OwnStringsReadBack(c.ev, row);
    ContactReadsBack(c, KnownRemote(db, c.ev), row);
    StringsFrom(c.ev, Cells(row));
  }

  /** What the upsert promises, and when it keeps it: the contact's stored details are the event's own exactly when the
      address book id was stored and no stored name is left behind by a missing one. */
  lemma UpsertExactly(db: Db, c: Checked)
    requires Pairwise(db.remotes, OtherRemote()) && c.ev.remoteUid.Set?
    requires UpsertRemote(db, c.ev, KnownRemote(db, c.ev)).Some?
    ensures var known := KnownRemote(db, c.ev);
            var abook, name := StringOf(c.ev.remoteEbookUid), StringOf(c.ev.remoteName);
            StoredRemote(c, known).Some? &&
            (StoredRemote(c, known).value.abookUid == abook && StoredRemote(c, known).value.name == name <==>
             known.None? || ((abook != known.value.name || abook == known.value.abookUid)
                 && (name.Some? || known.value.name.None?)))
  {
    UpsertStores(db, c);
  }

  lemma {:induction false} IdHasName(t: seq<NameRow>, n: string)
    ensures IdOf(t, n).Some? ==> NameOf(t, IdOf(t, n).value).Some?
  {
    if t != [] { IdHasName(t[1..], n); }
  }

  /** An event that passes the precheck is of a known service and type. */
  lemma PrecheckedIsKnown(db: Db, ev: ElEvent, now: int, last: CString, id: int)
    requires Precheck(db, ev).Some?
    ensures Known(db, NewRow(Precheck(db, ev).value, now, last).(id := id))
  {
    IdHasName(db.services, ev.service.value.value);
    IdHasName(db.eventTypes, StringOf(Modernised(ev).eventType).value);
  }

  lemma NumbersIgnore(ev: ElEvent, t: Field<CString>, o: Field<int>, other: ElEvent)
    ensures NumbersEqual(ev.(eventType := t, outgoing := o), other) == NumbersEqual(ev, other)
  {
  }

  lemma StringsIgnore(ev: ElEvent, t: Field<CString>, o: Field<int>, other: ElEvent)
    ensures StringsEqual(ev.(eventType := t, outgoing := o), other) == StringsEqual(ev, other)
  {
  }

  /** Modernising the type name changes nothing that event_equals compares. */
  lemma ModernisedEquals(ev: ElEvent, other: ElEvent)
    ensures EventEquals(ev, other) == EventEquals(Modernised(ev), other)
    ensures ClientEvent(ev) ==> ClientEvent(Modernised(ev))
  {
    ModernisedRest(ev);
    NumbersIgnore(ev, Modernised(ev).eventType, Modernised(ev).outgoing, other);
    StringsIgnore(ev, Modernised(ev).eventType, Modernised(ev).outgoing, other);
  }

  /** The ungrouped query for one id. */
  function ById(id: int): Query {
    Query(ByNone, [Compare(Id, Equal, LInt(id))], -1, 0)
  }

  lemma PassesById(row: Row, id: int)
    ensures Passes(ById(id).where_)(row) <==> row.event.id == id
  {
    var ps := ById(id).where_;
    assert ps[1..] == [];
    assert EvalAll(ps, row) == And3(Eval(ps[0], row), Some(true));
  }

  lemma QueryById(db: Db, e: Event)
    requires UniquePartners(db) && Keyed(db.events) && e in db.events && Known(db, e)
    ensures Select.Run(db, ById(e.id)) == [TheRow(db, e)]
  {
    var q := ById(e.id);
    UngroupedResult(db, q);
    assert Select.Run(db, q) == Ordered(db, q);
    forall row ensures row in Ordered(db, q) <==> row in [TheRow(db, e)] {
      PassesById(row, e.id);
      if row in Ordered(db, q) { SameIdSameEvent(db.events, row.event, e); }
    }
    OrderIsUnique(Ordered(db, q), [TheRow(db, e)]);
  }

  /** From the client's event to the client's event: whatever was in the log, an event that add_event accepts is the one
      row of the query for the returned id, and that row read in full equals the event given if and only if its address
      book id was stored. */
  lemma AddedReadsBack(db: Db, ev: ElEvent, c: Checked, now: int, last: CString, db': Db)
    requires Sound(db) && ClientEvent(ev)
    ensures Precheck(db, ev) == Some(c) && AddCore(db, c, now, Remembered(last, ev)) == Some(db') ==>
              var rows := Select.Run(db', ById(NextId(db.events)));
              |rows| == 1 && (EventEquals(ev, FullEvent(Cells(rows[0]))) == Same <==>
                  AbookStored(ev, KnownRemote(db, ev)))
  {
    if Precheck(db, ev) == Some(c) && AddCore(db, c, now, Remembered(last, ev)) == Some(db') {
      ModernisedRest(ev);
      var e := NewRow(c, now, Remembered(last, c.ev)).(id := NextId(db.events));
      AddedIsShown(db, c, now, Remembered(last, c.ev), db', e);
      AddCoreKeepsNames(db, c, now, Remembered(last, c.ev));
      PrecheckedIsKnown(db, ev, now, Remembered(last, c.ev), e.id);
      ModernisedEquals(ev, FullEvent(Cells(TheRow(db', e))));
      ReadsBackExactly(db, c, now, last);
    }
  }

  lemma AddCoreKeepsNames(db: Db, c: Checked, now: int, last: CString)
    requires AddCore(db, c, now, last).Some?
    ensures AddCore(db, c, now, last).value.services == db.services
    ensures AddCore(db, c, now, last).value.eventTypes == db.eventTypes
  {
  }

  lemma LastIsIn<T>(init: seq<T>, x: T)
    ensures x in init + [x]
  {
    assert (init + [x])[|init|] == x;
  }

  /** The event just added is the one row of the query for its id. */
  lemma AddedIsShown(db: Db, c: Checked, now: int, last: CString, db': Db, e: Event)
    requires Sound(db) && AddCore(db, c, now, last) == Some(db') && e == NewRow(c, now, last).(id := NextId(db.events))
    ensures Known(db', e) ==> Select.Run(db', ById(e.id)) == [TheRow(db', e)]
  {
    AddCoreKeepsSound(db, c, now, last);
    LastIsIn(db.events, e);
    if Known(db', e) { QueryById(db', e); }
  }

  /** Ids of a plug-in table are its PRIMARY KEY. */
  ghost predicate IdsAreKeys(t: seq<NameRow>) {
    forall q, r :: q in t && r in t && q.id == r.id ==> q == r
  }

  lemma StoredNames(db: Db, ev: ElEvent, now: int, last: CString, e: Event)
    requires IdsAreKeys(db.services) && IdsAreKeys(db.eventTypes) && Holding(e, db, ev, now, last)
    ensures Known(db, e)
    ensures ev.service == Set(NameOf(db.services, e.serviceId))
    ensures Modernised(ev).eventType == Set(NameOf(db.eventTypes, e.typeId))
  {
    var r :| r in db.services && r.id == e.serviceId && ev.service == Set(Some(r.name));
    NameOfIs(db.services, r);
    var q :| q in db.eventTypes && q.id == e.typeId && Modernised(ev).eventType == Set(Some(q.name));
    NameOfIs(db.eventTypes, q);
  }

  /** What event_equals does not compare reads back as well: the id returned, the time of storage, both marks, and the
      service and the type by the names given, deprecated ones modernised. */
  lemma RestReadsBack(db: Db, ev: ElEvent, c: Checked, now: int, last: CString, db': Db)
    requires Sound(db) && IdsAreKeys(db.services) && IdsAreKeys(db.eventTypes)
    ensures Precheck(db, ev) == Some(c) && AddCore(db, c, now, Remembered(last, ev)) == Some(db') ==>
              var rows := Select.Run(db', ById(NextId(db.events)));
              |rows| == 1 &&
              var got, m := FullEvent(Cells(rows[0])), Modernised(ev);
              && got.id == Set(Signed32(NextId(db.events))) && got.storageTime == Set(Signed32(now))
              && got.isRead == Set(if ev.isRead.Set? && Signed32(ev.isRead.value) != 0 then 1 else 0)
              && got.outgoing == Set(if m.outgoing.Set? && Signed32(m.outgoing.value) != 0 then 1 else 0)
              && got.service == ev.service && got.eventType == m.eventType
  {
    if Precheck(db, ev) == Some(c) && AddCore(db, c, now, Remembered(last, ev)) == Some(db') {
      ModernisedRest(ev);
      var e := NewRow(c, now, Remembered(last, c.ev)).(id := NextId(db.events));
      AddedIsShown(db, c, now, Remembered(last, c.ev), db', e);
      AddCoreKeepsNames(db, c, now, Remembered(last, c.ev));
      RowHolds(db, ev, now, last, e.id);
      StoredNames(db, ev, now, last, e);
      KeysShown(TheRow(db', e));
      MarksShown(TheRow(db', e));
      TextsShown(TheRow(db', e));
    }
  }
}
