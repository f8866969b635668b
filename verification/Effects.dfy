/** What the calls do to single rows, in plain terms: which columns change, to what, and what stays. */
module Effects {
  import opened Seqs
  import opened Tables
  import opened Groups
  import opened Statements
  import opened Bits
  import opened Text
  import opened Operations
  import opened Integrity
  import opened Select
  import opened CacheAgreement
  import DeleteAgreement

  /* ---- adding ---- */

  /** The precheck lets an event through exactly when service, type and account are set, and the service and the type,
      by its name of today, are known; what it finds are their ids. */
  lemma PrecheckExactly(db: Db, ev: ElEvent)
    ensures Precheck(db, ev).Some? <==>
            && ev.service.Set? && ev.eventType.Set? && ev.localUid.Set?
            && (exists r :: r in db.services && ev.service.value == Some(r.name))
            && (exists r :: r in db.eventTypes && Modernised(ev).eventType == Set(Some(r.name)))
    ensures Precheck(db, ev).Some? ==>
              var c := Precheck(db, ev).value;
              && c.ev == Modernised(ev)
              && (exists r :: r in db.services && r.id == c.serviceId && ev.service.value == Some(r.name))
              && (exists r :: r in db.eventTypes && r.id == c.typeId && Modernised(ev).eventType == Set(Some(r.name)))
  {
    ModernisedKeepsSet(ev);
    if ev.service.Set? && ev.service.value.Some? { IdOfIs(db.services, ev.service.value.value); }
    var t := StringOf(Modernised(ev).eventType);
    if t.Some? { IdOfIs(db.eventTypes, t.value); }
  }

  lemma ModernisedKeepsSet(ev: ElEvent)
    ensures Modernised(ev).eventType.Set? == ev.eventType.Set?
  {
  }

  /** Event e holds what the client gave in ev: every column of its own, 0 or NULL where nothing was given, the group of
      the event before for want of one, and the ids of the service and of the modernised type. */
  ghost predicate Holding(e: Event, db: Db, ev: ElEvent, now: int, last: CString) {
    var m := Modernised(ev);
    && (exists r :: r in db.services && r.id == e.serviceId && ev.service == Set(Some(r.name)))
    && (exists r :: r in db.eventTypes && r.id == e.typeId && m.eventType == Set(Some(r.name)))
    && e.storageTime == now
    && e.startTime == (if ev.startTime.Set? then ev.startTime.value else 0)
    && e.endTime == (if ev.endTime.Set? then ev.endTime.value else 0)
    && e.isRead == (if ev.isRead.Set? then ev.isRead.value else 0)
    && e.outgoing == (if m.outgoing.Set? then m.outgoing.value else 0)
    && e.flags == (if ev.flags.Set? then ev.flags.value else 0)
    && e.bytesSent == (if ev.bytesSent.Set? then ev.bytesSent.value else 0)
    && e.bytesReceived == (if ev.bytesReceived.Set? then ev.bytesReceived.value else 0)
    && e.localUid == (if ev.localUid.Set? then ev.localUid.value else None)
    && e.localName == (if ev.localName.Set? then ev.localName.value else None)
    && e.remoteUid == (if ev.remoteUid.Set? then ev.remoteUid.value else None)
    && e.channel == (if ev.channel.Set? then ev.channel.value else None)
    && e.freeText == (if ev.freeText.Set? then ev.freeText.value else None)
    && e.groupUid == (if ev.groupUid.Set? then ev.groupUid.value else last)
  }

  /** One event more, at the end, with the next id. */
  ghost predicate Added(before: Db, after: Db, ev: ElEvent, now: int, last: CString) {
    && |after.events| == |before.events| + 1 && after.events[..|before.events|] == before.events
    && Holding(Last(after.events), before, ev, now, last)
    && (if before.events == [] then Last(after.events).id == 1
        else Last(after.events).id == before.events[|before.events| - 1].id + 1)
  }

  lemma ModernisedRest(ev: ElEvent)
    ensures Modernised(ev) == ev.(eventType := Modernised(ev).eventType, outgoing := Modernised(ev).outgoing)
  {
  }

  lemma RowHolds(db: Db, ev: ElEvent, now: int, last: CString, id: int)
    requires Precheck(db, ev).Some?
    ensures Holding(NewRow(Precheck(db, ev).value, now, Remembered(last, ev)).(id := id), db, ev, now, last)
  {
    PrecheckExactly(db, ev);
    ModernisedRest(ev);
  }

  lemma {:induction false} AttachmentsKeepEvents(db: Db, id: int, atts: seq<Attach>)
    ensures InsertAttachments(db, id, atts).Some? ==> InsertAttachments(db, id, atts).value.events == db.events
  {
    if atts != [] { AttachmentsKeepEvents(db, id, atts[..|atts| - 1]); }
  }

  lemma {:induction false} HeadersKeepEvents(db: Db, id: int, hs: seq<(string, CString)>)
    ensures InsertHeaders(db, id, hs).Some? ==> InsertHeaders(db, id, hs).value.events == db.events
  {
    if hs != [] { HeadersKeepEvents(db, id, hs[..|hs| - 1]); }
  }

  lemma CoreAdds(db: Db, c: Checked, now: int, last: CString)
    requires AddCore(db, c, now, last).Some?
    ensures AddCore(db, c, now, last).value.events == db.events + [NewRow(c, now, last).(id := NextId(db.events))]
  {
  }

  /** add_event stores what it was given. */
  lemma AddStores(db: Db, ev: ElEvent, now: int, last: CString, after: Db)
    requires Precheck(db, ev).Some?
    requires AddCore(db, Precheck(db, ev).value, now, Remembered(last, ev)) == Some(after)
    ensures Added(db, after, ev, now, last)
  {
    CoreAdds(db, Precheck(db, ev).value, now, Remembered(last, ev));
    RowHolds(db, ev, now, last, NextId(db.events));
  }

  /** So does add_event_full. */
  lemma AddFullStores(db: Db, ev: ElEvent, now: int, last: CString, hs: seq<(string, CString)>, atts: seq<Attach>,
      after: Db)
    requires Precheck(db, ev).Some?
    requires AddFull(db, Precheck(db, ev).value, now, Remembered(last, ev), hs, atts) == Some(after)
    ensures Added(db, after, ev, now, last)
  {
    var core := AddCore(db, Precheck(db, ev).value, now, Remembered(last, ev)).value;
    AddStores(db, ev, now, last, core);
    AttachmentsKeepEvents(core, NextId(db.events), atts);
    HeadersKeepEvents(InsertAttachments(core, NextId(db.events), atts).value, NextId(db.events), hs);
  }

  /* ---- updating ---- */

  /** Both tables hold the same events, but for what `same` allows on the ones listed. */
  ghost predicate OnlyThese(before: Db, after: Db, ids: seq<int>) {
    && |after.events| == |before.events|
    && (forall i :: 0 <= i < |before.events| && before.events[i].id !in ids ==> after.events[i] == before.events[i])
    && after == before.(events := after.events, cache := after.cache)
  }

  lemma UpdateAt(db: Db, id: int, f: Event -> Event)
    requires Keyed(db.events)
    ensures var now := UpdateEvent(db, id, f);
            && OnlyThese(db, now, [id])
            && forall i :: 0 <= i < |db.events| && db.events[i].id == id ==> now.events[i] == f(db.events[i])
  {
    var at := Find(db.events, id);
    forall i | 0 <= i < |db.events| && db.events[i].id == id ensures at == Some(i) {
      assert db.events[i] in db.events;
    }
  }

  /** The events listed are marked: read for TRUE, unread for any other value; nothing else about them changes. */
  ghost predicate Marked(before: Db, after: Db, ids: seq<int>, read: int) {
    && OnlyThese(before, after, ids)
    && forall i :: 0 <= i < |before.events| && before.events[i].id in ids ==>
         && after.events[i] == before.events[i].(isRead := after.events[i].isRead)
         && (read == 1 ==> after.events[i].isRead == 1) && (read != 1 ==> after.events[i].isRead == 0)
  }

  lemma MarkedExactly(db: Db, id: int, read: int)
    requires Keyed(db.events)
    ensures Marked(db, UpdateEvent(db, id, SetRead(read)), [id], read)
  {
    UpdateAt(db, id, SetRead(read));
  }

  lemma MarkedKeyed(before: Db, after: Db, ids: seq<int>, read: int)
    requires Keyed(before.events) && Marked(before, after, ids, read)
    ensures Keyed(after.events)
  {
    forall i | 0 <= i < |after.events| ensures after.events[i].id == before.events[i].id
        && before.events[i] in before.events {
      assert before.events[i].id in ids || before.events[i].id !in ids;
    }
    forall i, j | 0 <= i < j < |after.events| ensures EarlierId()(after.events[i], after.events[j]) {
      assert EarlierId()(before.events[i], before.events[j]);
    }
  }

  lemma MarkedThen(a: Db, b: Db, c: Db, ids: seq<int>, id: int, read: int)
    requires Marked(a, b, ids, read) && Marked(b, c, [id], read)
    ensures Marked(a, c, ids + [id], read)
  {
    forall i | 0 <= i < |a.events| ensures b.events[i].id == a.events[i].id {
      assert a.events[i].id in ids || a.events[i].id !in ids;
    }
  }

  /** set_read_events marks exactly the events listed. */
  lemma {:induction false} ReadsMark(db: Db, ids: seq<int>, read: int)
    requires Keyed(db.events)
    ensures Marked(db, SetReads(db, ids, read), ids, read)
  {
    if ids != [] {
      var init, id := ids[..|ids| - 1], Last(ids);
      ReadsMark(db, init, read);
      MarkedKeyed(db, SetReads(db, init, read), init, read);
      MarkedExactly(SetReads(db, init, read), id, read);
      MarkedThen(db, SetReads(db, init, read), SetReads(db, ids, read), init, id, read);
      assert ids == init + [id];
    }
  }

  lemma SumsReplaced(events: seq<Event>, i: nat, after: Event, g: string)
    requires i < |events| && events[i].groupUid == Some(g) && after.groupUid == Some(g)
    ensures |Members(events[i := after], g)| == |Members(events, g)|
    ensures ReadSum(Members(events[i := after], g)) == ReadSum(Members(events, g)) - events[i].isRead + after.isRead
  {
    var a, b := MembersReplace(events, i, after, g);
    ReadSumSplit(a, events[i], b);
    ReadSumSplit(a, after, b);
  }

  /** The event in the table after its update. */
  lemma UpdatedTable(db: Db, e: Event, f: Event -> Event) returns (i: nat)
    requires Keyed(db.events) && e in db.events
    ensures i < |db.events| && db.events[i] == e && UpdateEvent(db, e.id, f).events == db.events[i := f(e)]
  {
    i :| 0 <= i < |db.events| && db.events[i] == e;
    var at := Find(db.events, e.id);
    assert at.Some?;
    SameIdSameEvent(db.events, db.events[at.value], e);
  }

  lemma MarkedSums(db: Db, e: Event, g: string)
    requires Keyed(db.events) && e in db.events && e.groupUid == Some(g)
    ensures var m, m' := Members(db.events, g), Members(UpdateEvent(db, e.id, SetRead(1)).events, g);
            |m'| == |m| && ReadSum(m') == ReadSum(m) - e.isRead + 1
  {
    var i := UpdatedTable(db, e, SetRead(1));
    SumsReplaced(db.events, i, SetRead(1)(e), g);
  }

  lemma CountsFrom(before: Db, after: Db, g: string)
    requires Agrees(before.events, before.cache) && Agrees(after.events, after.cache)
    requires |Members(after.events, g)| == |Members(before.events, g)|
    requires ReadSum(Members(after.events, g)) == ReadSum(Members(before.events, g)) + 1
    ensures GroupInfo(after, g).0 == GroupInfo(before, g).0
    ensures GroupInfo(after, g).1 == Signed32(GroupInfo(before, g).1 - 1)
  {
    GroupInfoIsScan(before, g);
    GroupInfoIsScan(after, g);
    OneLess(|Members(before.events, g)| - ReadSum(Members(before.events, g)));
  }

  /** On an agreeing cache, marking an unread event read takes one off the unread count of its conversation. */
  lemma MarkLowersUnread(db: Db, e: Event, g: string, now: Db)
    requires Keyed(db.events) && Agrees(db.events, db.cache) && e in db.events && e.groupUid == Some(g) && e.isRead == 0
    requires now == UpdateEvent(db, e.id, SetRead(1))
    ensures GroupInfo(now, g).0 == GroupInfo(db, g).0 && GroupInfo(now, g).1 == Signed32(GroupInfo(db, g).1 - 1)
  {
    UpdateKeepsAgreement(db, e.id, SetRead(1));
    MarkedSums(db, e, g);
    CountsFrom(db, now, g);
  }

  lemma OneLess(n: int)
    ensures Signed32(Signed32(n) - 1) == Signed32(n - 1)
  {
    var k := (n - Signed32(n)) / 0x1_0000_0000;
    SameResidue(n - 1, Signed32(n) - 1, k);
  }

  /** One event's flags gain the bits of `value`, or lose them; nothing else about it changes. */
  ghost predicate Flagged(before: Db, after: Db, id: int, value: int, on: bool) {
    && OnlyThese(before, after, [id])
    && forall i :: 0 <= i < |before.events| && before.events[i].id == id ==>
         && after.events[i] == before.events[i].(flags := after.events[i].flags)
         && forall k: nat ::
              Bit(after.events[i].flags, k) <==>
              if on then Bit(before.events[i].flags, k) || Bit(value, k)
              else Bit(before.events[i].flags, k) && !Bit(value, k)
  }

  lemma FlagSetExactly(db: Db, id: int, value: int)
    requires Keyed(db.events)
    ensures Flagged(db, UpdateEvent(db, id, SetFlags(value)), id, value, true)
  {
    UpdateAt(db, id, SetFlags(value));
    forall i, k: nat | 0 <= i < |db.events|
      ensures Bit(Or(db.events[i].flags, value), k) <==> Bit(db.events[i].flags, k) || Bit(value, k)
    {
      BitOr(db.events[i].flags, value, k);
    }
  }

  lemma FlagUnsetExactly(db: Db, id: int, value: int)
    requires Keyed(db.events)
    ensures Flagged(db, UpdateEvent(db, id, UnsetFlags(value)), id, value, false)
  {
    UpdateAt(db, id, UnsetFlags(value));
    forall i, k: nat | 0 <= i < |db.events|
      ensures Bit(And(db.events[i].flags, Not(value)), k) <==> Bit(db.events[i].flags, k) && !Bit(value, k)
    {
      BitAnd(db.events[i].flags, Not(value), k);
      BitNot(value, k);
    }
  }

  /* ---- contacts ---- */

  /** The last element of the list that is about contact r. */
  function LastAbout(cs: seq<Contact>, r: Remote): Option<Contact> {
    if cs == [] then None
    else if Last(cs).localUid == Some(r.localUid) && Last(cs).remoteUid == Some(r.remoteUid) then Some(Last(cs))
    else LastAbout(cs[..|cs| - 1], r)
  }

  /** After update_remote_contacts each contact has the name and the address book id of the last element about it. */
  lemma {:induction false} ContactsExactly(db: Db, cs: seq<Contact>)
    ensures var now := UpdateContacts(db, cs);
            && now == db.(remotes := now.remotes) && |now.remotes| == |db.remotes|
            && forall i :: 0 <= i < |db.remotes| ==>
                 now.remotes[i] ==
                 match LastAbout(cs, db.remotes[i])
                 case None => db.remotes[i]
                 case Some(c) => db.remotes[i].(name := c.name, abookUid := c.abookUid)
  {
    if cs != [] { ContactsExactly(db, cs[..|cs| - 1]); }
  }

  /** After remove_abook_uids exactly the contacts with a listed id have lost theirs. */
  lemma {:induction false} AbooksExactly(db: Db, uids: seq<CString>)
    ensures var now := RemoveAbooks(db, uids);
            && now == db.(remotes := now.remotes) && |now.remotes| == |db.remotes|
            && forall i :: 0 <= i < |db.remotes| ==>
                 now.remotes[i] ==
                 if db.remotes[i].abookUid.Some? && db.remotes[i].abookUid in uids then db.remotes[i].(abookUid := None)
                 else db.remotes[i]
  {
    if uids != [] {
      AbooksExactly(db, uids[..|uids| - 1]);
      assert uids == uids[..|uids| - 1] + [Last(uids)];
    }
  }

  /* ---- deleting ---- */

  function NotListed(ids: set<int>): Event -> bool {
    (e: Event) => e.id !in ids
  }

  /** The owner of a row is deleted. */
  predicate OwnerGoes(db: Db, ids: set<int>, owner: int) {
    exists e :: e in db.events && e.id == owner && e.id in ids
  }

  function HeaderStays(db: Db, ids: set<int>): Header -> bool {
    (h: Header) => !OwnerGoes(db, ids, h.eventId)
  }

  function AttachmentStays(db: Db, ids: set<int>): Attachment -> bool {
    (a: Attachment) => !OwnerGoes(db, ids, a.eventId)
  }

  /** A DELETE takes the events listed and exactly their headers and attachments; what stays keeps its order; contacts,
      cache and plug-in tables are as before. */
  lemma DeletedExactly(db: Db, ids: set<int>)
    ensures var now := DeleteIds(db, ids);
            && now.events == Filter(db.events, NotListed(ids))
            && now.headers == Filter(db.headers, HeaderStays(db, ids))
            && now.attachments == Filter(db.attachments, AttachmentStays(db, ids))
            && now == db.(events := now.events, headers := now.headers, attachments := now.attachments)
  {
    var gone := ids * Ids(db.events);
    FilterSame(db.events, Survives(gone), NotListed(ids));
    FilterSame(db.headers, HeaderSurvives(gone), HeaderStays(db, ids));
    FilterSame(db.attachments, AttachmentSurvives(gone), AttachmentStays(db, ids));
  }

  function HeaderOf(id: int): Header -> bool {
    (h: Header) => h.eventId == id
  }

  function AttachmentOf(id: int): Attachment -> bool {
    (a: Attachment) => a.eventId == id
  }

  /** Event e has the headers and attachments it had, and shows as it did. */
  ghost predicate Untouched(before: Db, after: Db, e: Event) {
    && Filter(after.headers, HeaderOf(e.id)) == Filter(before.headers, HeaderOf(e.id))
    && Filter(after.attachments, AttachmentOf(e.id)) == Filter(before.attachments, AttachmentOf(e.id))
    && after.remotes == before.remotes
    && (Known(after, e) <==> Known(before, e)) && (Known(before, e) ==> TheRow(after, e) == TheRow(before, e))
  }

  /** A filter does not notice what an earlier filter removed, if they do not meet. */
  lemma {:induction false} FilterThrough<T(!new)>(s: seq<T>, p: T -> bool, q: T -> bool)
    requires forall x | x in s && q(x) :: p(x)
    ensures Filter(Filter(s, p), q) == Filter(s, q)
  {
    FilterCommutes(s, p, q);
    FilterAll(s, q);
    FilterKeepsAll(Filter(s, q), p);
  }

  lemma SurvivorUntouched(db: Db, ids: set<int>, e: Event)
    requires e.id !in ids
    ensures Untouched(db, DeleteIds(db, ids), e)
  {
    DeletedExactly(db, ids);
    FilterThrough(db.headers, HeaderStays(db, ids), HeaderOf(e.id));
    FilterThrough(db.attachments, AttachmentStays(db, ids), AttachmentOf(e.id));
    FilterThrough(db.headers, HeaderStays(db, ids), IsToken(e.id));
  }

  /* ---- the contact of an added event ---- */

  /** Contact r has the uids of the event. */
  predicate IsOf(r: Remote, ev: ElEvent) {
    ev.localUid == Set(Some(r.localUid)) && ev.remoteUid == Set(Some(r.remoteUid))
  }

  /** An add changes no contact but the one with the event's uids, and adds one at most. */
  lemma UpsertTouchesOne(db: Db, ev: ElEvent, known: Option<Remote>)
    requires UpsertRemote(db, ev, known).Some?
    ensures var now := UpsertRemote(db, ev, known).value;
            && now == db.(remotes := now.remotes)
            && |db.remotes| <= |now.remotes| <= |db.remotes| + 1
            && (forall i :: 0 <= i < |db.remotes| && !IsOf(db.remotes[i], ev) ==> now.remotes[i] == db.remotes[i])
            && (ev.remoteUid.Unset? ==> now == db)
  {
  }

  /** The contact known for an event is the one with its uids. */
  lemma KnownExactly(db: Db, ev: ElEvent, r: Remote)
    requires UniquePartners(db) && r in db.remotes
    ensures KnownRemote(db, ev) == Some(r) <==> IsOf(r, ev)
  {
    var local, remote := StringOf(ev.localUid), StringOf(ev.remoteUid);
    var found := Filter(db.remotes, RemoteIs(local, remote));
    FilterAll(db.remotes, RemoteIs(local, remote));
    assert |found| > 0 ==> Last(found) in found;
    assert |found| > 1 ==> found[0] in found && found[1] in found;
    AtMostOne(db.remotes, RemoteIs(local, remote), OtherRemote());
  }
}
