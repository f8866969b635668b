/** What every operation keeps: keyed events, unique contacts and headers, and no header or attachment without its
    event. */
module Integrity {
  import opened Seqs
  import opened Tables
  import opened Groups
  import opened Statements
  import opened Select
  import opened Operations
  import CacheAgreement
  import DeleteAgreement
  import Flags
  import opened Text

  /** Every Headers and Attachments row belongs to an existing event. */
  ghost predicate Owned(db: Db) {
    && (forall h | h in db.headers :: h.eventId in Ids(db.events))
    && (forall a | a in db.attachments :: a.eventId in Ids(db.events))
  }

  ghost predicate Sound(db: Db) {
    Keyed(db.events) && UniquePartners(db) && Owned(db)
  }

  /** An UPDATE of Remotes that leaves the key columns alone keeps UNIQUE(local_uid, remote_uid). */
  lemma RemotesStayUnique(remotes: seq<Remote>, f: Remote -> Remote)
    requires Pairwise(remotes, OtherRemote())
    requires forall r :: f(r).localUid == r.localUid && f(r).remoteUid == r.remoteUid
    ensures Pairwise(Map(remotes, f), OtherRemote())
  {
    forall i, j | 0 <= i < j < |remotes| ensures OtherRemote()(f(remotes[i]), f(remotes[j])) {
      assert OtherRemote()(remotes[i], remotes[j]);
    }
  }

  lemma ContactUpdatesKeepSound(db: Db, local: CString, remote: CString, value: CString)
    requires Sound(db)
    ensures Sound(UpdateAbook(db, local, remote, value)) && Sound(UpdateName(db, local, remote, value))
    ensures Sound(RemoveAbook(db, value))
  {
    RemotesStayUnique(db.remotes, WithAbook(local, remote, value));
    RemotesStayUnique(db.remotes, WithName(local, remote, value));
    RemotesStayUnique(db.remotes, WithoutAbook(value));
  }

  lemma {:induction false} UpdateContactsKeepSound(db: Db, cs: seq<Contact>)
    requires Sound(db)
    ensures Sound(UpdateContacts(db, cs))
  {
    if cs != [] {
      var c := Last(cs);
      var before := UpdateContacts(db, cs[..|cs| - 1]);
      UpdateContactsKeepSound(db, cs[..|cs| - 1]);
      ContactUpdatesKeepSound(before, c.localUid, c.remoteUid, c.abookUid);
      ContactUpdatesKeepSound(UpdateAbook(before, c.localUid, c.remoteUid, c.abookUid), c.localUid, c.remoteUid,
          c.name);
    }
  }

  lemma {:induction false} RemoveAbooksKeepSound(db: Db, uids: seq<CString>)
    requires Sound(db)
    ensures Sound(RemoveAbooks(db, uids))
  {
    if uids != [] {
      RemoveAbooksKeepSound(db, uids[..|uids| - 1]);
      ContactUpdatesKeepSound(RemoveAbooks(db, uids[..|uids| - 1]), None, None, Last(uids));
    }
  }

  lemma InsertRemoteKeepsSound(db: Db, local: CString, remote: CString, name: CString, abook: CString)
    requires Sound(db) && InsertRemote(db, local, remote, name, abook).Some?
    ensures Sound(InsertRemote(db, local, remote, name, abook).value)
  {
    FilterAll(db.remotes, RemoteIs(local, remote));
    forall r | r in db.remotes ensures !IsRemote(r, local, remote) {
      assert r !in Filter(db.remotes, RemoteIs(local, remote));
    }
    assert forall i :: 0 <= i < |db.remotes| ==> db.remotes[i] in db.remotes;
  }

  lemma UpsertKeepsSound(db: Db, ev: ElEvent, known: Option<Remote>)
    requires Sound(db) && UpsertRemote(db, ev, known).Some?
    ensures var db' := UpsertRemote(db, ev, known).value;
            Sound(db') && db' == db.(remotes := db'.remotes)
  {
    var local, remote := StringOf(ev.localUid), StringOf(ev.remoteUid);
    var name, abook := StringOf(ev.remoteName), StringOf(ev.remoteEbookUid);
    if ev.remoteUid.Set? {
      if known == None {
        InsertRemoteKeepsSound(db, local, remote, name, abook);
      } else {
        ContactUpdatesKeepSound(db, local, remote, abook);
        ContactUpdatesKeepSound(db, local, remote, name);
        ContactUpdatesKeepSound(UpdateAbook(db, local, remote, abook), local, remote, name);
      }
    }
  }

  lemma InsertEventKeepsSound(db: Db, e: Event)
    requires Sound(db) && InsertEvent(db, e).Some?
    ensures Sound(InsertEvent(db, e).value)
    ensures InsertEvent(db, e).value.events == db.events + [e.(id := NextId(db.events))]
  {
    CacheAgreement.InsertKeepsKeys(db, e);
    forall id | id in Ids(db.events) ensures id in Ids(InsertEvent(db, e).value.events) {
      var x :| x in db.events && x.id == id;
      assert x in InsertEvent(db, e).value.events;
    }
  }

  lemma AddCoreKeepsSound(db: Db, c: Checked, now: int, last: CString)
    requires Sound(db) && AddCore(db, c, now, last).Some?
    ensures var db' := AddCore(db, c, now, last).value;
            && Sound(db')
            && db'.events == db.events + [NewRow(c, now, last).(id := NextId(db.events))]
            && db'.headers == db.headers && db'.attachments == db.attachments
            && db'.cache == InsertEvent(db, NewRow(c, now, last)).value.cache
  {
    InsertEventKeepsSound(db, NewRow(c, now, last));
    UpsertKeepsSound(InsertEvent(db, NewRow(c, now, last)).value, c.ev, KnownRemote(db, c.ev));
  }

  /** A remote uid is set, but it or the local uid is NULL, so no contact can be stored. */
  predicate LacksUid(ev: ElEvent) {
    ev.remoteUid.Set? && (StringOf(ev.localUid) == None || StringOf(ev.remoteUid) == None)
  }

  /** Some cached row keeps an event of group g and this service out. */
  predicate Blocked(db: Db, g: CString, serviceId: int) {
    g.Some? && exists r :: r in db.cache && CacheAgreement.Blocks(r, g.value, serviceId, NextId(db.events))
  }

  lemma UpsertFailsExactly(db: Db, ev: ElEvent)
    ensures UpsertRemote(db, ev, KnownRemote(db, ev)).None? <==> LacksUid(ev)
  {
    var local, remote := StringOf(ev.localUid), StringOf(ev.remoteUid);
    var found := Filter(db.remotes, RemoteIs(local, remote));
    FilterAll(db.remotes, RemoteIs(local, remote));
    assert |found| > 0 ==> Last(found) in found;
  }

  /** With one row per group in the cache, adding an event fails exactly when a cached row blocks it or a uid is
      missing. */
  lemma AddCoreFailsExactly(db: Db, c: Checked, now: int, last: CString)
    requires CacheAgreement.OneRowPerGroup(db.cache)
    ensures AddCore(db, c, now, last).None? <==> Blocked(db, Remembered(last, c.ev), c.serviceId) || LacksUid(c.ev)
  {
    var row := NewRow(c, now, last);
    if row.groupUid.Some? { CacheAgreement.InsertTriggers(db, row, row.groupUid.value); }
    if InsertEvent(db, row).Some? {
      UpsertFailsExactly(InsertEvent(db, row).value, c.ev);
    }
  }

  /** On an agreeing cache, exactly when its group holds an event of another service or a uid is missing. */
  lemma AddCoreRefusedExactly(db: Db, c: Checked, now: int, last: CString)
    requires Sound(db) && Agrees(db.events, db.cache)
    ensures AddCore(db, c, now, last).None? <==>
            (exists m :: m in db.events && m.groupUid.Some? && m.groupUid == Remembered(last, c.ev)
                && m.serviceId != c.serviceId)
            || LacksUid(c.ev)
  {
    var row := NewRow(c, now, last);
    CacheAgreement.InsertFailsExactly(db, row);
    if InsertEvent(db, row).Some? {
      UpsertFailsExactly(InsertEvent(db, row).value, c.ev);
    }
  }

  function AttachmentRows(id: int, atts: seq<Attach>): seq<Attachment>
    requires forall a | a in atts :: a.dest.Some?
  {
    seq(|atts|, i requires 0 <= i < |atts| => Attachment(id, atts[i].dest.value, atts[i].desc))
  }

  function HeaderRows(id: int, hs: seq<(string, CString)>): seq<Header>
    requires forall h | h in hs :: h.1.Some?
  {
    seq(|hs|, i requires 0 <= i < |hs| => Header(id, hs[i].0, hs[i].1.value))
  }

  /** The attachment loop adds one row per element, in order, and fails exactly on a failed copy. */
  lemma {:induction false} AttachmentsAdded(db: Db, id: int, atts: seq<Attach>)
    ensures InsertAttachments(db, id, atts).Some? <==> forall a | a in atts :: a.dest.Some?
    ensures InsertAttachments(db, id, atts).Some? ==>
              InsertAttachments(db, id, atts).value == db.(attachments := db.attachments + AttachmentRows(id, atts))
  {
    if atts != [] {
      var init := atts[..|atts| - 1];
      AttachmentsAdded(db, id, init);
      assert atts == init + [Last(atts)];
      if forall a | a in atts :: a.dest.Some? {
        assert AttachmentRows(id, atts) ==
               AttachmentRows(id, init) + [Attachment(id, Last(atts).dest.value, Last(atts).desc)];
        var rows := db.attachments;
        assert rows + AttachmentRows(id, atts) ==
               rows + AttachmentRows(id, init) + [Attachment(id, Last(atts).dest.value, Last(atts).desc)];
      }
    }
  }

  ghost predicate DistinctNames(hs: seq<(string, CString)>) {
    forall i, j :: 0 <= i < j < |hs| ==> hs[i].0 != hs[j].0
  }

  /** The next header of a hash table does not clash with those inserted before it. */
  lemma HeaderFits(db: Db, id: int, init: seq<(string, CString)>, h: (string, CString))
    requires DistinctNames(init + [h]) && (forall r | r in db.headers :: r.eventId != id)
             && forall x | x in init :: x.1.Some?
    ensures forall r | r in db.headers + HeaderRows(id, init) :: r.eventId == id ==> r.name != h.0
  {
    var added := HeaderRows(id, init);
    forall r | r in added ensures r.name != h.0 {
      var k :| 0 <= k < |added| && added[k] == r;
      assert (init + [h])[k] == init[k] && (init + [h])[|init|] == h;
    }
  }

  lemma HeaderRowsPush(id: int, init: seq<(string, CString)>, h: (string, CString))
    requires (forall x | x in init :: x.1.Some?) && h.1.Some?
    ensures forall x | x in init + [h] :: x.1.Some?
    ensures HeaderRows(id, init + [h]) == HeaderRows(id, init) + [Header(id, h.0, h.1.value)]
  {
  }

  /** The header loop, for an event that has no headers yet: UNIQUE(event_id, name) is never in the way, since a hash
      table has each name once; it fails exactly on a missing value. */
  lemma {:induction false} HeadersAdded(db: Db, id: int, hs: seq<(string, CString)>)
    requires DistinctNames(hs) && forall h | h in db.headers :: h.eventId != id
    ensures InsertHeaders(db, id, hs).Some? <==> forall h | h in hs :: h.1.Some?
    ensures InsertHeaders(db, id, hs).Some? ==>
              InsertHeaders(db, id, hs).value == db.(headers := db.headers + HeaderRows(id, hs))
  {
    if hs != [] {
      var init, h := hs[..|hs| - 1], Last(hs);
      HeadersAdded(db, id, init);
      assert hs == init + [h];
      if forall x | x in init :: x.1.Some? {
        HeaderFits(db, id, init, h);
        if h.1.Some? {
          HeaderRowsPush(id, init, h);
          assert db.headers + HeaderRows(id, hs) == db.headers + HeaderRows(id, init) + [Header(id, h.0, h.1.value)];
        }
      }
    }
  }

  /** add_event_full: it fails exactly when a cached row blocks the event, a uid is missing, a copy failed or a header
      has no value (with one row per group in the cache, as in every reachable state); and on success there is exactly
      one new event, one attachment row per element in order, and exactly the given headers. */
  lemma AddFullExactly(db: Db, c: Checked, now: int, last: CString, hs: seq<(string, CString)>, atts: seq<Attach>)
    requires Sound(db) && DistinctNames(hs)
    ensures AddFull(db, c, now, last, hs, atts).Some? <==>
            && AddCore(db, c, now, last).Some?
            && (forall a | a in atts :: a.dest.Some?) && (forall h | h in hs :: h.1.Some?)
    ensures CacheAgreement.OneRowPerGroup(db.cache) ==>
              (AddFull(db, c, now, last, hs, atts).Some? <==>
               && !Blocked(db, Remembered(last, c.ev), c.serviceId) && !LacksUid(c.ev)
               && (forall a | a in atts :: a.dest.Some?) && (forall h | h in hs :: h.1.Some?))
    ensures AddFull(db, c, now, last, hs, atts).Some? ==>
              var id := NextId(db.events);
              && (forall a | a in atts :: a.dest.Some?) && (forall h | h in hs :: h.1.Some?)
              && AddFull(db, c, now, last, hs, atts).value ==
                 AddCore(db, c, now, last).value.(
                   events := db.events + [NewRow(c, now, last).(id := id)],
                   attachments := db.attachments + AttachmentRows(id, atts),
                   headers := db.headers + HeaderRows(id, hs))
  {
    if CacheAgreement.OneRowPerGroup(db.cache) { AddCoreFailsExactly(db, c, now, last); }
    if AddCore(db, c, now, last).Some? {
      var id := NextId(db.events);
      AddCoreKeepsSound(db, c, now, last);
      AttachmentsAdded(AddCore(db, c, now, last).value, id, atts);
      forall h | h in db.headers ensures h.eventId != id {
        var e :| e in db.events && e.id == h.eventId;
        NextIdIsNew(db.events, e);
      }
      if InsertAttachments(AddCore(db, c, now, last).value, id, atts).Some? {
        HeadersAdded(InsertAttachments(AddCore(db, c, now, last).value, id, atts).value, id, hs);
      }
    }
  }

  /** The event just added starts with no header and no attachment but its own, even when its id was used before. */
  lemma NewIdIsClean(db: Db)
    requires Sound(db)
    ensures forall h | h in db.headers :: h.eventId != NextId(db.events)
    ensures forall a | a in db.attachments :: a.eventId != NextId(db.events)
  {
    forall id | id in Ids(db.events) ensures id != NextId(db.events) {
      var e :| e in db.events && e.id == id;
      NextIdIsNew(db.events, e);
    }
  }

  lemma AddFullKeepsSound(db: Db, c: Checked, now: int, last: CString, hs: seq<(string, CString)>, atts: seq<Attach>)
    requires Sound(db) && DistinctNames(hs) && AddFull(db, c, now, last, hs, atts).Some?
    ensures Sound(AddFull(db, c, now, last, hs, atts).value)
    ensures AddFull(db, c, now, last, hs, atts).value.cache == InsertEvent(db, NewRow(c, now, last)).value.cache
    ensures AddFull(db, c, now, last, hs, atts).value.events ==
            db.events + [NewRow(c, now, last).(id := NextId(db.events))]
  {
    var id := NextId(db.events);
    var row := NewRow(c, now, last).(id := id);
    AddFullExactly(db, c, now, last, hs, atts);
    AddCoreKeepsSound(db, c, now, last);
    NewIdIsClean(db);
    var core, full := AddCore(db, c, now, last).value, AddFull(db, c, now, last, hs, atts).value;
    var added := HeaderRows(id, hs);
    forall i, j | 0 <= i < j < |full.headers| ensures OtherHeader()(full.headers[i], full.headers[j]) {
      assert i < |db.headers| ==> full.headers[i] == db.headers[i] && db.headers[i] in db.headers;
      assert j >= |db.headers| ==> full.headers[j] == added[j - |db.headers|];
      assert i >= |db.headers| ==> full.headers[i] == added[i - |db.headers|];
      assert j < |db.headers| ==> OtherHeader()(db.headers[i], db.headers[j]);
    }
    assert row in full.events && id in Ids(full.events);
    forall h | h in full.headers ensures h.eventId in Ids(full.events) {
      assert h in core.headers || h in added;
    }
    forall a | a in full.attachments ensures a.eventId in Ids(full.events) {
      assert a in core.attachments || a in AttachmentRows(id, atts);
    }
  }

  /** Adding a header or an attachment to an existing event. */
  lemma AppendKeepsSound(db: Db, id: int, name: string, value: CString, a: Attach)
    requires Sound(db) && id in Ids(db.events)
    ensures InsertHeader(db, id, name, value).Some? ==> Sound(InsertHeader(db, id, name, value).value)
    ensures InsertAttachment(db, id, a).Some? ==> Sound(InsertAttachment(db, id, a).value)
  {
    if InsertHeader(db, id, name, value).Some? {
      var headers := db.headers + [Header(id, name, value.value)];
      forall i, j | 0 <= i < j < |headers| ensures OtherHeader()(headers[i], headers[j]) {
        assert db.headers[i] in db.headers;
      }
    }
  }

  lemma UpdateKeepsSound(db: Db, id: int, f: Event -> Event)
    requires Sound(db) && forall e :: f(e).id == e.id
    ensures Sound(UpdateEvent(db, id, f))
  {
    if Find(db.events, id).Some? {
      var i := Find(db.events, id).value;
      var db' := UpdateEvent(db, id, f);
      forall k | k in Ids(db.events) ensures k in Ids(db'.events) {
        var j :| 0 <= j < |db.events| && db.events[j].id == k;
        assert db'.events[j].id == k && db'.events[j] in db'.events;
      }
      forall a, b | 0 <= a < b < |db'.events| ensures EarlierId()(db'.events[a], db'.events[b]) {
        assert EarlierId()(db.events[a], db.events[b]);
      }
      forall e | e in db'.events ensures e.id >= 1 {
        var j :| 0 <= j < |db'.events| && db'.events[j] == e;
        assert db.events[j] in db.events;
      }
    }
  }

  lemma DeleteKeepsSound(db: Db, ids: set<int>)
    requires Sound(db)
    ensures Sound(DeleteIds(db, ids))
  {
    var gone := ids * Ids(db.events);
    var db' := DeleteIds(db, ids);
    DeleteAgreement.DeleteKeepsKeys(db, ids);
    FilterPairwise(db.headers, HeaderSurvives(gone), OtherHeader());
    FilterAll(db.headers, HeaderSurvives(gone));
    FilterAll(db.attachments, AttachmentSurvives(gone));
    forall id | id in Ids(db.events) && id !in gone ensures id in Ids(db'.events) {
      var e :| e in db.events && e.id == id;
      FilterIn(db.events, Survives(gone), e);
    }
  }

  lemma SignedDifference(a: int, b: int)
    ensures Signed32(Signed32(a) - Signed32(b)) == Signed32(a - b)
  {
    var m := 0x1_0000_0000;
    var k, l := (a - Signed32(a)) / m, (b - Signed32(b)) / m;
    assert a == Signed32(a) + k * m && b == Signed32(b) + l * m;
    SameResidue(a - b, Signed32(a) - Signed32(b), k - l);
  }

  lemma SameResidue(x: int, y: int, k: int)
    requires x == y + k * 0x1_0000_0000
    ensures Signed32(x) == Signed32(y)
  {
  }

  /** get_group_info on an agreeing cache: the counts are those of a scan, to 32 bits, zeros for a group without events;
      and so are the flags when the cached ones are exact. */
  lemma GroupInfoIsScan(db: Db, g: string)
    requires Agrees(db.events, db.cache)
    ensures var m := Members(db.events, g);
            && GroupInfo(db, g).0 == Signed32(|m|) && GroupInfo(db, g).1 == Signed32(|m| - ReadSum(m))
            && (Flags.FlagsExact(db.events, db.cache) ==> GroupInfo(db, g).2 == Signed32(FlagOr(m)))
  {
    var found := Filter(db.cache, SameGroup(g));
    FilterAll(db.cache, SameGroup(g));
    DeleteAgreement.RowIn(db.cache, g);
    if found == [] {
      assert !HasRow(db.cache, g);
      CacheAgreement.NoRowNoMembers(db.events, db.cache, g);
    } else {
      assert Last(found) in found;
      SignedDifference(Last(found).total, Last(found).read);
    }
  }
}
