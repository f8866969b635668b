/** Runs of the log: sequences of library calls, starting from an empty database. */
module Runs {
  import opened Seqs
  import opened Tables
  import opened Groups
  import opened Statements
  import opened Criteria
  import opened Select
  import opened GroupList
  import opened Deletions
  import opened Operations
  import opened Integrity
  import opened Bits
  import opened CacheShape
  import CacheAgreement
  import DeleteAgreement
  import Flags
  import opened DeletedFlags

  /** A call.  Deletes carry the order in which DISTINCT listed the groups; DeleteBlind is a delete_event or
      delete_events whose lookup of the groups failed, which goes unnoticed. */
  datatype Call =
    | Add(ev: ElEvent, now: int, headers: seq<(string, CString)>, attachments: seq<Attach>)
    | MarkRead(id: int, read: int)
    | SetFlag(id: int, bits: int)
    | UnsetFlag(id: int, bits: int)
    | DeleteEvent(id: int, li: seq<Uid>)
    | DeleteEvents(where_: seq<Pred>, li: seq<Uid>)
    | DeleteByService(sid: int)
    | DeleteByGroups(groups: seq<string>)
    | DeleteBlind(ids: set<int>)
    | DeleteAll
    | AddHeader(id: int, name: string, value: CString)
    | AddAttachment(id: int, attachment: Attach)
    | UpdateRemotes(contacts: seq<Contact>)
    | RemoveAbookUids(uids: seq<CString>)

  /** The database and the in-memory group uid. */
  datatype Store = Store(db: Db, last: CString)

  /** One call.  Calls that may fail without a trace leave the database alone; deletes appear only when they succeed,
      since they run without a journal; headers and attachments go to existing events. */
  ghost predicate Step(s: Store, c: Call, t: Store) {
    match c
    case Add(ev, now, hs, atts) =>
      DistinctNames(hs) &&
      (t == s ||
       (Precheck(s.db, ev).Some? &&
        var checked := Precheck(s.db, ev).value;
        t.last == Remembered(s.last, checked.ev) &&
        (t.db == s.db || AddFull(s.db, checked, now, t.last, hs, atts) == Some(t.db))))
    case MarkRead(id, read) => t.last == s.last
        && (t.db == s.db || t.db == UpdateEvent(s.db, id, Statements.SetRead(read)))
    case SetFlag(id, v) => t.last == s.last && (t.db == s.db || t.db == UpdateEvent(s.db, id, SetFlags(v)))
    case UnsetFlag(id, v) => t.last == s.last && (t.db == s.db || t.db == UpdateEvent(s.db, id, UnsetFlags(v)))
    case DeleteEvent(id, li) =>
      t.last == s.last && IsListing(li, GroupsOfId(s.db, id)) && DeleteAndRebuild(s.db, {id}, li) == Some(t.db)
    case DeleteEvents(ps, li) =>
      t.last == s.last && IsListing(li, HitGroups(s.db, ps))
          && DeleteAndRebuild(s.db, HitIds(s.db, ps), li) == Some(t.db)
    case DeleteByService(sid) => t.last == s.last && t.db == DeleteService(s.db, sid)
    case DeleteByGroups(gs) => t.last == s.last && t.db == DeleteGroups(s.db, gs)
    case DeleteBlind(ids) => t.last == s.last && t.db == DeleteIds(s.db, ids)
    case DeleteAll => t.last == s.last && t.db == DeleteIds(s.db, Ids(s.db.events))
    case AddHeader(id, name, value) =>
      t.last == s.last && id in Ids(s.db.events) && (t.db == s.db || InsertHeader(s.db, id, name, value) == Some(t.db))
    case AddAttachment(id, a) =>
      t.last == s.last && id in Ids(s.db.events) && (t.db == s.db || InsertAttachment(s.db, id, a) == Some(t.db))
    case UpdateRemotes(cs) => t.last == s.last && (t.db == s.db || t.db == UpdateContacts(s.db, cs))
    case RemoveAbookUids(uids) => t.last == s.last && (t.db == s.db || t.db == RemoveAbooks(s.db, uids))
  }

  ghost predicate Run(states: seq<Store>, calls: seq<Call>) {
    && |states| == |calls| + 1
    && states[0].db == EmptyLog(states[0].db.services, states[0].db.eventTypes, states[0].db.flagValues)
    && states[0].last == None
    && forall i :: 0 <= i < |calls| ==> Step(states[i], calls[i], states[i + 1])
  }

  /* ---- integrity ---- */

  lemma {:induction false} DeleteGroupsKeepSound(db: Db, gs: seq<string>)
    requires Sound(db)
    ensures Sound(DeleteGroups(db, gs))
  {
    if gs != [] {
      var before := DeleteGroups(db, gs[..|gs| - 1]);
      DeleteGroupsKeepSound(db, gs[..|gs| - 1]);
      DeleteKeepsSound(before, GroupIds(before, Last(gs)));
    }
  }

  lemma StepKeepsSound(s: Store, c: Call, t: Store)
    requires Sound(s.db) && Step(s, c, t)
    ensures Sound(t.db)
  {
    if t.db != s.db {
      match c
      case Add(ev, now, hs, atts) => AddFullKeepsSound(s.db, Precheck(s.db, ev).value, now, t.last, hs, atts);
      case MarkRead(id, read) => UpdateKeepsSound(s.db, id, Statements.SetRead(read));
      case SetFlag(id, v) => UpdateKeepsSound(s.db, id, SetFlags(v));
      case UnsetFlag(id, v) => UpdateKeepsSound(s.db, id, UnsetFlags(v));
      case DeleteEvent(id, li) => DeleteKeepsSound(s.db, {id});
      case DeleteEvents(ps, li) => DeleteKeepsSound(s.db, HitIds(s.db, ps));
      case DeleteByService(sid) => DeleteKeepsSound(s.db, ServiceIds(s.db, sid));
      case DeleteByGroups(gs) => DeleteGroupsKeepSound(s.db, gs);
      case DeleteBlind(ids) => DeleteKeepsSound(s.db, ids);
      case DeleteAll => DeleteKeepsSound(s.db, Ids(s.db.events));
      case AddHeader(id, name, value) => AppendKeepsSound(s.db, id, name, value, Attach(None, None));
      case AddAttachment(id, a) => AppendKeepsSound(s.db, id, "", None, a);
      case UpdateRemotes(cs) => UpdateContactsKeepSound(s.db, cs);
      case RemoveAbookUids(uids) => RemoveAbooksKeepSound(s.db, uids);
    }
  }

  /* ---- agreement ---- */

  /** Group uids contain no quote: the assumption update_group_cache makes. */
  predicate PlainUid(u: Uid) {
    u.Some? ==> '\'' !in u.value
  }

  predicate PlainCall(c: Call) {
    c.Add? && c.ev.groupUid.Set? ==> PlainUid(c.ev.groupUid.value)
  }

  /** Every call but delete_all and the deletes that failed to look up their groups. */
  predicate KeepsCache(c: Call) {
    !c.DeleteAll? && !c.DeleteBlind?
  }

  ghost predicate PlainStore(s: Store) {
    PlainUid(s.last) && forall e | e in s.db.events :: PlainUid(e.groupUid)
  }

  lemma {:induction false} GroupsOnlyShrink(db: Db, gs: seq<string>, e: Event)
    requires e in DeleteGroups(db, gs).events
    ensures e in db.events
  {
    if gs != [] {
      var before := DeleteGroups(db, gs[..|gs| - 1]);
      DeleteAgreement.SurvivorIs(before, GroupIds(before, Last(gs)), e);
      GroupsOnlyShrink(db, gs[..|gs| - 1], e);
    }
  }

  lemma {:induction false} ContactsTouchRemotesOnly(db: Db, cs: seq<Contact>)
    ensures UpdateContacts(db, cs) == db.(remotes := UpdateContacts(db, cs).remotes)
  {
    if cs != [] { ContactsTouchRemotesOnly(db, cs[..|cs| - 1]); }
  }

  lemma {:induction false} AbooksTouchRemotesOnly(db: Db, uids: seq<CString>)
    ensures RemoveAbooks(db, uids) == db.(remotes := RemoveAbooks(db, uids).remotes)
  {
    if uids != [] { AbooksTouchRemotesOnly(db, uids[..|uids| - 1]); }
  }

  /** Where the events of the next state come from, when the call adds or updates. */
  lemma StepEventsKept(s: Store, c: Call, t: Store, e: Event)
    requires Sound(s.db) && Step(s, c, t) && e in t.db.events && t.db != s.db
    requires c.Add? || c.MarkRead? || c.SetFlag? || c.UnsetFlag?
    ensures (exists x :: x in s.db.events && x.groupUid == e.groupUid) || (c.Add? && e.groupUid == t.last)
  {
    match c
    case Add(ev, now, hs, atts) => AddFullKeepsSound(s.db, Precheck(s.db, ev).value, now, t.last, hs, atts);
    case MarkRead(id, read) => UpdatedEvent(s.db, id, Statements.SetRead(read), e);
    case SetFlag(id, v) => UpdatedEvent(s.db, id, SetFlags(v), e);
    case UnsetFlag(id, v) => UpdatedEvent(s.db, id, UnsetFlags(v), e);
    case _ =>
  }

  /** Any other call leaves no event that was not there. */
  lemma StepEventsOnlyShrink(s: Store, c: Call, t: Store, e: Event)
    requires Step(s, c, t) && e in t.db.events && t.db != s.db
    requires !(c.Add? || c.MarkRead? || c.SetFlag? || c.UnsetFlag?)
    ensures e in s.db.events
  {
    match c
    case DeleteEvent(id, li) => DeleteAgreement.SurvivorIs(s.db, {id}, e);
    case DeleteEvents(ps, li) => DeleteAgreement.SurvivorIs(s.db, HitIds(s.db, ps), e);
    case DeleteByService(sid) => DeleteAgreement.SurvivorIs(s.db, ServiceIds(s.db, sid), e);
    case DeleteByGroups(gs) => GroupsOnlyShrink(s.db, gs, e);
    case DeleteBlind(ids) => DeleteAgreement.SurvivorIs(s.db, ids, e);
    case DeleteAll => DeleteAgreement.SurvivorIs(s.db, Ids(s.db.events), e);
    case UpdateRemotes(cs) => ContactsTouchRemotesOnly(s.db, cs);
    case RemoveAbookUids(uids) => AbooksTouchRemotesOnly(s.db, uids);
    case _ =>
  }

  lemma StepEvents(s: Store, c: Call, t: Store, e: Event)
    requires Sound(s.db) && Step(s, c, t) && e in t.db.events
    ensures (exists x :: x in s.db.events && x.groupUid == e.groupUid) || (c.Add? && e.groupUid == t.last)
  {
    if t.db != s.db {
      if c.Add? || c.MarkRead? || c.SetFlag? || c.UnsetFlag? {
        StepEventsKept(s, c, t, e);
      } else {
        StepEventsOnlyShrink(s, c, t, e);
      }
    }
  }

  lemma UpdatedEvent(db: Db, id: int, f: Event -> Event, e: Event)
    requires CacheAgreement.KeepsPlace(f) && e in UpdateEvent(db, id, f).events
    ensures exists x :: x in db.events && x.groupUid == e.groupUid
  {
    var events := UpdateEvent(db, id, f).events;
    var j :| 0 <= j < |events| && events[j] == e;
    assert db.events[j] in db.events && db.events[j].groupUid == e.groupUid;
  }

  lemma StepKeepsPlain(s: Store, c: Call, t: Store)
    requires Sound(s.db) && Step(s, c, t) && PlainStore(s) && PlainCall(c)
    ensures PlainStore(t)
  {
    assert PlainUid(t.last) by {
      if c.Add? && Precheck(s.db, c.ev).Some? { assert Precheck(s.db, c.ev).value.ev.groupUid == c.ev.groupUid; }
    }
    forall e | e in t.db.events ensures PlainUid(e.groupUid) {
      StepEvents(s, c, t, e);
    }
  }

  lemma ListingIsPlain(s: Store, li: seq<Uid>, groups: set<Uid>)
    requires PlainStore(s) && IsListing(li, groups)
    requires forall u | u in groups :: exists e :: e in s.db.events && e.groupUid == u
    ensures QuoteFree(li)
  {
  }

  lemma HitGroupsAreGroups(db: Db, ps: seq<Pred>)
    requires UniquePartners(db) && Keyed(db.events)
    ensures forall u | u in HitGroups(db, ps) :: exists e :: e in db.events && e.groupUid == u
  {
    JoinEventsRows(db, db.events);
    FilterAll(JoinEvents(db, db.events), Passes(ps));
  }

  lemma {:induction false} DeleteGroupsKeepAgreement(db: Db, gs: seq<string>)
    requires Sound(db) && Agrees(db.events, db.cache)
    ensures Agrees(DeleteGroups(db, gs).events, DeleteGroups(db, gs).cache)
  {
    if gs != [] {
      var init, g := gs[..|gs| - 1], Last(gs);
      var before := DeleteGroups(db, init);
      DeleteGroupsKeepAgreement(db, init);
      DeleteGroupsKeepSound(db, init);
      GroupIdsExact(before, g);
      DeleteAgreement.DeleteGroupKeepsAgreement(before, g, GroupIds(before, g));
    }
  }

  lemma GroupIdsExact(db: Db, g: string)
    requires Keyed(db.events)
    ensures forall e | e in db.events :: e.id in GroupIds(db, g) <==> e.groupUid == Some(g)
  {
    forall e | e in db.events && e.id in GroupIds(db, g) ensures e.groupUid == Some(g) {
      var x :| x in db.events && x.groupUid == Some(g) && x.id == e.id;
      SameIdSameEvent(db.events, e, x);
    }
  }

  lemma ServiceIdsExact(db: Db, sid: int)
    requires Keyed(db.events)
    ensures forall e | e in db.events :: e.id in ServiceIds(db, sid) <==> e.serviceId == sid
  {
    forall e | e in db.events && e.id in ServiceIds(db, sid) ensures e.serviceId == sid {
      var x :| x in db.events && x.serviceId == sid && x.id == e.id;
      SameIdSameEvent(db.events, e, x);
    }
  }

  lemma StepKeepsAgreement(s: Store, c: Call, t: Store)
    requires Sound(s.db) && Agrees(s.db.events, s.db.cache) && PlainStore(s)
    requires Step(s, c, t) && KeepsCache(c)
    ensures Agrees(t.db.events, t.db.cache)
  {
    if t.db != s.db {
      match c
      case Add(ev, now, hs, atts) =>
        AddFullKeepsSound(s.db, Precheck(s.db, ev).value, now, t.last, hs, atts);
        CacheAgreement.InsertKeepsAgreement(s.db, NewRow(Precheck(s.db, ev).value, now, t.last));
      case MarkRead(id, read) => CacheAgreement.UpdateKeepsAgreement(s.db, id, Statements.SetRead(read));
      case SetFlag(id, v) => CacheAgreement.UpdateKeepsAgreement(s.db, id, SetFlags(v));
      case UnsetFlag(id, v) => CacheAgreement.UpdateKeepsAgreement(s.db, id, UnsetFlags(v));
      case DeleteEvent(id, li) =>
        ListingIsPlain(s, li, GroupsOfId(s.db, id));
        IdGroupsListLosers(s.db, id, li);
        DeleteKeepsAgreement(s.db, {id}, li);
      case DeleteEvents(ps, li) =>
        HitGroupsAreGroups(s.db, ps);
        ListingIsPlain(s, li, HitGroups(s.db, ps));
        HitGroupsListLosers(s.db, ps, li);
        DeleteKeepsAgreement(s.db, HitIds(s.db, ps), li);
      case DeleteByService(sid) =>
        ServiceIdsExact(s.db, sid);
        DeleteAgreement.DeleteServiceKeepsAgreement(s.db, sid, ServiceIds(s.db, sid));
      case DeleteByGroups(gs) => DeleteGroupsKeepAgreement(s.db, gs);
      case AddHeader(id, name, value) =>
      case AddAttachment(id, a) =>
      case UpdateRemotes(cs) => ContactsTouchRemotesOnly(s.db, cs);
      case RemoveAbookUids(uids) => AbooksTouchRemotesOnly(s.db, uids);
    }
  }

  /* ---- one row per group ---- */

  lemma DeleteServiceKeepsShape(db: Db, sid: int)
    requires Sound(db) && Shaped(db.events, db.cache)
    ensures Shaped(DeleteService(db, sid).events, DeleteService(db, sid).cache)
  {
    var now := DeleteIds(db, ServiceIds(db, sid)).events;
    DeleteAgreement.DeleteKeepsKeys(db, ServiceIds(db, sid));
    ServiceIdsExact(db, sid);
    forall e | e in now ensures e.serviceId != sid {
      DeleteAgreement.SurvivorIs(db, ServiceIds(db, sid), e);
    }
    CacheShape.DeleteKeepsShape(db.events, db.cache, now, CachedElsewhere(sid));
  }

  lemma {:induction false} DeleteGroupsKeepShape(db: Db, gs: seq<string>)
    requires Sound(db) && Shaped(db.events, db.cache)
    ensures Shaped(DeleteGroups(db, gs).events, DeleteGroups(db, gs).cache)
  {
    if gs != [] {
      var before, g := DeleteGroups(db, gs[..|gs| - 1]), Last(gs);
      DeleteGroupsKeepShape(db, gs[..|gs| - 1]);
      DeleteGroupsKeepSound(db, gs[..|gs| - 1]);
      var now := DeleteIds(before, GroupIds(before, g)).events;
      DeleteAgreement.DeleteKeepsKeys(before, GroupIds(before, g));
      GroupIdsExact(before, g);
      forall e | e in now ensures e.groupUid != Some(g) {
        DeleteAgreement.SurvivorIs(before, GroupIds(before, g), e);
      }
      CacheShape.DeleteKeepsShape(before.events, before.cache, now, NotGroup(g));
    }
  }

  /** Every call, delete_all and deletes without their lookup included, whatever the uids. */
  lemma StepKeepsShape(s: Store, c: Call, t: Store)
    requires Sound(s.db) && Shaped(s.db.events, s.db.cache) && Step(s, c, t)
    ensures Shaped(t.db.events, t.db.cache)
  {
    if t.db != s.db {
      match c
      case Add(ev, now, hs, atts) =>
        AddFullKeepsSound(s.db, Precheck(s.db, ev).value, now, t.last, hs, atts);
        InsertKeepsShape(s.db, NewRow(Precheck(s.db, ev).value, now, t.last));
      case MarkRead(id, read) => UpdateKeepsShape(s.db, id, Statements.SetRead(read));
      case SetFlag(id, v) => UpdateKeepsShape(s.db, id, SetFlags(v));
      case UnsetFlag(id, v) => UpdateKeepsShape(s.db, id, UnsetFlags(v));
      case DeleteEvent(id, li) => DeleteAndRebuildKeepsShape(s.db, {id}, li);
      case DeleteEvents(ps, li) => DeleteAndRebuildKeepsShape(s.db, HitIds(s.db, ps), li);
      case DeleteByService(sid) => DeleteServiceKeepsShape(s.db, sid);
      case DeleteByGroups(gs) => DeleteGroupsKeepShape(s.db, gs);
      case DeleteBlind(ids) => DeletedKeepsShape(s.db, ids);
      case DeleteAll => DeletedKeepsShape(s.db, Ids(s.db.events));
      case AddHeader(id, name, value) =>
      case AddAttachment(id, a) =>
      case UpdateRemotes(cs) => ContactsTouchRemotesOnly(s.db, cs);
      case RemoveAbookUids(uids) => AbooksTouchRemotesOnly(s.db, uids);
    }
  }

  /* ---- flags ---- */

  /** A flag is unset that no other event of the group needs. */
  ghost predicate UnsetSafe(db: Db, id: int, bits: int) {
    var i := Find(db.events, id);
    i.Some? ==>
      Flags.NoOtherCarries(db.events, i.value, Flags.Removed(db.events[i.value], UnsetFlags(bits)(db.events[i.value])))
  }

  /** A step after which the cached flags are as good as before: one that changed nothing, or whose rebuilt sums are
      ORs, or that takes no bit away which another event still carries; a bit too few matters for exactness only. */
  ghost predicate FlagSafe(s: Store, c: Call, t: Store, exact: bool) {
    && KeepsCache(c)
    && (t.db != s.db && (c.DeleteEvent? || c.DeleteEvents?) ==> NoCarry(t.db.events, NonNull(c.li)))
    && (t.db != s.db && c.UnsetFlag? && exact ==> UnsetSafe(s.db, c.id, c.bits))
  }

  ghost predicate FlagsFine(db: Db, exact: bool) {
    Flags.FlagsSound(db.events, db.cache) && (exact ==> Flags.FlagsExact(db.events, db.cache))
  }

  lemma DeleteServiceKeepsFlags(db: Db, sid: int, exact: bool)
    requires Sound(db) && Agrees(db.events, db.cache) && FlagsFine(db, exact)
    ensures FlagsFine(DeleteService(db, sid), exact)
  {
    var cache := Filter(db.cache, CachedElsewhere(sid));
    ServiceIdsExact(db, sid);
    FilterAll(db.cache, CachedElsewhere(sid));
    forall r, e | r in cache && e in db.events && e.groupUid == Some(r.groupUid) ensures e.id !in ServiceIds(db, sid) {
      MemberIn(db.events, r.groupUid, e);
    }
    Flags.UntouchedKeepFlags(db, ServiceIds(db, sid), cache);
  }

  lemma DeleteGroupKeepsFlags(db: Db, g: string, exact: bool)
    requires Sound(db) && FlagsFine(db, exact)
    ensures FlagsFine(DeleteGroup(db, g), exact)
  {
    GroupIdsExact(db, g);
    FilterAll(db.cache, NotGroup(g));
    Flags.UntouchedKeepFlags(db, GroupIds(db, g), Filter(db.cache, NotGroup(g)));
  }

  lemma {:induction false} DeleteGroupsKeepFlags(db: Db, gs: seq<string>, exact: bool)
    requires Sound(db) && FlagsFine(db, exact)
    ensures FlagsFine(DeleteGroups(db, gs), exact)
  {
    if gs != [] {
      DeleteGroupsKeepFlags(db, gs[..|gs| - 1], exact);
      DeleteGroupsKeepSound(db, gs[..|gs| - 1]);
      DeleteGroupKeepsFlags(DeleteGroups(db, gs[..|gs| - 1]), Last(gs), exact);
    }
  }

  lemma AddKeepsFlags(db: Db, c: Checked, now: int, last: CString, hs: seq<(string, CString)>, atts: seq<Attach>,
      exact: bool)
    requires Sound(db) && Agrees(db.events, db.cache) && FlagsFine(db, exact)
    requires DistinctNames(hs) && AddFull(db, c, now, last, hs, atts).Some?
    ensures FlagsFine(AddFull(db, c, now, last, hs, atts).value, exact)
  {
    AddFullKeepsSound(db, c, now, last, hs, atts);
    Flags.InsertKeepsFlags(db, NewRow(c, now, last));
  }

  lemma UnsetKeepsFlags(db: Db, id: int, bits: int, exact: bool)
    requires Agrees(db.events, db.cache) && FlagsFine(db, exact) && (exact ==> UnsetSafe(db, id, bits))
    ensures FlagsFine(UpdateEvent(db, id, UnsetFlags(bits)), exact)
  {
    UpdateFlags(db, id, UnsetFlags(bits));
    if exact && Find(db.events, id).Some? { Flags.UpdateExactly(db, id, UnsetFlags(bits)); }
  }

  lemma StepKeepsFlags(s: Store, c: Call, t: Store, exact: bool)
    requires Sound(s.db) && Agrees(s.db.events, s.db.cache) && PlainStore(s) && FlagsFine(s.db, exact)
    requires Step(s, c, t) && FlagSafe(s, c, t, exact)
    ensures FlagsFine(t.db, exact)
  {
    if t.db != s.db {
      match c
      case Add(ev, now, hs, atts) => AddKeepsFlags(s.db, Precheck(s.db, ev).value, now, t.last, hs, atts, exact);
      case MarkRead(id, read) => UpdateFlags(s.db, id, Statements.SetRead(read));
      case SetFlag(id, v) =>
        Flags.SetFlagsGrows(v);
        UpdateFlags(s.db, id, SetFlags(v));
      case UnsetFlag(id, v) => UnsetKeepsFlags(s.db, id, v, exact);
      case DeleteEvent(id, li) =>
        ListingIsPlain(s, li, GroupsOfId(s.db, id));
        IdGroupsListLosers(s.db, id, li);
        DeleteFlagsExactly(s.db, {id}, li);
      case DeleteEvents(ps, li) =>
        HitGroupsAreGroups(s.db, ps);
        ListingIsPlain(s, li, HitGroups(s.db, ps));
        HitGroupsListLosers(s.db, ps, li);
        DeleteFlagsExactly(s.db, HitIds(s.db, ps), li);
      case DeleteByService(sid) => DeleteServiceKeepsFlags(s.db, sid, exact);
      case DeleteByGroups(gs) => DeleteGroupsKeepFlags(s.db, gs, exact);
      case AddHeader(id, name, value) =>
      case AddAttachment(id, a) =>
      case UpdateRemotes(cs) => ContactsTouchRemotesOnly(s.db, cs);
      case RemoveAbookUids(uids) => AbooksTouchRemotesOnly(s.db, uids);
    }
  }

  lemma UpdateFlags(db: Db, id: int, f: Event -> Event)
    requires CacheAgreement.KeepsPlace(f) && Agrees(db.events, db.cache)
    ensures Flags.FlagsSound(db.events, db.cache) ==>
              Flags.FlagsSound(UpdateEvent(db, id, f).events, UpdateEvent(db, id, f).cache)
    ensures Flags.FlagsExact(db.events, db.cache) && (forall e: Event :: Within(e.flags, f(e).flags)) ==>
              Flags.FlagsExact(UpdateEvent(db, id, f).events, UpdateEvent(db, id, f).cache)
  {
    if Flags.FlagsSound(db.events, db.cache) { Flags.UpdateKeepsSound(db, id, f); }
    if Flags.FlagsExact(db.events, db.cache) && forall e: Event :: Within(e.flags, f(e).flags) {
      Flags.GrowingUpdateKeepsExact(db, id, f);
    }
  }

  /* ---- all runs ---- */

  /** Over every run, delete_all included: ids are keys, contacts and headers are unique, and every header and
      attachment belongs to an existing event. */
  lemma {:induction false} EveryRunIsSound(states: seq<Store>, calls: seq<Call>)
    requires Run(states, calls)
    ensures Sound(Last(states).db)
  {
    if calls != [] {
      var n := |calls| - 1;
      EveryRunIsSound(states[..n + 1], calls[..n]);
      StepKeepsSound(states[n], calls[n], states[n + 1]);
    }
  }

  /** Over every run, whatever the calls and the uids: the cache has at most one row per group and none left at id 0,
      every group with events has its row, under the one service of all its events, and no row holds another group's
      event. */
  lemma {:induction false} EveryRunHasOneRowPerGroup(states: seq<Store>, calls: seq<Call>)
    requires Run(states, calls)
    ensures Shaped(Last(states).db.events, Last(states).db.cache)
  {
    if calls != [] {
      var n := |calls| - 1;
      EveryRunHasOneRowPerGroup(states[..n + 1], calls[..n]);
      EveryRunIsSound(states[..n + 1], calls[..n]);
      StepKeepsShape(states[n], calls[n], states[n + 1]);
    }
  }

  /** Over every run whose group uids have no quotes, without delete_all and without a delete that failed to look up its
      groups, GroupCache agrees with Events. */
  lemma {:induction false} EveryRunAgrees(states: seq<Store>, calls: seq<Call>)
    requires Run(states, calls)
    requires forall i :: 0 <= i < |calls| ==> KeepsCache(calls[i]) && PlainCall(calls[i])
    ensures Agrees(Last(states).db.events, Last(states).db.cache) && PlainStore(Last(states))
  {
    if calls != [] {
      var n := |calls| - 1;
      EveryRunAgrees(states[..n + 1], calls[..n]);
      EveryRunIsSound(states[..n + 1], calls[..n]);
      StepKeepsAgreement(states[n], calls[n], states[n + 1]);
      StepKeepsPlain(states[n], calls[n], states[n + 1]);
    }
  }

  /** Over every run of flag-safe steps, no cached flag bit is without an event that carries it, and, if `exact`, the
      cached flags are exactly the OR. */
  lemma {:induction false} EveryRunKeepsFlags(states: seq<Store>, calls: seq<Call>, exact: bool)
    requires Run(states, calls)
    requires forall i :: 0 <= i < |calls| ==> FlagSafe(states[i], calls[i], states[i + 1], exact) && PlainCall(calls[i])
    ensures FlagsFine(Last(states).db, exact)
  {
    if calls != [] {
      var n := |calls| - 1;
      forall i | 0 <= i <= n ensures KeepsCache(calls[i]) {
        assert FlagSafe(states[i], calls[i], states[i + 1], exact);
      }
      EveryRunKeepsFlags(states[..n + 1], calls[..n], exact);
      EveryRunIsSound(states[..n + 1], calls[..n]);
      EveryRunAgrees(states[..n + 1], calls[..n]);
      StepKeepsFlags(states[n], calls[n], states[n + 1], exact);
    }
  }
}
