/** Deletes leave GroupCache stale; the rebuild and cleanup that follow make it agree again. */
module DeleteAgreement {
  import opened Seqs
  import opened Tables
  import opened Groups
  import opened Statements
  import CacheAgreement

  lemma RowIn(cache: seq<CacheRow>, g: string)
    ensures HasRow(cache, g) <==> exists r :: r in cache && r.groupUid == g
  {
    if r :| r in cache && r.groupUid == g {
      var i :| 0 <= i < |cache| && cache[i] == r;
    } else if HasRow(cache, g) {
      var i :| 0 <= i < |cache| && cache[i].groupUid == g;
    }
  }

  /** The cached id is the id of an event of the row's group. */
  lemma CachedIdIsMember(events: seq<Event>, r: CacheRow)
    requires RowAgrees(events, r)
    ensures exists e :: e in events && e.groupUid == Some(r.groupUid) && e.id == r.eventId
  {
    MemberIn(events, r.groupUid, Last(Members(events, r.groupUid)));
  }

  /** Between delete and cleanup: every row agrees with the events before the delete or after it, and rows
      of rebuilt groups that still have events agree with those after it. */
  ghost predicate Halfway(old_: seq<Event>, now: seq<Event>, cache: seq<CacheRow>, done: seq<string>) {
    && Pairwise(cache, OtherGroup())
    && (forall r | r in cache :: RowAgrees(old_, r) || RowAgrees(now, r))
    && (forall r | r in cache :: r.groupUid in done && Members(now, r.groupUid) != [] ==> RowAgrees(now, r))
    && (forall e | e in now :: e.groupUid.Some? ==> HasRow(cache, e.groupUid.value))
  }

  ghost predicate SubTable(now: seq<Event>, old_: seq<Event>) {
    forall e | e in now :: e in old_
  }

  /** INSERT OR REPLACE of group g's summary replaces exactly the rows of group g. */
  lemma ReplacesOwnRow(old_: seq<Event>, now: seq<Event>, cache: seq<CacheRow>, done: seq<string>, g: string,
      r: CacheRow)
    requires Keyed(old_) && SubTable(now, old_) && Halfway(old_, now, cache, done)
    requires Members(now, g) != [] && r in cache
    ensures Clash(r, Summary(g, Members(now, g))) <==> r.groupUid == g
  {
    var newest := Last(Members(now, g));
    MemberIn(now, g, newest);
    MemberIn(old_, g, newest);
    if r.groupUid == g {
      assert newest.serviceId == r.serviceId;
    } else {
      CachedIdIsMember(if RowAgrees(now, r) then now else old_, r);
      var e :| e in old_ && e.groupUid == Some(r.groupUid) && e.id == r.eventId;
      if e.id == newest.id { SameIdSameEvent(old_, e, newest); }
    }
  }

  lemma SummaryAgrees(old_: seq<Event>, now: seq<Event>, cache: seq<CacheRow>, done: seq<string>, g: string)
    requires SubTable(now, old_) && Halfway(old_, now, cache, done)
    requires Members(now, g) != []
    ensures RowAgrees(now, Summary(g, Members(now, g)))
  {
    var m := Members(now, g);
    MemberIn(now, g, Last(m));
    RowIn(cache, g);
    var r :| r in cache && r.groupUid == g;
    forall e | e in m ensures e.serviceId == r.serviceId {
      MemberIn(now, g, e);
      MemberIn(old_, g, e);
    }
  }

  lemma RebuildOne(old_: seq<Event>, now: seq<Event>, cache: seq<CacheRow>, done: seq<string>, g: string)
    requires Keyed(old_) && SubTable(now, old_) && Halfway(old_, now, cache, done)
    requires Members(now, g) != []
    ensures Halfway(old_, now, InsertOrReplace(cache, Summary(g, Members(now, g))), done + [g])
  {
    var row := Summary(g, Members(now, g));
    var kept := Filter(cache, NoClash(row));
    SummaryAgrees(old_, now, cache, done, g);
    forall r ensures r in kept <==> r in cache && r.groupUid != g {
      FilterIn(cache, NoClash(row), r);
      if r in cache { ReplacesOwnRow(old_, now, cache, done, g, r); }
    }
    FilterPairwise(cache, NoClash(row), OtherGroup());
    forall e | e in now && e.groupUid.Some? ensures HasRow(kept + [row], e.groupUid.value) {
      RowIn(cache, e.groupUid.value);
      RowIn(kept + [row], e.groupUid.value);
      var r :| r in cache && r.groupUid == e.groupUid.value;
      assert r in kept || row.groupUid == e.groupUid.value;
      assert row in kept + [row];
    }
  }

  lemma {:induction false} RebuildHalfway(old_: seq<Event>, now: seq<Event>, cache: seq<CacheRow>, uids: seq<string>)
    requires Keyed(old_) && SubTable(now, old_) && Halfway(old_, now, cache, [])
    ensures Halfway(old_, now, Rebuild(now, cache, uids), uids)
  {
    if uids != [] {
      var init := uids[..|uids| - 1];
      RebuildHalfway(old_, now, cache, init);
      assert uids == init + [Last(uids)];
      if Members(now, Last(uids)) != [] {
        RebuildOne(old_, now, Rebuild(now, cache, init), init, Last(uids));
      }
    }
  }

  /** Rebuilding every group that lost an event, then dropping rows of empty groups, restores agreement. */
  lemma {:induction false} RebuildRestoresAgreement(old_: seq<Event>, now: seq<Event>, cache: seq<CacheRow>,
      uids: seq<string>) returns (after: seq<CacheRow>)
    requires Keyed(old_) && SubTable(now, old_) && Agrees(old_, cache)
    requires forall g | g !in uids :: Members(now, g) == Members(old_, g)
    ensures after == Cleanup(now, Rebuild(now, cache, uids)) && Agrees(now, after)
  {
    var rebuilt := Rebuild(now, cache, uids);
    after := Cleanup(now, rebuilt);
    RebuildHalfway(old_, now, cache, uids);
    FilterPairwise(rebuilt, GroupLives(now), OtherGroup());
    forall r | r in after ensures RowAgrees(now, r) {
      FilterIn(rebuilt, GroupLives(now), r);
      var e :| e in now && e.groupUid == Some(r.groupUid);
      MemberIn(now, r.groupUid, e);
    }
    forall e | e in now && e.groupUid.Some? ensures HasRow(after, e.groupUid.value) {
      RowIn(rebuilt, e.groupUid.value);
      RowIn(after, e.groupUid.value);
      var r :| r in rebuilt && r.groupUid == e.groupUid.value;
      FilterIn(rebuilt, GroupLives(now), r);
    }
  }

  /** A group none of whose events is deleted keeps its members. */
  lemma {:induction false} UntouchedGroup(events: seq<Event>, gone: set<int>, g: string)
    requires forall e | e in events && e.groupUid == Some(g) :: e.id !in gone
    ensures Members(Filter(events, Survives(gone)), g) == Members(events, g)
  {
    FilterCommutes(events, Survives(gone), InGroup(g));
    FilterAll(events, InGroup(g));
    FilterKeepsAll(Members(events, g), Survives(gone));
  }

  /** A group that loses an event loses a member. */
  lemma {:induction false} ShrunkGroup(m: seq<Event>, gone: set<int>)
    requires exists e :: e in m && e.id in gone
    ensures |Filter(m, Survives(gone))| < |m|
  {
    var init := m[..|m| - 1];
    FilterShorter(init, Survives(gone));
    if Last(m).id !in gone {
      var e :| e in m && e.id in gone;
      assert e in init;
      ShrunkGroup(init, gone);
    }
  }

  lemma {:induction false} FilterShorter<T>(s: seq<T>, p: T -> bool)
    ensures |Filter(s, p)| <= |s|
  {
    if s != [] { FilterShorter(s[..|s| - 1], p); }
  }

  lemma DeleteKeepsKeys(db: Db, ids: set<int>)
    requires Keyed(db.events)
    ensures Keyed(DeleteIds(db, ids).events) && SubTable(DeleteIds(db, ids).events, db.events)
  {
    var gone := ids * Ids(db.events);
    FilterPairwise(db.events, Survives(gone), EarlierId());
    FilterAll(db.events, Survives(gone));
  }

  /** Without a rebuild, agreement survives a delete exactly when no deleted event had a group. */
  lemma DeleteAloneAgreesExactly(db: Db, ids: set<int>)
    requires Keyed(db.events) && Agrees(db.events, db.cache)
    ensures Agrees(DeleteIds(db, ids).events, db.cache) <==>
            forall e | e in db.events && e.id in ids :: e.groupUid.None?
  {
    var gone := ids * Ids(db.events);
    var now := DeleteIds(db, ids).events;
    DeleteKeepsKeys(db, ids);
    if e :| e in db.events && e.id in ids && e.groupUid.Some? {
      var g := e.groupUid.value;
      RowIn(db.cache, g);
      var r :| r in db.cache && r.groupUid == g;
      FilterCommutes(db.events, Survives(gone), InGroup(g));
      MemberIn(db.events, g, e);
      assert e in Members(db.events, g) && e.id in gone;
      ShrunkGroup(Members(db.events, g), gone);
      assert RowAgrees(db.events, r) && !RowAgrees(now, r);
    } else {
      forall r | r in db.cache ensures RowAgrees(now, r) {
        UntouchedGroup(db.events, gone, r.groupUid);
      }
    }
  }

  /** delete_by_service: the service's events and its cached rows go together. */
  lemma DeleteServiceKeepsAgreement(db: Db, sid: int, ids: set<int>)
    requires Keyed(db.events) && Agrees(db.events, db.cache)
    requires forall e | e in db.events :: e.id in ids <==> e.serviceId == sid
    ensures Agrees(DeleteIds(db, ids).events, Filter(db.cache, CachedElsewhere(sid)))
  {
    var gone := ids * Ids(db.events);
    var now := DeleteIds(db, ids).events;
    var after := Filter(db.cache, CachedElsewhere(sid));
    FilterAll(db.events, Survives(gone));
    FilterAll(db.cache, CachedElsewhere(sid));
    FilterPairwise(db.cache, CachedElsewhere(sid), OtherGroup());
    forall r | r in after ensures RowAgrees(now, r) {
      forall e | e in db.events && e.groupUid == Some(r.groupUid) ensures e.id !in gone {
        MemberIn(db.events, r.groupUid, e);
      }
      UntouchedGroup(db.events, gone, r.groupUid);
    }
    forall e | e in now && e.groupUid.Some? ensures HasRow(after, e.groupUid.value) {
      RowIn(db.cache, e.groupUid.value);
      RowIn(after, e.groupUid.value);
      var r :| r in db.cache && r.groupUid == e.groupUid.value;
      MemberIn(db.events, r.groupUid, e);
      assert RowAgrees(db.events, r);
      SurvivorIs(db, ids, e);
      assert r in after;
    }
  }

  lemma SurvivorIs(db: Db, ids: set<int>, e: Event)
    ensures e in DeleteIds(db, ids).events <==> e in db.events && e.id !in ids
  {
    FilterIn(db.events, Survives(ids * Ids(db.events)), e);
  }

  /** One turn of delete_by_group_uids: a group's events and its cached row go together. */
  lemma DeleteGroupKeepsAgreement(db: Db, g: string, ids: set<int>)
    requires Keyed(db.events) && Agrees(db.events, db.cache)
    requires forall e | e in db.events :: e.id in ids <==> e.groupUid == Some(g)
    ensures Agrees(DeleteIds(db, ids).events, Filter(db.cache, NotGroup(g)))
  {
    var gone := ids * Ids(db.events);
    var now := DeleteIds(db, ids).events;
    var after := Filter(db.cache, NotGroup(g));
    FilterAll(db.cache, NotGroup(g));
    FilterPairwise(db.cache, NotGroup(g), OtherGroup());
    forall r | r in after ensures RowAgrees(now, r) {
      UntouchedGroup(db.events, gone, r.groupUid);
    }
    forall e | e in now && e.groupUid.Some? ensures HasRow(after, e.groupUid.value) {
      SurvivorIs(db, ids, e);
      RowIn(db.cache, e.groupUid.value);
      RowIn(after, e.groupUid.value);
    }
  }

  /** delete_all never touches GroupCache: agreement survives it exactly when no event had a group. */
  lemma DeleteAllAgreesExactly(db: Db)
    requires Keyed(db.events) && Agrees(db.events, db.cache)
    ensures Agrees(DeleteIds(db, Ids(db.events)).events, db.cache) <==>
            forall e | e in db.events :: e.groupUid.None?
  {
    DeleteAloneAgreesExactly(db, Ids(db.events));
  }

  /** After delete_all ids start again at 1 over the stale cache: the next event of a group is refused exactly
      when the group's stale row has another service, or another group's stale row holds id 1. */
  lemma FirstAddAfterDeleteAll(db: Db, e: Event, g: string)
    requires Keyed(db.events) && Agrees(db.events, db.cache) && e.groupUid == Some(g)
    ensures InsertEvent(DeleteIds(db, Ids(db.events)), e).None? <==>
            exists r :: r in db.cache && CacheAgreement.Blocks(r, g, e.serviceId, 1)
  {
    var db' := DeleteIds(db, Ids(db.events));
    forall x ensures x !in db'.events { SurvivorIs(db, Ids(db.events), x); }
    assert db'.events == [] by { assert |db'.events| > 0 ==> Last(db'.events) in db'.events; }
    forall r | r in db.cache ensures r.eventId != 0 {
      CacheAgreement.CachedIdIsOld(db.events, db.cache, r);
    }
    CacheAgreement.InsertTriggers(db', e, g);
  }
}
