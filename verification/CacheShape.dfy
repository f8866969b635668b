/** What the cache keeps whatever happens to it, delete_all and failed lookups included: one row per group, under the
    group's only service. */
module CacheShape {
  import opened Seqs
  import opened Tables
  import opened Groups
  import opened Statements
  import opened CacheAgreement
  import opened Deletions
  import DeleteAgreement
  import GroupList

  /** Some row of the cache belongs to the event's group and has its service. */
  predicate Served(cache: seq<CacheRow>, e: Event) {
    exists r :: r in cache && e.groupUid == Some(r.groupUid) && r.serviceId == e.serviceId
  }

  /** Row r does not hold the id of an event of another group. */
  predicate OwnId(r: CacheRow, e: Event) {
    e.groupUid.Some? && e.id == r.eventId ==> e.groupUid == Some(r.groupUid)
  }

  ghost predicate Shaped(events: seq<Event>, cache: seq<CacheRow>) {
    && OneRowPerGroup(cache)
    && (forall e | e in events && e.groupUid.Some? :: Served(cache, e))
    && (forall r, e | r in cache && e in events :: OwnId(r, e))
  }

  lemma OnlyRow(cache: seq<CacheRow>, a: CacheRow, b: CacheRow)
    requires OneRowPerGroup(cache) && a in cache && b in cache && a.groupUid == b.groupUid
    ensures a == b
  {
    var i :| 0 <= i < |cache| && cache[i] == a;
    var j :| 0 <= j < |cache| && cache[j] == b;
  }

  /** Events of one group have one service. */
  lemma OneService(events: seq<Event>, cache: seq<CacheRow>, a: Event, b: Event)
    requires Shaped(events, cache) && a in events && b in events && a.groupUid.Some? && a.groupUid == b.groupUid
    ensures a.serviceId == b.serviceId
  {
    var r :| r in cache && a.groupUid == Some(r.groupUid) && r.serviceId == a.serviceId;
    var q :| q in cache && b.groupUid == Some(q.groupUid) && q.serviceId == b.serviceId;
    OnlyRow(cache, r, q);
  }

  /** A cache whose rows are the old ones, but for one that takes the place of group g's. */
  lemma ReplacedShape(events: seq<Event>, before: seq<CacheRow>, after: seq<CacheRow>, row: CacheRow, now: seq<Event>)
    requires Shaped(events, before) && Pairwise(after, OtherGroup()) && row.eventId != 0
    requires forall r :: r in after <==> r == row || (r in before && r.groupUid != row.groupUid)
    requires forall e | e in now && e.groupUid.Some? ::
               if e.groupUid.value == row.groupUid then e.serviceId == row.serviceId else e in events
    requires forall e | e in now :: OwnId(row, e)
    requires forall r, e | r in before && r.groupUid != row.groupUid && e in now :: OwnId(r, e)
    ensures Shaped(now, after)
  {
    forall e | e in now && e.groupUid.Some? ensures Served(after, e) {
      if e.groupUid.value == row.groupUid {
        assert row in after;
      } else {
        var r :| r in before && e.groupUid == Some(r.groupUid) && r.serviceId == e.serviceId;
        assert r in after;
      }
    }
  }

  /** The rows of a cache in which a group was recorded. */
  lemma RecordedRows(before: seq<CacheRow>, after: seq<CacheRow>, g: string, row: Event) returns (mine: CacheRow)
    requires OneRowPerGroup(before) && Recorded(before, after, g, row)
    requires forall r | r in before && r.groupUid == g :: r.serviceId == row.serviceId
    ensures Pairwise(after, OtherGroup())
    ensures mine.groupUid == g && mine.eventId == row.id && mine.serviceId == row.serviceId
    ensures forall r :: r in after <==> r == mine || (r in before && r.groupUid != g)
  {
    if HasRow(before, g) {
      var k :| 0 <= k < |before| && before[k].groupUid == g && after == before[k := Bumped(before[k], row)];
      mine := after[k];
      assert before[k] in before && mine in after;
      forall i | 0 <= i < |before| && before[i].groupUid != g ensures before[i] in after {
        assert after[i] == before[i];
      }
      forall r ensures r in after <==> r == mine || (r in before && r.groupUid != g) {
        if r in after && r != mine {
          var i :| 0 <= i < |after| && after[i] == r;
          assert before[i] == r && i != k;
        }
      }
    } else {
      mine := Bumped(CacheRow(0, row.serviceId, g, 0, 0, 0), row);
      assert after == before + [mine];
      forall r | r in before ensures r.groupUid != g {
        DeleteAgreement.RowIn(before, g);
      }
    }
  }

  lemma InsertKeepsShape(db: Db, e: Event)
    requires Keyed(db.events) && Shaped(db.events, db.cache) && InsertEvent(db, e).Some?
    ensures Shaped(InsertEvent(db, e).value.events, InsertEvent(db, e).value.cache)
  {
    var row := e.(id := NextId(db.events));
    forall x | x in db.events ensures x.id < row.id {
      NextIdIsNew(db.events, x);
    }
    if e.groupUid.Some? {
      var g := e.groupUid.value;
      InsertTriggers(db, e, g);
      forall r | r in db.cache && r.groupUid == g ensures r.serviceId == row.serviceId {
        assert !Blocks(r, g, e.serviceId, row.id);
      }
      forall r | r in db.cache && r.groupUid != g ensures r.eventId != row.id {
        assert !Blocks(r, g, e.serviceId, row.id);
      }
      var mine := RecordedRows(db.cache, InsertEvent(db, e).value.cache, g, row);
      assert row.id != 0 by { if db.events != [] { assert Last(db.events) in db.events; } }
      forall x | x in db.events && x.groupUid == Some(g) ensures x.serviceId == row.serviceId {
        var r :| r in db.cache && x.groupUid == Some(r.groupUid) && r.serviceId == x.serviceId;
      }
      ReplacedShape(db.events, db.cache, InsertEvent(db, e).value.cache, mine, db.events + [row]);
    }
  }

  lemma UpdateKeepsShape(db: Db, id: int, f: Event -> Event)
    requires KeepsPlace(f) && Shaped(db.events, db.cache)
    ensures Shaped(UpdateEvent(db, id, f).events, UpdateEvent(db, id, f).cache)
  {
    var now := UpdateEvent(db, id, f);
    assert |now.cache| == |db.cache| && |now.events| == |db.events|;
    assert forall k :: 0 <= k < |db.cache| ==>
        && now.cache[k].groupUid == db.cache[k].groupUid && now.cache[k].eventId == db.cache[k].eventId
        && now.cache[k].serviceId == db.cache[k].serviceId;
    assert forall k :: 0 <= k < |db.events| ==>
        && now.events[k].groupUid == db.events[k].groupUid && now.events[k].id == db.events[k].id
        && now.events[k].serviceId == db.events[k].serviceId;
    SamePlaces(db.events, db.cache, now.events, now.cache);
  }

  /** Only ids, groups and services matter. */
  lemma SamePlaces(events: seq<Event>, cache: seq<CacheRow>, events': seq<Event>, cache': seq<CacheRow>)
    requires Shaped(events, cache) && |events'| == |events| && |cache'| == |cache|
    requires forall k :: 0 <= k < |cache| ==>
               && cache'[k].groupUid == cache[k].groupUid && cache'[k].eventId == cache[k].eventId
               && cache'[k].serviceId == cache[k].serviceId
    requires forall k :: 0 <= k < |events| ==>
               && events'[k].groupUid == events[k].groupUid && events'[k].id == events[k].id
               && events'[k].serviceId == events[k].serviceId
    ensures Shaped(events', cache')
  {
    forall i, j | 0 <= i < j < |cache'| ensures OtherGroup()(cache'[i], cache'[j]) {
      assert OtherGroup()(cache[i], cache[j]);
    }
    forall k | 0 <= k < |cache'| ensures cache'[k].eventId != 0 {
      assert cache[k] in cache;
    }
    forall k | 0 <= k < |events'| && events'[k].groupUid.Some? ensures Served(cache', events'[k]) {
      assert events[k] in events && Served(cache, events[k]);
      var r :| r in cache && events[k].groupUid == Some(r.groupUid) && r.serviceId == events[k].serviceId;
      var i :| 0 <= i < |cache| && cache[i] == r;
      assert cache'[i] in cache';
    }
    forall i, k | 0 <= i < |cache'| && 0 <= k < |events'| ensures OwnId(cache'[i], events'[k]) {
      assert cache[i] in cache && events[k] in events && OwnId(cache[i], events[k]);
    }
  }

  /** Deleting events, and with them rows that serve none of the events left. */
  lemma {:induction false} DeleteKeepsShape(events: seq<Event>, cache: seq<CacheRow>, now: seq<Event>,
      keep: CacheRow -> bool)
    requires Shaped(events, cache) && DeleteAgreement.SubTable(now, events)
    requires forall r, e | r in cache && e in now && e.groupUid == Some(r.groupUid)
             && r.serviceId == e.serviceId :: keep(r)
    ensures Shaped(now, Filter(cache, keep))
  {
    var after := Filter(cache, keep);
    FilterAll(cache, keep);
    FilterPairwise(cache, keep, OtherGroup());
    forall e | e in now && e.groupUid.Some? ensures Served(after, e) {
      var r :| r in cache && e.groupUid == Some(r.groupUid) && r.serviceId == e.serviceId;
      assert r in after;
    }
  }

  /** INSERT OR REPLACE of a summary replaces the rows of its own group, even in a stale cache. */
  lemma SummaryReplaces(events: seq<Event>, cache: seq<CacheRow>, g: string, r: CacheRow)
    requires Shaped(events, cache) && Members(events, g) != [] && r in cache
    ensures Clash(r, Summary(g, Members(events, g))) <==> r.groupUid == g
  {
    var newest := Last(Members(events, g));
    MemberIn(events, g, newest);
    assert OwnId(r, newest);
    var q :| q in cache && newest.groupUid == Some(q.groupUid) && q.serviceId == newest.serviceId;
    if r.groupUid == g { OnlyRow(cache, r, q); }
  }

  lemma SummaryKeepsShape(events: seq<Event>, cache: seq<CacheRow>, g: string)
    requires Keyed(events) && Shaped(events, cache) && Members(events, g) != []
    ensures Shaped(events, InsertOrReplace(cache, Summary(g, Members(events, g))))
  {
    var row := Summary(g, Members(events, g));
    var newest := Last(Members(events, g));
    var kept := Filter(cache, NoClash(row));
    MemberIn(events, g, newest);
    forall r ensures r in kept <==> r in cache && r.groupUid != g {
      FilterIn(cache, NoClash(row), r);
      if r in cache { SummaryReplaces(events, cache, g, r); }
    }
    FilterPairwise(cache, NoClash(row), OtherGroup());
    forall e | e in events && e.groupUid == Some(g) ensures e.serviceId == row.serviceId {
      OneService(events, cache, e, newest);
    }
    forall e | e in events ensures OwnId(row, e) {
      if e.id == newest.id { SameIdSameEvent(events, e, newest); }
    }
    ReplacedShape(events, cache, kept + [row], row, events);
  }

  /** Whatever uids the rebuild is given. */
  lemma {:induction false} RebuildKeepsShape(events: seq<Event>, cache: seq<CacheRow>, uids: seq<string>)
    returns (after: seq<CacheRow>)
    requires Keyed(events) && Shaped(events, cache)
    ensures after == Rebuild(events, cache, uids) && Shaped(events, after)
  {
    after := cache;
    if uids != [] {
      after := RebuildKeepsShape(events, cache, uids[..|uids| - 1]);
      if Members(events, Last(uids)) != [] {
        SummaryKeepsShape(events, after, Last(uids));
        after := InsertOrReplace(after, Summary(Last(uids), Members(events, Last(uids))));
      }
    }
  }

  lemma UpdateCacheKeepsShape(db: Db, li: seq<GroupList.Uid>)
    requires Keyed(db.events) && Shaped(db.events, db.cache) && UpdateCache(db, li).Some?
    ensures Shaped(db.events, UpdateCache(db, li).value.cache) && UpdateCache(db, li).value.events == db.events
  {
    if li != [] {
      var uids := GroupList.ReadRebuild(GroupList.ListText(li) + GroupList.RebuildTail()).value;
      var rebuilt := RebuildKeepsShape(db.events, db.cache, uids);
      DeleteKeepsShape(db.events, rebuilt, db.events, GroupLives(db.events));
    }
  }

  lemma DeletedKeepsShape(db: Db, ids: set<int>)
    requires Keyed(db.events) && Shaped(db.events, db.cache)
    ensures Shaped(DeleteIds(db, ids).events, db.cache)
  {
    DeleteAgreement.DeleteKeepsKeys(db, ids);
  }

  lemma DeleteAndRebuildKeepsShape(db: Db, ids: set<int>, li: seq<GroupList.Uid>)
    requires Keyed(db.events) && Shaped(db.events, db.cache) && DeleteAndRebuild(db, ids, li).Some?
    ensures Shaped(DeleteAndRebuild(db, ids, li).value.events, DeleteAndRebuild(db, ids, li).value.cache)
  {
    DeletedKeepsShape(db, ids);
    DeleteAgreement.DeleteKeepsKeys(db, ids);
    UpdateCacheKeepsShape(DeleteIds(db, ids), li);
  }

  /** On a shaped cache an add is refused exactly by a row that blocks it. */
  lemma RefusedExactly(db: Db, e: Event)
    requires Shaped(db.events, db.cache)
    ensures InsertEvent(db, e).None? <==>
            e.groupUid.Some? && exists r :: r in db.cache && Blocks(r, e.groupUid.value, e.serviceId, NextId(db.events))
  {
    if e.groupUid.Some? { InsertTriggers(db, e, e.groupUid.value); }
  }
}
