/** Each statement sequence that the library runs keeps GroupCache in agreement with Events. */
module CacheAgreement {
  import opened Seqs
  import opened Tables
  import opened Groups
  import opened Statements

  /** Exactly one row of the group: it takes the id unless another row has it. */
  lemma {:induction false} BumpOne(cache: seq<CacheRow>, i: nat, k: nat, g: string, e: Event)
    requires i <= k < |cache| && cache[k].groupUid == g
    requires forall j :: i <= j < |cache| && j != k ==> cache[j].groupUid != g
    ensures BumpFrom(cache, i, g, e) == if Taken(cache, k, e.id) then None else Some(cache[k := Bumped(cache[k], e)])
    decreases |cache| - i
  {
    if i < k {
      BumpOne(cache, i + 1, k, g, e);
    } else if !Taken(cache, k, e.id) {
      BumpNone(cache[k := Bumped(cache[k], e)], k + 1, g, e);
    }
  }

  lemma {:induction false} BumpNone(cache: seq<CacheRow>, i: nat, g: string, e: Event)
    requires i <= |cache| && forall j :: i <= j < |cache| ==> cache[j].groupUid != g
    ensures BumpFrom(cache, i, g, e) == Some(cache)
    decreases |cache| - i
  {
    if i < |cache| { BumpNone(cache, i + 1, g, e); }
  }

  /** A second row of the group cannot take the id that an earlier row already has. */
  lemma {:induction false} BumpCollides(cache: seq<CacheRow>, i: nat, j: nat, k: nat, g: string, e: Event)
    requires j < i <= k < |cache| && cache[j].eventId == e.id && cache[k].groupUid == g
    ensures BumpFrom(cache, i, g, e).None?
    decreases |cache| - i
  {
    if cache[i].groupUid != g {
      BumpCollides(cache, i + 1, j, k, g, e);
    } else {
      assert Taken(cache, i, e.id);
    }
  }

  lemma {:induction false} BumpTwo(cache: seq<CacheRow>, i: nat, j: nat, k: nat, g: string, e: Event)
    requires i <= j < k < |cache| && cache[j].groupUid == g && cache[k].groupUid == g
    ensures BumpFrom(cache, i, g, e).None?
    decreases |cache| - i
  {
    if i < j && cache[i].groupUid != g {
      BumpTwo(cache, i + 1, j, k, g, e);
    } else if !Taken(cache, i, e.id) {
      BumpCollides(cache[i := Bumped(cache[i], e)], i + 1, i, k, g, e);
    }
  }

  /** The cache after a successful insert into group g: the group's row bumped, or a new one. */
  ghost predicate Recorded(before: seq<CacheRow>, after: seq<CacheRow>, g: string, row: Event) {
    if HasRow(before, g)
    then exists k :: 0 <= k < |before| && before[k].groupUid == g && after == before[k := Bumped(before[k], row)]
    else after == before + [Bumped(CacheRow(0, row.serviceId, g, 0, 0, 0), row)]
  }

  /** Cached ids are ids of events of the row's own group, so they are at least 1 and below the next id. */
  lemma CachedIdIsOld(events: seq<Event>, cache: seq<CacheRow>, r: CacheRow)
    requires Keyed(events) && Agrees(events, cache) && r in cache
    ensures 1 <= r.eventId < NextId(events)
  {
    var newest := Last(Members(events, r.groupUid));
    MemberIn(events, r.groupUid, newest);
    NextIdIsNew(events, newest);
  }

  /** Cached row r keeps an event of group g from taking `id`. */
  predicate Blocks(r: CacheRow, g: string, serviceId: int, id: int) {
    if r.groupUid == g then r.serviceId != serviceId else r.eventId == id
  }

  ghost predicate OneRowPerGroup(cache: seq<CacheRow>) {
    Pairwise(cache, OtherGroup()) && forall r | r in cache :: r.eventId != 0
  }

  /** The insert triggers when the group has a cached row, at k. */
  lemma InsertOverRow(db: Db, e: Event, g: string, k: nat)
    requires OneRowPerGroup(db.cache) && e.groupUid == Some(g)
    requires k < |db.cache| && db.cache[k].groupUid == g
    ensures InsertEvent(db, e).None? <==>
            db.cache[k].serviceId != e.serviceId || Taken(db.cache, k, NextId(db.events))
    ensures InsertEvent(db, e).Some? ==>
              InsertEvent(db, e).value.cache ==
              db.cache[k := Bumped(db.cache[k], e.(id := NextId(db.events)))]
  {
    var cache := db.cache;
    var zero := CacheRow(0, e.serviceId, g, 0, 0, 0);
    var row := e.(id := NextId(db.events));
    forall j | 0 <= j < |cache| && j != k ensures cache[j].groupUid != g && !Clash(cache[j], zero) {
      assert OtherGroup()(cache[if j < k then j else k], cache[if j < k then k else j]);
      assert cache[j] in cache;
    }
    if cache[k].serviceId == e.serviceId {
      assert Clash(cache[k], zero);
      BumpOne(cache, 0, k, g, row);
    } else {
      assert cache[k] in cache && !Clash(cache[k], zero);
      assert InsertOrIgnore(cache, zero) == cache + [zero];
      BumpTwo(cache + [zero], 0, k, |cache|, g, row);
    }
  }

  /** The insert triggers when the group has no cached row. */
  lemma InsertFresh(db: Db, e: Event, g: string)
    requires OneRowPerGroup(db.cache) && e.groupUid == Some(g) && !HasRow(db.cache, g)
    ensures InsertEvent(db, e).None? <==> exists r :: r in db.cache && r.eventId == NextId(db.events)
    ensures InsertEvent(db, e).Some? ==>
              InsertEvent(db, e).value.cache ==
              db.cache + [Bumped(CacheRow(0, e.serviceId, g, 0, 0, 0), e.(id := NextId(db.events)))]
  {
    var cache := db.cache;
    var zero := CacheRow(0, e.serviceId, g, 0, 0, 0);
    var row := e.(id := NextId(db.events));
    assert forall i :: 0 <= i < |cache| ==> cache[i] in cache && !Clash(cache[i], zero);
    assert InsertOrIgnore(cache, zero) == cache + [zero];
    BumpOne(cache + [zero], 0, |cache|, g, row);
    assert (cache + [zero])[|cache| := Bumped(zero, row)] == cache + [Bumped(zero, row)];
    if r :| r in cache && r.eventId == row.id {
      var j :| 0 <= j < |cache| && cache[j] == r;
      assert (cache + [zero])[j].eventId == row.id;
    }
  }

  /** The two insert triggers together, over any cache with one row per group and no row left at id 0: they
      fail when the group is cached under another service, or another group's row holds the new id; else they
      record the event in the group's only row. */
  lemma InsertTriggers(db: Db, e: Event, g: string)
    requires OneRowPerGroup(db.cache) && e.groupUid == Some(g)
    ensures InsertEvent(db, e).None? <==> exists r :: r in db.cache && Blocks(r, g, e.serviceId, NextId(db.events))
    ensures InsertEvent(db, e).Some? ==>
              Recorded(db.cache, InsertEvent(db, e).value.cache, g, e.(id := NextId(db.events)))
  {
    var cache := db.cache;
    var id := NextId(db.events);
    if HasRow(cache, g) {
      var k :| 0 <= k < |cache| && cache[k].groupUid == g;
      InsertOverRow(db, e, g, k);
      if Taken(cache, k, id) {
        var j :| 0 <= j < |cache| && j != k && cache[j].eventId == id;
        assert cache[j] in cache && Blocks(cache[j], g, e.serviceId, id);
      } else if r :| r in cache && Blocks(r, g, e.serviceId, id) {
        var j :| 0 <= j < |cache| && cache[j] == r;
        assert j == k;
      }
      assert cache[k] in cache;
    } else {
      InsertFresh(db, e, g);
      assert forall r | r in cache :: r.groupUid != g;
    }
  }

  /** On an agreeing cache only the service can be in the way. */
  lemma InsertTriggersAgreeing(db: Db, e: Event, g: string)
    requires Keyed(db.events) && Agrees(db.events, db.cache) && e.groupUid == Some(g)
    ensures InsertEvent(db, e).None? <==> exists r :: r in db.cache && r.groupUid == g && r.serviceId != e.serviceId
    ensures InsertEvent(db, e).Some? ==>
              Recorded(db.cache, InsertEvent(db, e).value.cache, g, e.(id := NextId(db.events)))
  {
    forall r | r in db.cache ensures 1 <= r.eventId < NextId(db.events) {
      CachedIdIsOld(db.events, db.cache, r);
    }
    InsertTriggers(db, e, g);
  }

  /** Adding an event fails exactly when its group already holds an event of another service: the second
      cached row for the group collides on UNIQUE event_id. */
  lemma InsertFailsExactly(db: Db, e: Event)
    requires Keyed(db.events) && Agrees(db.events, db.cache)
    ensures InsertEvent(db, e).None? <==>
            exists m :: m in db.events && e.groupUid.Some? && m.groupUid == e.groupUid && m.serviceId != e.serviceId
  {
    if e.groupUid.Some? {
      var g := e.groupUid.value;
      InsertTriggersAgreeing(db, e, g);
      if r :| r in db.cache && r.groupUid == g && r.serviceId != e.serviceId {
        var newest := Last(Members(db.events, g));
        MemberIn(db.events, g, newest);
      } else if m :| m in db.events && m.groupUid == e.groupUid && m.serviceId != e.serviceId {
        var i :| 0 <= i < |db.cache| && db.cache[i].groupUid == g;
        MemberIn(db.events, g, m);
        assert db.cache[i] in db.cache && RowAgrees(db.events, db.cache[i]);
      }
    }
  }

  lemma RowAgreesAfterPush(events: seq<Event>, e: Event, r: CacheRow)
    requires RowAgrees(events, r) && e.groupUid != Some(r.groupUid)
    ensures RowAgrees(events + [e], r)
  {
    MembersPush(events, e, r.groupUid);
  }

  lemma BumpedAgrees(events: seq<Event>, e: Event, r: CacheRow)
    requires e.groupUid == Some(r.groupUid) && e.serviceId == r.serviceId
    requires RowAgrees(events, r) || (Members(events, r.groupUid) == [] && r.total == 0 && r.read == 0)
    ensures RowAgrees(events + [e], Bumped(r, e))
  {
    MembersPush(events, e, r.groupUid);
    SumsPush(Members(events, r.groupUid), e);
  }

  lemma {:induction false} InsertKeepsKeys(db: Db, e: Event)
    requires Keyed(db.events) && InsertEvent(db, e).Some?
    ensures Keyed(InsertEvent(db, e).value.events)
  {
    forall x | x in db.events ensures x.id < NextId(db.events) {
      NextIdIsNew(db.events, x);
    }
    if db.events != [] { assert Last(db.events) in db.events; }
  }

  lemma RecordedRowsAgree(events: seq<Event>, before: seq<CacheRow>, after: seq<CacheRow>, g: string, row: Event,
      i: nat)
    requires Agrees(events, before) && Recorded(before, after, g, row) && row.groupUid == Some(g)
    requires forall r | r in before && r.groupUid == g :: r.serviceId == row.serviceId
    requires i < |after|
    ensures RowAgrees(events + [row], after[i])
  {
    assert i < |before| ==> before[i] in before;
    if after[i].groupUid != g {
      RowAgreesAfterPush(events, row, before[i]);
    } else if i < |before| {
      if k :| 0 <= k < |before| && before[k].groupUid == g && after == before[k := Bumped(before[k], row)] {
        assert k == i;
      }
      BumpedAgrees(events, row, before[i]);
    } else {
      NoRowNoMembers(events, before, g);
      BumpedAgrees(events, row, CacheRow(0, row.serviceId, g, 0, 0, 0));
    }
  }

  lemma RecordedCovers(before: seq<CacheRow>, after: seq<CacheRow>, g: string, row: Event, h: string)
    requires Recorded(before, after, g, row) && (HasRow(before, h) || h == g)
    ensures HasRow(after, h)
  {
    if HasRow(before, h) {
      var i :| 0 <= i < |before| && before[i].groupUid == h;
      assert after[i].groupUid == h;
    } else {
      assert after[|before|].groupUid == h;
    }
  }

  lemma RecordedAgrees(events: seq<Event>, before: seq<CacheRow>, after: seq<CacheRow>, g: string, row: Event)
    requires Agrees(events, before) && Recorded(before, after, g, row) && row.groupUid == Some(g)
    requires forall r | r in before && r.groupUid == g :: r.serviceId == row.serviceId
    ensures Agrees(events + [row], after)
  {
    forall i | 0 <= i < |after| ensures RowAgrees(events + [row], after[i]) {
      RecordedRowsAgree(events, before, after, g, row, i);
    }
    forall x | x in events + [row] && x.groupUid.Some? ensures HasRow(after, x.groupUid.value) {
      RecordedCovers(before, after, g, row, x.groupUid.value);
    }
  }

  lemma InsertKeepsAgreement(db: Db, e: Event)
    requires Keyed(db.events) && Agrees(db.events, db.cache) && InsertEvent(db, e).Some?
    ensures Agrees(InsertEvent(db, e).value.events, InsertEvent(db, e).value.cache)
  {
    var row := e.(id := NextId(db.events));
    match e.groupUid
    case None =>
      forall r | r in db.cache ensures RowAgrees(db.events + [row], r) {
        RowAgreesAfterPush(db.events, row, r);
      }
    case Some(g) =>
      InsertTriggersAgreeing(db, e, g);
      RecordedAgrees(db.events, db.cache, InsertEvent(db, e).value.cache, g, row);
  }

  lemma NoRowNoMembers(events: seq<Event>, cache: seq<CacheRow>, g: string)
    requires Agrees(events, cache) && !HasRow(cache, g)
    ensures Members(events, g) == []
  {
    if Members(events, g) != [] {
      MemberIn(events, g, Last(Members(events, g)));
    }
  }

  /** The assignments of the library's UPDATEs leave an event's id, group and service alone. */
  ghost predicate KeepsPlace(f: Event -> Event) {
    forall e :: f(e).id == e.id && f(e).groupUid == e.groupUid && f(e).serviceId == e.serviceId
  }

  /** Updating one event changes one member of its group and no other group. */
  lemma {:induction false} MembersReplace(events: seq<Event>, i: nat, after: Event, g: string)
    returns (a: seq<Event>, b: seq<Event>)
    requires i < |events| && after.groupUid == events[i].groupUid
    ensures if events[i].groupUid == Some(g)
            then Members(events, g) == a + [events[i]] + b && Members(events[i := after], g) == a + [after] + b
            else Members(events[i := after], g) == Members(events, g)
  {
    var init := events[..|events| - 1];
    var events' := events[i := after];
    if i == |events| - 1 {
      assert events'[..i] == init;
      a, b := Members(init, g), [];
    } else {
      assert events'[..|events| - 1] == init[i := after];
      a, b := MembersReplace(init, i, after, g);
      b := b + if Last(events).groupUid == Some(g) then [Last(events)] else [];
    }
  }

  lemma {:induction false} ReadSumSplit(a: seq<Event>, e: Event, b: seq<Event>)
    ensures ReadSum(a + [e] + b) == ReadSum(a) + e.isRead + ReadSum(b)
  {
    if b == [] {
      assert a + [e] + b == a + [e];
      SumsPush(a, e);
    } else {
      var b' := b[..|b| - 1];
      ReadSumSplit(a, e, b');
      assert a + [e] + b == (a + [e] + b') + [Last(b)];
      SumsPush(a + [e] + b', Last(b));
    }
  }

  lemma TouchedRowAgrees(events: seq<Event>, i: nat, after: Event, r: CacheRow)
    requires i < |events| && RowAgrees(events, r)
    requires after.id == events[i].id && after.groupUid == events[i].groupUid && after.serviceId == events[i].serviceId
    ensures RowAgrees(events[i := after],
                      if after.groupUid.None? then r else Touch(events[i], after, after.groupUid.value)(r))
  {
    var a, b := MembersReplace(events, i, after, r.groupUid);
    if events[i].groupUid == Some(r.groupUid) {
      ReadSumSplit(a, events[i], b);
      ReadSumSplit(a, after, b);
      forall e | e in a + [after] + b ensures e.serviceId == r.serviceId {
        assert events[i] in a + [events[i]] + b;
        assert e != after ==> e in a + [events[i]] + b;
      }
    }
  }

  lemma UpdateKeepsAgreement(db: Db, id: int, f: Event -> Event)
    requires KeepsPlace(f) && Keyed(db.events) && Agrees(db.events, db.cache)
    ensures Keyed(UpdateEvent(db, id, f).events)
    ensures Agrees(UpdateEvent(db, id, f).events, UpdateEvent(db, id, f).cache)
  {
    if Find(db.events, id).Some? {
      var i := Find(db.events, id).value;
      var after := f(db.events[i]);
      var db' := UpdateEvent(db, id, f);
      forall e | e in db'.events ensures e.id >= 1 && (e.groupUid.Some? ==> HasRow(db'.cache, e.groupUid.value)) {
        var before := if e == after then db.events[i] else e;
        assert before in db.events;
        if e.groupUid.Some? {
          var k :| 0 <= k < |db.cache| && db.cache[k].groupUid == e.groupUid.value;
          assert db'.cache[k].groupUid == e.groupUid.value;
        }
      }
      forall k | 0 <= k < |db'.cache| ensures RowAgrees(db'.events, db'.cache[k]) {
        assert db.cache[k] in db.cache;
        TouchedRowAgrees(db.events, i, after, db.cache[k]);
      }
    }
  }
}
