/** What clients see of a log reached by library calls and iterators alone. */
module Reachable {
  import opened Seqs
  import opened Tables
  import opened Groups
  import opened Statements
  import opened Criteria
  import opened Select
  import opened QueryText
  import opened Sessions
  import opened Text
  import Integrity
  import Operations
  import CacheAgreement
  import CacheShape

  /** A database at the end of some course, inside a transaction or not, without delete_all and blind deletes, whose
      group uids have no quotes. */
  ghost predicate Reached(states: seq<Session>, actions: seq<Action>, db: Db) {
    && Course(states, actions) && Last(states).store.db == db
    && forall i :: 0 <= i < |actions| ==> Mild(actions[i])
  }

  lemma ReachedAgrees(states: seq<Session>, actions: seq<Action>, db: Db)
    requires Reached(states, actions, db)
    ensures Integrity.Sound(db) && Agrees(db.events, db.cache)
  {
    EveryCourseIsSound(states, actions);
    EveryCourseAgrees(states, actions);
  }

  /** The schema allows one cached row per service and group; no reachable state, whatever the calls, has two rows of
      one group or a row still waiting for its first event. */
  lemma OneRowPerGroupReached(states: seq<Session>, actions: seq<Action>, db: Db)
    requires Course(states, actions) && Last(states).store.db == db
    ensures CacheAgreement.OneRowPerGroup(db.cache)
  {
    EveryCourseHasOneRowPerGroup(states, actions);
  }

  /** In no reachable state, whatever the calls, does a group mix services; and an insert is refused by the triggers
      exactly by a cached row: one of the group under another service, or one of another group that holds the new id. */
  lemma OneServicePerGroupReached(states: seq<Session>, actions: seq<Action>, db: Db, e: Event)
    requires Course(states, actions) && Last(states).store.db == db
    ensures forall a, b | a in db.events && b in db.events && a.groupUid.Some? && a.groupUid == b.groupUid ::
              a.serviceId == b.serviceId
    ensures InsertEvent(db, e).None? <==>
            e.groupUid.Some? &&
            exists r :: r in db.cache && CacheAgreement.Blocks(r, e.groupUid.value, e.serviceId, NextId(db.events))
  {
    EveryCourseHasOneRowPerGroup(states, actions);
    CacheShape.RefusedExactly(db, e);
    forall a, b | a in db.events && b in db.events && a.groupUid.Some? && a.groupUid == b.groupUid
      ensures a.serviceId == b.serviceId
    {
      CacheShape.OneService(db.events, db.cache, a, b);
    }
  }

  /** An event of the same group under another service. */
  predicate MixesServices(events: seq<Event>, e: Event) {
    exists m :: m in events && e.groupUid.Some? && m.groupUid == e.groupUid && m.serviceId != e.serviceId
  }

  /** A row left behind: of e's group, which has no events, under another service; or of another group, with the next
      id. */
  predicate LeftBehind(db: Db, r: CacheRow, e: Event) {
    if e.groupUid == Some(r.groupUid) then Members(db.events, r.groupUid) == [] && r.serviceId != e.serviceId
    else e.groupUid.Some? && r.eventId == NextId(db.events)
  }

  /** In every reachable state, whatever the calls, a refused insert either mixes services or meets a row left behind,
      and these inserts are all refused. */
  lemma RefusedReached(states: seq<Session>, actions: seq<Action>, db: Db, e: Event)
    requires Course(states, actions) && Last(states).store.db == db
    ensures InsertEvent(db, e).None? <==>
            MixesServices(db.events, e) || exists r :: r in db.cache && LeftBehind(db, r, e)
  {
    EveryCourseHasOneRowPerGroup(states, actions);
    CacheShape.RefusedExactly(db, e);
    if e.groupUid.Some? {
      var g := e.groupUid.value;
      if m :| m in db.events && m.groupUid == e.groupUid && m.serviceId != e.serviceId {
        var r :| r in db.cache && m.groupUid == Some(r.groupUid) && r.serviceId == m.serviceId;
        assert CacheAgreement.Blocks(r, g, e.serviceId, NextId(db.events));
      }
      forall r | r in db.cache && CacheAgreement.Blocks(r, g, e.serviceId, NextId(db.events))
        ensures MixesServices(db.events, e) || LeftBehind(db, r, e)
      {
        var m := Members(db.events, g);
        if r.groupUid == g && m != [] {
          MemberIn(db.events, g, Last(m));
          var q :| q in db.cache && Last(m).groupUid == Some(q.groupUid) && q.serviceId == Last(m).serviceId;
          CacheShape.OnlyRow(db.cache, q, r);
        }
      }
      forall r | r in db.cache && LeftBehind(db, r, e) ensures CacheAgreement.Blocks(r, g, e.serviceId,
          NextId(db.events)) {
      }
    }
  }

  /** Without delete_all and blind deletes the cached rows point at events of their own groups, and an insert is refused
      exactly when it would mix services. */
  lemma OnlyMixingRefused(states: seq<Session>, actions: seq<Action>, db: Db, e: Event)
    requires Reached(states, actions, db)
    ensures forall r | r in db.cache ::
              exists x :: x in db.events && x.id == r.eventId && x.groupUid == Some(r.groupUid)
    ensures InsertEvent(db, e).None? <==> MixesServices(db.events, e)
  {
    ReachedAgrees(states, actions, db);
    CacheAgreement.InsertFailsExactly(db, e);
    forall r | r in db.cache ensures exists x :: x in db.events && x.id == r.eventId && x.groupUid == Some(r.groupUid) {
      MemberIn(db.events, r.groupUid, Last(Members(db.events, r.groupUid)));
    }
  }

  /** From criteria to rows: in every reachable state the text compiled for a conversation list, which reads GroupCache,
      gives the rows of the scan over Events for those criteria. */
  lemma {:induction false} ConversationListReached(states: seq<Session>, actions: seq<Action>, db: Db,
                                t: TwoTables, cs: seq<Criterion>, limit: int, offset: int)
    requires Reached(states, actions, db) && t == LibraryTemplate() && AllAccepted(cs)
    ensures var q := ReadSelect(t, SelectText(t, ByGroup, MaybeWhere(cs), limit, offset));
            q.Some? && Run(db, q.value) == ScanGroups(db, Query(ByGroup, ToPreds(cs), limit, offset))
  {
    ReachedAgrees(states, actions, db);
    SelectRead(t, ByGroup, cs, limit, offset);
    CacheQueryIsScan(db, Query(ByGroup, ToPreds(cs), limit, offset));
  }

  /** The counts shown for a conversation are those of a scan, to 32 bits. */
  lemma GroupInfoReached(states: seq<Session>, actions: seq<Action>, db: Db, g: string)
    requires Reached(states, actions, db)
    ensures var m := Members(db.events, g);
            Operations.GroupInfo(db, g).0 == Signed32(|m|)
                && Operations.GroupInfo(db, g).1 == Signed32(|m| - ReadSum(m))
  {
    ReachedAgrees(states, actions, db);
    Integrity.GroupInfoIsScan(db, g);
  }

  /** The flags shown for a conversation are the documented OR, to 32 bits, as long as no unset takes a bit away that
      another event of the group carries, and no delete rebuilds a group whose sum differs from its OR. */
  lemma GroupFlagsReached(states: seq<Session>, actions: seq<Action>, db: Db, g: string)
    requires Course(states, actions) && Last(states).store.db == db
    requires forall i :: 0 <= i < |actions| ==> Gentle(states[i], actions[i], states[i + 1], true)
    ensures Operations.GroupInfo(db, g).2 == Signed32(FlagOr(Members(db.events, g)))
  {
    EveryCourseKeepsFlags(states, actions, true);
    forall i | 0 <= i < |actions| ensures Mild(actions[i]) {
      assert Gentle(states[i], actions[i], states[i + 1], true);
    }
    ReachedAgrees(states, actions, db);
    Integrity.GroupInfoIsScan(db, g);
  }
}
