/** Deleting what a WHERE clause selects, and rebuilding the conversations that lost an event. */
module Deletions {
  import opened Seqs
  import opened Tables
  import opened Groups
  import opened Fields
  import opened Criteria
  import opened Select
  import opened Statements
  import opened DeleteAgreement
  import opened GroupList

  /** The rows the five-way join gives for a WHERE clause. */
  function Hits(db: Db, ps: seq<Pred>): seq<Row> {
    Filter(JoinEvents(db, db.events), Passes(ps))
  }

  /** SELECT Events.id. */
  function HitIds(db: Db, ps: seq<Pred>): set<int> {
    set row | row in Hits(db, ps) :: row.event.id
  }

  /** SELECT DISTINCT Events.group_uid, NULL included. */
  function HitGroups(db: Db, ps: seq<Pred>): set<Uid> {
    set row | row in Hits(db, ps) :: row.event.groupUid
  }

  /** SELECT DISTINCT group_uid FROM Events WHERE id = k. */
  function GroupsOfId(db: Db, id: int): set<Uid> {
    set e | e in db.events && e.id == id :: e.groupUid
  }

  /** li lists the set once each, in whatever order DISTINCT produced. */
  predicate IsListing(li: seq<Uid>, groups: set<Uid>) {
    (forall u :: u in li ==> u in groups) && (forall u :: u in groups ==> u in li)
        && forall i, j :: 0 <= i < j < |li| ==> li[i] != li[j]
  }

  lemma {:induction false} ListingExists(groups: set<Uid>) returns (li: seq<Uid>)
    ensures IsListing(li, groups)
  {
    if groups == {} {
      li := [];
    } else {
      var u :| u in groups;
      var rest := ListingExists(groups - {u});
      li := [u] + rest;
    }
  }

  /** update_group_cache after its DELETE: nothing for the empty list; otherwise the statement built from the list, if
      it is well formed, and the cleanup. */
  function UpdateCache(db: Db, li: seq<Uid>): Option<Db> {
    if li == [] then Some(db)
    else
      match ReadRebuild(ListText(li) + RebuildTail())
      case None => None
      case Some(uids) => Some(db.(cache := Cleanup(db.events, Rebuild(db.events, db.cache, uids))))
  }

  function DeleteAndRebuild(db: Db, ids: set<int>, li: seq<Uid>): Option<Db> {
    UpdateCache(DeleteIds(db, ids), li)
  }

  /** A delete fails in update_group_cache exactly when NULL comes last in the list after some group: the list then ends
      in a comma. */
  lemma RebuildFailsExactly(db: Db, ids: set<int>, li: seq<Uid>)
    requires QuoteFree(li)
    ensures DeleteAndRebuild(db, ids, li).None? <==> li != [] && Last(li).None? && exists u :: u in li && u.Some?
  {
    if li != [] { RebuildRead(li); }
  }

  lemma ListingQuoteFree(li: seq<Uid>, groups: set<Uid>)
    requires IsListing(li, groups) && forall u :: u in groups && u.Some? ==> '\'' !in u.value
    ensures QuoteFree(li)
  {
  }

  /** A group and events without one in the same selection. */
  predicate Mixed(groups: set<Uid>) {
    None in groups && exists u :: u in groups && u.Some?
  }

  /** Some listing puts NULL last. */
  lemma NullLast(groups: set<Uid>) returns (li: seq<Uid>)
    requires None in groups
    ensures IsListing(li, groups) && li != [] && Last(li).None?
  {
    var rest := ListingExists(groups - {None});
    li := rest + [None];
    assert forall u :: u in li <==> u in rest || u.None?;
  }

  /** Whatever order DISTINCT produces, a delete gets through update_group_cache if and only if its selection does not
      mix events of a group with events of none. */
  lemma RebuildSurelyWorksExactly(db: Db, ids: set<int>, groups: set<Uid>)
    requires forall u :: u in groups && u.Some? ==> '\'' !in u.value
    ensures (forall li :: IsListing(li, groups) ==> DeleteAndRebuild(db, ids, li).Some?) <==> !Mixed(groups)
  {
    if Mixed(groups) {
      var li := NullLast(groups);
      ListingQuoteFree(li, groups);
      RebuildFailsExactly(db, ids, li);
    } else {
      forall li | IsListing(li, groups) ensures DeleteAndRebuild(db, ids, li).Some? {
        ListingQuoteFree(li, groups);
        RebuildFailsExactly(db, ids, li);
        assert li != [] ==> Last(li) in li;
      }
    }
  }

  /** The selection of delete_event is one event at most, so that delete never fails this way. */
  lemma DeleteEventSurelyWorks(db: Db, id: int, li: seq<Uid>)
    requires Keyed(db.events) && IsListing(li, GroupsOfId(db, id))
    requires forall e | e in db.events && e.groupUid.Some? :: '\'' !in e.groupUid.value
    ensures DeleteAndRebuild(db, {id}, li).Some?
  {
    var groups := GroupsOfId(db, id);
    if Mixed(groups) {
      var u :| u in groups && u.Some?;
      var a :| a in db.events && a.id == id && a.groupUid == None;
      var b :| b in db.events && b.id == id && b.groupUid == u;
      SameIdSameEvent(db.events, a, b);
    }
    RebuildSurelyWorksExactly(db, {id}, groups);
  }

  /** Every group that loses an event is in the list. */
  ghost predicate ListsLosers(db: Db, ids: set<int>, li: seq<Uid>) {
    forall e | e in db.events && e.id in ids :: e.groupUid in li
  }

  /** A delete that lists the groups of the deleted events, and succeeds, keeps cache and events in agreement. */
  lemma DeleteKeepsAgreement(db: Db, ids: set<int>, li: seq<Uid>)
    requires Keyed(db.events) && Agrees(db.events, db.cache) && QuoteFree(li) && ListsLosers(db, ids, li)
    requires DeleteAndRebuild(db, ids, li).Some?
    ensures Agrees(DeleteAndRebuild(db, ids, li).value.events, DeleteAndRebuild(db, ids, li).value.cache)
  {
    var now := DeleteIds(db, ids).events;
    DeleteKeepsKeys(db, ids);
    if li == [] {
      DeleteAloneAgreesExactly(db, ids);
    } else {
      RebuildRead(li);
      forall g | g !in NonNull(li) ensures Members(now, g) == Members(db.events, g) {
        NonNullIn(li, g);
        UntouchedGroup(db.events, ids * Ids(db.events), g);
      }
      var agreeing := RebuildRestoresAgreement(db.events, now, db.cache, NonNull(li));
    }
  }

  /** delete_events selects through the same join for its ids and for its groups, so no loser is missed. */
  lemma HitGroupsListLosers(db: Db, ps: seq<Pred>, li: seq<Uid>)
    requires UniquePartners(db) && Keyed(db.events) && IsListing(li, HitGroups(db, ps))
    ensures ListsLosers(db, HitIds(db, ps), li)
  {
    JoinEventsRows(db, db.events);
    FilterAll(JoinEvents(db, db.events), Passes(ps));
    forall e | e in db.events && e.id in HitIds(db, ps) ensures e.groupUid in li {
      var row :| row in Hits(db, ps) && row.event.id == e.id;
      SameIdSameEvent(db.events, e, row.event);
      assert e.groupUid in HitGroups(db, ps);
    }
  }

  lemma IdGroupsListLosers(db: Db, id: int, li: seq<Uid>)
    requires IsListing(li, GroupsOfId(db, id))
    ensures ListsLosers(db, {id}, li)
  {
    forall e | e in db.events && e.id in {id} ensures e.groupUid in li {
      assert e.groupUid in GroupsOfId(db, id);
    }
  }

  /** What a delete by WHERE removes is what the ungrouped, unlimited query for the same WHERE shows. */
  lemma DeletesWhatTheQueryShows(db: Db, ps: seq<Pred>, e: Event)
    requires UniquePartners(db) && Keyed(db.events) && e in db.events
    ensures e !in DeleteIds(db, HitIds(db, ps)).events <==>
            exists row :: row in Run(db, Query(ByNone, ps, -1, 0)) && row.event == e
  {
    var q := Query(ByNone, ps, -1, 0);
    UngroupedResult(db, q);
    assert Run(db, q) == Ordered(db, q);
    JoinEventsRows(db, db.events);
    FilterAll(JoinEvents(db, db.events), Passes(ps));
    SurvivorIs(db, HitIds(db, ps), e);
    if e.id in HitIds(db, ps) {
      var row :| row in Hits(db, ps) && row.event.id == e.id;
      SameIdSameEvent(db.events, e, row.event);
      assert row in Run(db, q);
    }
  }

  lemma ShownExactly(db: Db, ps: seq<Pred>, e: Event)
    requires UniquePartners(db) && Keyed(db.events) && e in db.events
    ensures (exists row :: row in Run(db, Query(ByNone, ps, -1, 0)) && row.event == e) <==>
            Known(db, e) && Passes(ps)(TheRow(db, e))
  {
    var q := Query(ByNone, ps, -1, 0);
    UngroupedResult(db, q);
    assert Run(db, q) == Ordered(db, q);
    if Known(db, e) && Passes(ps)(TheRow(db, e)) {
      assert TheRow(db, e) in Run(db, q) && TheRow(db, e).event == e;
    }
  }

  /** For criteria without wildcards, compiled and read back: an event is shown exactly when its service and type are
      known and it meets every criterion. */
  lemma {:induction false} QueryShowsExactly(db: Db, cs: seq<Criterion>, e: Event)
    requires UniquePartners(db) && Keyed(db.events) && e in db.events
    requires AllAccepted(cs) && forall i :: 0 <= i < |cs| ==> NoWildcards(cs[i])
    ensures (exists row :: row in Run(db, Query(ByNone, ToPreds(cs), -1, 0)) && row.event == e) <==>
            Known(db, e) && MeetsAll(cs, TheRow(db, e))
  {
    ShownExactly(db, ToPreds(cs), e);
    if Known(db, e) {
      WhereMeans(cs, TheRow(db, e));
    }
  }
}
