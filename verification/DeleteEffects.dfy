/** Which events the deletes take, and what they leave of the others. */
module DeleteEffects {
  import opened Seqs
  import opened Tables
  import opened Statements
  import opened Criteria
  import opened Select
  import opened Operations
  import opened Deletions
  import opened Integrity
  import opened Effects
  import opened Runs
  import DeleteAgreement
  import GroupList

  predicate Deletes(c: Call) {
    c.DeleteEvent? || c.DeleteEvents? || c.DeleteByService? || c.DeleteByGroups? || c.DeleteBlind? || c.DeleteAll?
  }

  /** The call is about event e. */
  predicate Targeted(db: Db, c: Call, e: Event)
    requires Deletes(c)
  {
    match c
    case DeleteEvent(id, _) => e.id == id
    case DeleteEvents(ps, _) => Known(db, e) && Passes(ps)(TheRow(db, e))
    case DeleteByService(sid) => e.serviceId == sid
    case DeleteByGroups(gs) => e.groupUid.Some? && e.groupUid.value in gs
    case DeleteBlind(ids) => e.id in ids
    case DeleteAll => true
  }

  lemma UntouchedThen(a: Db, b: Db, c: Db, e: Event)
    requires Untouched(a, b, e) && Untouched(b, c, e)
    ensures Untouched(a, c, e)
  {
  }

  lemma UntouchedSame(a: Db, b: Db, e: Event)
    requires b == a.(cache := b.cache)
    ensures Untouched(a, b, e)
  {
  }

  /** A DELETE of these ids and a change of the cache. */
  lemma DeleteEffect(db: Db, ids: set<int>, after: Db, e: Event)
    requires after == DeleteIds(db, ids).(cache := after.cache)
    ensures e in after.events <==> e in db.events && e.id !in ids
    ensures e.id !in ids ==> Untouched(db, after, e)
  {
    DeleteAgreement.SurvivorIs(db, ids, e);
    if e.id !in ids {
      SurvivorUntouched(db, ids, e);
      UntouchedSame(DeleteIds(db, ids), after, e);
      UntouchedThen(db, DeleteIds(db, ids), after, e);
    }
  }

  lemma HitIdsExactly(db: Db, ps: seq<Pred>, e: Event)
    requires UniquePartners(db) && Keyed(db.events) && e in db.events
    ensures e.id in HitIds(db, ps) <==> Known(db, e) && Passes(ps)(TheRow(db, e))
  {
    DeleteAgreement.SurvivorIs(db, HitIds(db, ps), e);
    DeletesWhatTheQueryShows(db, ps, e);
    ShownExactly(db, ps, e);
  }

  lemma {:induction false} DeleteGroupsEffect(db: Db, gs: seq<string>, e: Event)
    requires Sound(db) && e in db.events
    ensures var targeted := e.groupUid.Some? && e.groupUid.value in gs;
            && (e in DeleteGroups(db, gs).events <==> !targeted)
            && (!targeted ==> Untouched(db, DeleteGroups(db, gs), e))
  {
    if gs == [] {
      UntouchedSame(db, db, e);
    } else {
      var init, g := gs[..|gs| - 1], Last(gs);
      var before := DeleteGroups(db, init);
      assert gs == init + [g];
      DeleteGroupsEffect(db, init, e);
      DeleteGroupsKeepSound(db, init);
      GroupIdsExact(before, g);
      DeleteEffect(before, GroupIds(before, g), DeleteGroups(db, gs), e);
      if e in before.events && e.groupUid != Some(g) {
        UntouchedThen(db, before, DeleteGroups(db, gs), e);
      }
    }
  }

  lemma UpdateCacheTouchesCache(db: Db, li: seq<GroupList.Uid>)
    ensures UpdateCache(db, li).Some? ==> UpdateCache(db, li).value == db.(cache := UpdateCache(db, li).value.cache)
  {
  }

  /** Every delete takes exactly the events it is about; every other event keeps its headers, its attachments and its
      contact, and shows as it did. */
  lemma StepDeletes(s: Store, c: Call, t: Store, e: Event)
    requires Sound(s.db) && Step(s, c, t) && Deletes(c) && e in s.db.events
    ensures e in t.db.events <==> !Targeted(s.db, c, e)
    ensures e in t.db.events ==> Untouched(s.db, t.db, e)
  {
    match c
    case DeleteEvent(id, li) =>
      UpdateCacheTouchesCache(DeleteIds(s.db, {id}), li);
      DeleteEffect(s.db, {id}, t.db, e);
    case DeleteEvents(ps, li) =>
      UpdateCacheTouchesCache(DeleteIds(s.db, HitIds(s.db, ps)), li);
      HitIdsExactly(s.db, ps, e);
      DeleteEffect(s.db, HitIds(s.db, ps), t.db, e);
    case DeleteByService(sid) =>
      ServiceIdsExact(s.db, sid);
      DeleteEffect(s.db, ServiceIds(s.db, sid), t.db, e);
    case DeleteByGroups(gs) => DeleteGroupsEffect(s.db, gs, e);
    case DeleteBlind(ids) => DeleteEffect(s.db, ids, t.db, e);
    case DeleteAll => DeleteEffect(s.db, Ids(s.db.events), t.db, e);
  }

  /** And no delete adds an event. */
  lemma StepAddsNone(s: Store, c: Call, t: Store, e: Event)
    requires Step(s, c, t) && Deletes(c) && e in t.db.events
    ensures e in s.db.events
  {
    if t.db != s.db { StepEventsOnlyShrink(s, c, t, e); }
  }
}
