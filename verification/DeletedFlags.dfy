/** The flags column of the whole cache after delete_event and delete_events. */
module DeletedFlags {
  import opened Seqs
  import opened Tables
  import opened Groups
  import opened Statements
  import opened Bits
  import opened Flags
  import opened DeleteAgreement
  import opened Deletions
  import opened GroupList

  /** In no rebuilt group does the sum count a bit twice, or the carries cancel. */
  ghost predicate NoCarry(now: seq<Event>, uids: seq<string>) {
    forall g | g in uids :: Carry(Members(now, g)) == 0
  }

  /** A row outside the list is an old row. */
  lemma {:induction false} UnlistedRow(now: seq<Event>, cache: seq<CacheRow>, uids: seq<string>, r: CacheRow)
    requires r in Rebuild(now, cache, uids) && r.groupUid !in uids
    ensures r in cache
  {
    if uids != [] {
      var init, g := uids[..|uids| - 1], Last(uids);
      var before := Rebuild(now, cache, init);
      assert uids == init + [g];
      if Members(now, g) != [] { FilterIn(before, NoClash(Summary(g, Members(now, g))), r); }
      UnlistedRow(now, cache, init, r);
    }
  }

  /** One row after rebuild and cleanup: the OR plus the carries if its group was listed, untouched otherwise. */
  lemma {:induction false} RowAfter(old_: seq<Event>, now: seq<Event>, cache: seq<CacheRow>, uids: seq<string>,
      r: CacheRow)
    requires Keyed(old_) && SubTable(now, old_) && Agrees(old_, cache)
    requires r in Cleanup(now, Rebuild(now, cache, uids))
    ensures if r.groupUid in uids
            then r.flags == FlagOr(Members(now, r.groupUid)) + Carry(Members(now, r.groupUid))
            else r in cache
  {
    if r.groupUid in uids {
      RebuiltFlagsExactly(old_, now, cache, uids, r);
    } else {
      FilterIn(Rebuild(now, cache, uids), GroupLives(now), r);
      UnlistedRow(now, cache, uids, r);
    }
  }

  lemma WithinItself(a: int)
    ensures Within(a, a)
  {
  }

  lemma {:induction false} RebuildFlagsExactly(old_: seq<Event>, now: seq<Event>, cache: seq<CacheRow>,
      uids: seq<string>)
    requires Keyed(old_) && SubTable(now, old_) && Agrees(old_, cache)
    requires forall g | g !in uids :: Members(now, g) == Members(old_, g)
    ensures FlagsExact(old_, cache) ==>
              (FlagsExact(now, Cleanup(now, Rebuild(now, cache, uids))) <==> NoCarry(now, uids))
    ensures FlagsSound(old_, cache) && NoCarry(now, uids) ==> FlagsSound(now, Cleanup(now, Rebuild(now, cache, uids)))
  {
    var after := Cleanup(now, Rebuild(now, cache, uids));
    forall r | r in after
      ensures FlagsSound(old_, cache) && NoCarry(now, uids) ==> Within(r.flags, FlagOr(Members(now, r.groupUid)))
      ensures FlagsExact(old_, cache) ==>
                (r.flags == FlagOr(Members(now, r.groupUid)) <==>
                 r.groupUid in uids ==> Carry(Members(now, r.groupUid)) == 0)
    {
      RowAfter(old_, now, cache, uids, r);
      WithinItself(r.flags);
    }
    var agreeing := RebuildRestoresAgreement(old_, now, cache, uids);
    forall g | g in uids && Members(now, g) != [] ensures exists r :: r in after && r.groupUid == g {
      MemberIn(now, g, Last(Members(now, g)));
      RowIn(after, g);
    }
  }

  /** From exact flags, a delete that lists the groups of the deleted events leaves exact flags if and only if in no
      listed group the sum of the flags left differs from their OR. */
  lemma {:induction false} DeleteFlagsExactly(db: Db, ids: set<int>, li: seq<Uid>)
    requires Keyed(db.events) && Agrees(db.events, db.cache) && QuoteFree(li) && ListsLosers(db, ids, li)
    requires DeleteAndRebuild(db, ids, li).Some?
    ensures var after := DeleteAndRebuild(db, ids, li).value;
            && (FlagsExact(db.events, db.cache) ==>
                  (FlagsExact(after.events, after.cache) <==> NoCarry(after.events, NonNull(li))))
            && (FlagsSound(db.events, db.cache) && NoCarry(after.events, NonNull(li)) ==>
                  FlagsSound(after.events, after.cache))
  {
    var now := DeleteIds(db, ids).events;
    DeleteKeepsKeys(db, ids);
    forall g | g !in NonNull(li) ensures Members(now, g) == Members(db.events, g) {
      NonNullIn(li, g);
      UntouchedGroup(db.events, ids * Ids(db.events), g);
    }
    if li == [] {
      assert forall r | r in db.cache :: Members(now, r.groupUid) == Members(db.events, r.groupUid);
    } else {
      RebuildRead(li);
      RebuildFlagsExactly(db.events, now, db.cache, NonNull(li));
    }
  }
}
