/** The flags column of GroupCache.  Its documentation promises the OR of the flags of all events in the
    group; these lemmas say when each write path delivers that. */
module Flags {
  import opened Seqs
  import opened Tables
  import opened Groups
  import opened Statements
  import opened Bits
  import opened CacheAgreement
  import opened DeleteAgreement

  /** No cached bit is without an event that carries it. */
  ghost predicate FlagsSound(events: seq<Event>, cache: seq<CacheRow>) {
    forall r | r in cache :: Within(r.flags, FlagOr(Members(events, r.groupUid)))
  }

  /** The documented promise. */
  ghost predicate FlagsExact(events: seq<Event>, cache: seq<CacheRow>) {
    forall r | r in cache :: r.flags == FlagOr(Members(events, r.groupUid))
  }

  lemma {:induction false} FlagOrBit(m: seq<Event>, k: nat)
    ensures Bit(FlagOr(m), k) <==> exists e :: e in m && Bit(e.flags, k)
  {
    if m == [] {
      BitZero(k);
    } else {
      var init := m[..|m| - 1];
      FlagOrBit(init, k);
      BitOr(FlagOr(init), Last(m).flags, k);
      assert m == init + [Last(m)];
    }
  }

  lemma {:induction false} OrWithin(cached: int, m: seq<Event>, e: Event)
    requires Within(cached, FlagOr(m))
    ensures Within(Or(cached, e.flags), FlagOr(m + [e]))
  {
    SumsPush(m, e);
    forall k: nat ensures Bit(Or(cached, e.flags), k) ==> Bit(FlagOr(m + [e]), k) {
      BitOr(cached, e.flags, k);
      BitOr(FlagOr(m), e.flags, k);
    }
  }

  lemma ZeroWithin(b: int)
    ensures Within(0, b)
  {
    forall k: nat ensures !Bit(0, k) { BitZero(k); }
  }

  /** Row i after an insert is either a row of another group, unchanged, or the group's row with the event's
      flags ORed in. */
  lemma InsertedFlags(events: seq<Event>, before: seq<CacheRow>, after: seq<CacheRow>, g: string, row: Event, i: nat)
    requires Pairwise(before, OtherGroup()) && Recorded(before, after, g, row) && row.groupUid == Some(g) && i < |after|
    ensures after[i].groupUid != g ==> i < |before| && after[i] == before[i]
    ensures after[i].groupUid == g && i < |before| ==>
            after[i].flags == Or(before[i].flags, row.flags) && before[i].groupUid == g
    ensures after[i].groupUid == g && i >= |before| ==> after[i].flags == Or(0, row.flags) && !HasRow(before, g)
    ensures Members(events + [row], after[i].groupUid) ==
            Members(events, after[i].groupUid) + if after[i].groupUid == g then [row] else []
  {
    MembersPush(events, row, after[i].groupUid);
    if HasRow(before, g) {
      var k :| 0 <= k < |before| && before[k].groupUid == g && after == before[k := Bumped(before[k], row)];
      assert before[i].groupUid == g ==> i == k;
    }
  }

  lemma InsertKeepsFlags(db: Db, e: Event)
    requires Keyed(db.events) && Agrees(db.events, db.cache) && InsertEvent(db, e).Some?
    ensures FlagsSound(db.events, db.cache) ==>
              FlagsSound(InsertEvent(db, e).value.events, InsertEvent(db, e).value.cache)
    ensures FlagsExact(db.events, db.cache) ==>
              FlagsExact(InsertEvent(db, e).value.events, InsertEvent(db, e).value.cache)
  {
    var row := e.(id := NextId(db.events));
    if e.groupUid == None {
      forall r | r in db.cache ensures Members(db.events + [row], r.groupUid) == Members(db.events, r.groupUid) {
        MembersPush(db.events, row, r.groupUid);
      }
    } else {
      InsertTriggersAgreeing(db, e, e.groupUid.value);
      RecordedFlags(db.events, db.cache, InsertEvent(db, e).value.cache, e.groupUid.value, row);
    }
  }

  lemma RecordedFlags(events: seq<Event>, before: seq<CacheRow>, after: seq<CacheRow>, g: string, row: Event)
    requires Agrees(events, before) && Recorded(before, after, g, row) && row.groupUid == Some(g)
    ensures FlagsSound(events, before) ==> FlagsSound(events + [row], after)
    ensures FlagsExact(events, before) ==> FlagsExact(events + [row], after)
  {
    forall i | 0 <= i < |after|
      ensures FlagsSound(events, before) ==> Within(after[i].flags, FlagOr(Members(events + [row], after[i].groupUid)))
      ensures FlagsExact(events, before) ==> after[i].flags == FlagOr(Members(events + [row], after[i].groupUid))
    {
      InsertedFlags(events, before, after, g, row, i);
      var m := Members(events, after[i].groupUid);
      assert m + [] == m;
      SumsPush(m, row);
      assert i < |before| ==> before[i] in before;
      if i < |before| {
        if FlagsSound(events, before) { OrWithin(before[i].flags, m, row); }
      } else {
        NoRowNoMembers(events, before, g);
        ZeroWithin(FlagOr(m));
        OrWithin(0, m, row);
      }
    }
  }

  /** Bit k of the updated row and of the updated OR, in terms of the other members. */
  lemma {:induction false} UpdatedBits(a: seq<Event>, before: Event, after: Event, b: seq<Event>, k: nat)
    ensures Bit(FlagOr(a + [before] + b), k) <==> Bit(before.flags, k) || exists e :: e in a + b && Bit(e.flags, k)
    ensures Bit(FlagOr(a + [after] + b), k) <==> Bit(after.flags, k) || exists e :: e in a + b && Bit(e.flags, k)
  {
    FlagOrBit(a + [before] + b, k);
    FlagOrBit(a + [after] + b, k);
    assert forall e :: e in a + [before] + b <==> e in a + b || e == before;
    assert forall e :: e in a + [after] + b <==> e in a + b || e == after;
  }

  /** The update trigger never adds a bit that no event carries. */
  lemma {:induction false} TouchKeepsSound(a: seq<Event>, before: Event, after: Event, b: seq<Event>, cached: int)
    requires Within(cached, FlagOr(a + [before] + b))
    ensures Within(Swap(cached, before.flags, after.flags), FlagOr(a + [after] + b))
  {
    forall k: nat ensures Bit(Swap(cached, before.flags, after.flags), k) ==> Bit(FlagOr(a + [after] + b), k) {
      BitSwap(cached, before.flags, after.flags, k);
      UpdatedBits(a, before, after, b, k);
    }
  }

  /** The bits an update takes away from an event. */
  function Removed(before: Event, after: Event): int {
    And(before.flags, Not(after.flags))
  }

  ghost predicate NoneCarries(others: seq<Event>, bits: int) {
    forall e | e in others :: And(e.flags, bits) == 0
  }

  /** Starting from the exact OR, the update trigger ends at the exact OR exactly when no other event of the group
      carries a removed bit. */
  lemma {:induction false} TouchExactly(a: seq<Event>, before: Event, after: Event, b: seq<Event>)
    ensures Swap(FlagOr(a + [before] + b), before.flags, after.flags) == FlagOr(a + [after] + b) <==>
            NoneCarries(a + b, Removed(before, after))
  {
    var swapped := Swap(FlagOr(a + [before] + b), before.flags, after.flags);
    var exact := FlagOr(a + [after] + b);
    var removed := Removed(before, after);
    if swapped == exact {
      forall e | e in a + b ensures And(e.flags, removed) == 0 {
        forall k: nat ensures Bit(e.flags, k) ==> !Bit(removed, k) {
          BitSwap(FlagOr(a + [before] + b), before.flags, after.flags, k);
          UpdatedBits(a, before, after, b, k);
          BitAnd(before.flags, Not(after.flags), k);
          BitNot(after.flags, k);
        }
        AndZero(e.flags, removed);
      }
    } else if NoneCarries(a + b, removed) {
      forall k: nat ensures Bit(swapped, k) == Bit(exact, k) {
        BitSwap(FlagOr(a + [before] + b), before.flags, after.flags, k);
        UpdatedBits(a, before, after, b, k);
        BitAnd(before.flags, Not(after.flags), k);
        BitNot(after.flags, k);
        if e :| e in a + b && Bit(e.flags, k) { AndZero(e.flags, removed); }
      }
      SameBits(swapped, exact);
    }
  }

  lemma UpdateKeepsSound(db: Db, id: int, f: Event -> Event)
    requires KeepsPlace(f) && FlagsSound(db.events, db.cache)
    ensures FlagsSound(UpdateEvent(db, id, f).events, UpdateEvent(db, id, f).cache)
  {
    if Find(db.events, id).Some? {
      var i := Find(db.events, id).value;
      var after := f(db.events[i]);
      forall k | 0 <= k < |db.cache|
        ensures Within(UpdateEvent(db, id, f).cache[k].flags,
                       FlagOr(Members(db.events[i := after], db.cache[k].groupUid)))
      {
        assert db.cache[k] in db.cache;
        var a, b := MembersReplace(db.events, i, after, db.cache[k].groupUid);
        if db.events[i].groupUid == Some(db.cache[k].groupUid) {
          TouchKeepsSound(a, db.events[i], after, b, db.cache[k].flags);
        }
      }
    }
  }

  /** The other events of event i's group. */
  ghost predicate NoOtherCarries(events: seq<Event>, i: nat, bits: int)
    requires i < |events|
  {
    forall j | 0 <= j < |events| && j != i && events[i].groupUid.Some? && events[j].groupUid == events[i].groupUid ::
      And(events[j].flags, bits) == 0
  }

  /** MembersReplace splits a group around event i; what is left of it is the group's other events. */
  lemma {:induction false} OthersAre(events: seq<Event>, i: nat, after: Event, g: string, bits: int)
      returns (a: seq<Event>, b: seq<Event>)
    requires i < |events| && after.groupUid == events[i].groupUid == Some(g)
    ensures Members(events, g) == a + [events[i]] + b && Members(events[i := after], g) == a + [after] + b
    ensures NoneCarries(a + b, bits) <==> NoOtherCarries(events, i, bits)
  {
    var init := events[..|events| - 1];
    var events' := events[i := after];
    if i == |events| - 1 {
      assert events'[..i] == init;
      a, b := Members(init, g), [];
      assert a + b == a;
      forall j | 0 <= j < i && events[j].groupUid == Some(g) ensures events[j] in a {
        assert events[j] in init;
        MemberIn(init, g, events[j]);
      }
      forall e | e in a ensures exists j :: 0 <= j < i && events[j] == e && e.groupUid == Some(g) {
        MemberIn(init, g, e);
        var j :| 0 <= j < |init| && init[j] == e;
        assert events[j] == e;
      }
    } else {
      assert events'[..|events| - 1] == init[i := after];
      var b';
      a, b' := OthersAre(init, i, after, g, bits);
      var last := if Last(events).groupUid == Some(g) then [Last(events)] else [];
      b := b' + last;
      assert forall e :: e in a + b <==> e in a + b' || e in last;
    }
  }

  /** From an exact cache, an update leaves an exact cache if and only if no other event of the group carries a
      bit that the update removed. */
  lemma {:induction false} UpdateExactly(db: Db, id: int, f: Event -> Event)
    requires KeepsPlace(f) && Agrees(db.events, db.cache) && FlagsExact(db.events, db.cache)
             && Find(db.events, id).Some?
    ensures var i := Find(db.events, id).value;
            FlagsExact(UpdateEvent(db, id, f).events, UpdateEvent(db, id, f).cache) <==>
            NoOtherCarries(db.events, i, Removed(db.events[i], f(db.events[i])))
  {
    var i := Find(db.events, id).value;
    var before, after := db.events[i], f(db.events[i]);
    var now := UpdateEvent(db, id, f);
    if before.groupUid.Some? {
      var g := before.groupUid.value;
      var a, b := OthersAre(db.events, i, after, g, Removed(before, after));
      TouchExactly(a, before, after, b);
      forall k | 0 <= k < |db.cache|
        ensures now.cache[k].flags == FlagOr(Members(now.events, now.cache[k].groupUid)) <==>
                (db.cache[k].groupUid == g ==> NoneCarries(a + b, Removed(before, after)))
      {
        assert db.cache[k] in db.cache;
        var a', b' := MembersReplace(db.events, i, after, db.cache[k].groupUid);
      }
      assert HasRow(db.cache, g) by { assert before in db.events; }
      var k :| 0 <= k < |db.cache| && db.cache[k].groupUid == g;
      assert now.cache[k] in now.cache && now.cache[k].groupUid == g;
    } else {
      forall r | r in db.cache ensures Members(now.events, r.groupUid) == Members(db.events, r.groupUid) {
        var a, b := MembersReplace(db.events, i, after, r.groupUid);
      }
    }
  }

  lemma NothingRemoved(before: Event, after: Event)
    requires Within(before.flags, after.flags)
    ensures Removed(before, after) == 0
  {
    forall k: nat ensures Bit(Removed(before, after), k) == Bit(0, k) {
      BitAnd(before.flags, Not(after.flags), k);
      BitNot(after.flags, k);
      BitZero(k);
    }
    SameBits(Removed(before, after), 0);
  }

  /** Marking read and setting a flag remove no bit, so they keep the cache exact. */
  lemma GrowingUpdateKeepsExact(db: Db, id: int, f: Event -> Event)
    requires KeepsPlace(f) && Agrees(db.events, db.cache) && FlagsExact(db.events, db.cache)
    requires forall e: Event :: Within(e.flags, f(e).flags)
    ensures FlagsExact(UpdateEvent(db, id, f).events, UpdateEvent(db, id, f).cache)
  {
    if Find(db.events, id).Some? {
      var i := Find(db.events, id).value;
      UpdateExactly(db, id, f);
      NothingRemoved(db.events[i], f(db.events[i]));
      forall e: Event ensures And(e.flags, 0) == 0 {
        forall k: nat ensures !Bit(0, k) { BitZero(k); }
        AndZero(e.flags, 0);
      }
    }
  }

  lemma SetFlagsGrows(v: int)
    ensures KeepsPlace(SetFlags(v)) && forall e: Event :: Within(e.flags, SetFlags(v)(e).flags)
  {
    forall e: Event, k: nat ensures Bit(e.flags, k) ==> Bit(Or(e.flags, v), k) {
      BitOr(e.flags, v, k);
    }
  }

  ghost predicate PairwiseDisjoint(m: seq<Event>) {
    forall i, j :: 0 <= i < j < |m| ==> And(m[i].flags, m[j].flags) == 0
  }

  lemma {:induction false} DisjointFromOr(m: seq<Event>, bits: int)
    ensures And(FlagOr(m), bits) == 0 <==> forall e | e in m :: And(e.flags, bits) == 0
  {
    AndZero(FlagOr(m), bits);
    if And(FlagOr(m), bits) == 0 {
      forall e | e in m ensures And(e.flags, bits) == 0 {
        forall k: nat ensures Bit(e.flags, k) ==> !Bit(bits, k) { FlagOrBit(m, k); }
        AndZero(e.flags, bits);
      }
    } else if forall e | e in m :: And(e.flags, bits) == 0 {
      forall k: nat ensures Bit(FlagOr(m), k) ==> !Bit(bits, k) {
        FlagOrBit(m, k);
        if e :| e in m && Bit(e.flags, k) { AndZero(e.flags, bits); }
      }
    }
  }

  lemma {:induction false} DisjointPush(init: seq<Event>, e: Event)
    ensures PairwiseDisjoint(init + [e]) <==> PairwiseDisjoint(init) && And(FlagOr(init), e.flags) == 0
  {
    var m := init + [e];
    DisjointFromOr(init, e.flags);
    if PairwiseDisjoint(m) {
      forall i, j | 0 <= i < j < |init| ensures And(init[i].flags, init[j].flags) == 0 {
        assert m[i] == init[i] && m[j] == init[j];
      }
      forall x | x in init ensures And(x.flags, e.flags) == 0 {
        var i :| 0 <= i < |init| && init[i] == x;
        assert m[i] == x && m[|init|] == e;
      }
    }
    if PairwiseDisjoint(init) && And(FlagOr(init), e.flags) == 0 {
      forall i, j | 0 <= i < j < |m| ensures And(m[i].flags, m[j].flags) == 0 {
        assert m[i] in init;
      }
    }
  }

  /** What a sum counts more than once. */
  function Carry(m: seq<Event>): int {
    if m == [] then 0 else Carry(m[..|m| - 1]) + And(FlagOr(m[..|m| - 1]), Last(m).flags)
  }

  /** The rebuild stores SUM(flags), not the OR.  The sum is the OR plus the bits counted more than once, so for events
      that share no bit it is the OR, whatever the signs; for non-negative flags it is the OR in no other case. */
  lemma {:induction false} SumIsOrExactly(m: seq<Event>)
    ensures FlagSum(m) == FlagOr(m) + Carry(m)
    ensures PairwiseDisjoint(m) ==> FlagSum(m) == FlagOr(m)
    ensures (forall i :: 0 <= i < |m| ==> m[i].flags >= 0) ==>
              FlagSum(m) >= FlagOr(m) >= 0 && (FlagSum(m) == FlagOr(m) <==> PairwiseDisjoint(m))
  {
    if m != [] {
      var init, e := m[..|m| - 1], Last(m);
      assert m == init + [e];
      SumIsOrExactly(init);
      SumIsOrPlusAnd(FlagOr(init), e.flags);
      DisjointPush(init, e);
      if forall i :: 0 <= i < |m| ==> m[i].flags >= 0 {
        assert forall i :: 0 <= i < |init| ==> init[i] == m[i];
        NonNegative(FlagOr(init), e.flags);
      }
    }
  }

  lemma {:induction false} RebuiltFlags(old_: seq<Event>, now: seq<Event>, cache: seq<CacheRow>, uids: seq<string>,
      r: CacheRow)
    requires Keyed(old_) && SubTable(now, old_) && Halfway(old_, now, cache, [])
    requires r in Rebuild(now, cache, uids) && r.groupUid in uids && Members(now, r.groupUid) != []
    ensures r.flags == FlagSum(Members(now, r.groupUid))
  {
    var init, g := uids[..|uids| - 1], Last(uids);
    var before := Rebuild(now, cache, init);
    RebuildHalfway(old_, now, cache, init);
    if Members(now, g) == [] {
      assert r.groupUid in init;
      RebuiltFlags(old_, now, cache, init, r);
    } else {
      var row := Summary(g, Members(now, g));
      if r != row {
        FilterIn(before, NoClash(row), r);
        ReplacesOwnRow(old_, now, before, init, g, r);
        assert r.groupUid in init;
        RebuiltFlags(old_, now, cache, init, r);
      }
    }
  }

  /** A rebuilt row carries the OR of its group's flags, plus what the sum counts more than once: the OR itself when no
      two surviving events of the group share a bit; for groups of non-negative flags, only then. */
  lemma {:induction false} RebuiltFlagsExactly(old_: seq<Event>, now: seq<Event>, cache: seq<CacheRow>,
      uids: seq<string>, r: CacheRow)
    requires Keyed(old_) && SubTable(now, old_) && Agrees(old_, cache)
    requires r in Cleanup(now, Rebuild(now, cache, uids)) && r.groupUid in uids
    ensures var m := Members(now, r.groupUid);
            && r.flags == FlagOr(m) + Carry(m)
            && (PairwiseDisjoint(m) ==> r.flags == FlagOr(m))
            && ((forall e | e in m :: e.flags >= 0) ==> (r.flags == FlagOr(m) <==> PairwiseDisjoint(m)))
  {
    FilterIn(Rebuild(now, cache, uids), GroupLives(now), r);
    var e :| e in now && e.groupUid == Some(r.groupUid);
    MemberIn(now, r.groupUid, e);
    RebuiltFlags(old_, now, cache, uids, r);
    SumIsOrExactly(Members(now, r.groupUid));
  }

  /** Deleting events leaves the flags of every group that lost none. */
  lemma UntouchedKeepFlags(db: Db, ids: set<int>, cache: seq<CacheRow>)
    requires forall r | r in cache :: r in db.cache
    requires forall r, e | r in cache && e in db.events && e.groupUid == Some(r.groupUid) :: e.id !in ids
    ensures FlagsSound(db.events, db.cache) ==> FlagsSound(DeleteIds(db, ids).events, cache)
    ensures FlagsExact(db.events, db.cache) ==> FlagsExact(DeleteIds(db, ids).events, cache)
  {
    forall r | r in cache ensures Members(DeleteIds(db, ids).events, r.groupUid) == Members(db.events, r.groupUid) {
      UntouchedGroup(db.events, ids * Ids(db.events), r.groupUid);
    }
  }
}
