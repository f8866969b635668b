/** What a plain scan of Events says about one conversation.  This is the simple
    thing that the GroupCache table must agree with. */
module Groups {
  import opened Seqs
  import opened Tables
  import opened Bits

  function InGroup(g: string): Event -> bool {
    (e: Event) => e.groupUid == Some(g)
  }

  /** The events of group g, oldest first. */
  function Members(events: seq<Event>, g: string): seq<Event> {
    Filter(events, InGroup(g))
  }

  function ReadSum(m: seq<Event>): int {
    if m == [] then 0 else ReadSum(m[..|m| - 1]) + Last(m).isRead
  }

  function FlagOr(m: seq<Event>): int {
    if m == [] then 0 else Or(FlagOr(m[..|m| - 1]), Last(m).flags)
  }

  function FlagSum(m: seq<Event>): int {
    if m == [] then 0 else FlagSum(m[..|m| - 1]) + Last(m).flags
  }

  /** SELECT MAX(id), service_id, group_uid, COUNT(*), SUM(is_read), SUM(flags) over one
      group.  Ids ascend, so the row holding MAX(id) is the last one, and with a single
      MAX the bare service_id is taken from it. */
  function Summary(g: string, m: seq<Event>): CacheRow
    requires m != []
  {
    CacheRow(Last(m).id, Last(m).serviceId, g, |m|, ReadSum(m), FlagSum(m))
  }

  /** Cached row r tells the truth about its group, flags aside: the group has events, they
      all belong to the row's service, and newest id, count and read count are those of
      the scan. */
  ghost predicate RowAgrees(events: seq<Event>, r: CacheRow) {
    var m := Members(events, r.groupUid);
    && m != []
    && (forall e | e in m :: e.serviceId == r.serviceId)
    && r.eventId == Last(m).id
    && r.total == |m|
    && r.read == ReadSum(m)
  }

  predicate HasRow(cache: seq<CacheRow>, g: string) {
    exists i :: 0 <= i < |cache| && cache[i].groupUid == g
  }

  function OtherGroup(): (CacheRow, CacheRow) -> bool {
    (a: CacheRow, b: CacheRow) => a.groupUid != b.groupUid
  }

  /** GroupCache has exactly one row per group that has events, none other, and each row
      agrees with the scan. */
  ghost predicate Agrees(events: seq<Event>, cache: seq<CacheRow>) {
    && Pairwise(cache, OtherGroup())
    && (forall r | r in cache :: RowAgrees(events, r))
    && (forall e | e in events :: e.groupUid.Some? ==> HasRow(cache, e.groupUid.value))
  }

  lemma MembersPush(events: seq<Event>, e: Event, g: string)
    ensures Members(events + [e], g) == Members(events, g) + if e.groupUid == Some(g) then [e] else []
  {
    FilterPush(events, e, InGroup(g));
  }

  lemma MemberIn(events: seq<Event>, g: string, e: Event)
    ensures e in Members(events, g) <==> e in events && e.groupUid == Some(g)
  {
    FilterIn(events, InGroup(g), e);
  }

  lemma {:induction false} SumsPush(m: seq<Event>, e: Event)
    ensures ReadSum(m + [e]) == ReadSum(m) + e.isRead
    ensures FlagOr(m + [e]) == Or(FlagOr(m), e.flags)
    ensures FlagSum(m + [e]) == FlagSum(m) + e.flags
  {
    assert (m + [e])[..|m|] == m;
  }

  /** The last member is the one with the largest id. */
  lemma NewestIsLast(events: seq<Event>, g: string, e: Event)
    requires Keyed(events) && e in Members(events, g)
    ensures e.id <= Last(Members(events, g)).id
  {
    FilterPairwise(events, InGroup(g), EarlierId());
    var m := Members(events, g);
    var i :| 0 <= i < |m| && m[i] == e;
    if i < |m| - 1 { assert EarlierId()(m[i], m[|m| - 1]); }
  }

  /** Agreement pins the cache down: two tables agreeing with the same events hold the same rows,
      flags aside. */
  lemma AgreementIsUnique(events: seq<Event>, a: seq<CacheRow>, b: seq<CacheRow>, r: CacheRow)
    requires Agrees(events, a) && Agrees(events, b) && r in a
    ensures exists r' :: r' in b && r'.(flags := r.flags) == r
  {
    var m := Members(events, r.groupUid);
    MemberIn(events, r.groupUid, Last(m));
    assert HasRow(b, r.groupUid);
    var i :| 0 <= i < |b| && b[i].groupUid == r.groupUid;
    assert b[i] in b && RowAgrees(events, b[i]);
    assert b[i].serviceId == Last(m).serviceId;
    assert b[i].(flags := r.flags) == r;
  }
}
