/** Concrete runs that show each departure of the library from its stated intent. */
module Witnesses {
  import opened Seqs
  import opened Tables
  import opened Groups
  import opened Statements
  import opened Bits
  import opened Deletions
  import opened Operations
  import opened Fields
  import opened Criteria
  import opened Select
  import opened Runs
  import CacheAgreement
  import GroupList
  import RemoteKeys

  function Start(): Store {
    Store(EmptyLog([NameRow(1, "S")], [NameRow(1, "T")], []), None)
  }

  /** An event of service S and type T in group g, with the given flags. */
  function InGroupOf(g: string, flags: int): ElEvent {
    ElEvent(Unset, Unset, Unset, Unset, Unset, Unset, Unset, Unset, Set(flags), Unset, Unset,
            Set(Some("l")), Unset, Unset, Unset, Unset, Unset, Unset, Set(Some(g)), Set(Some("S")), Set(Some("T")))
  }

  function RowOf(id: int, g: string, flags: int): Event {
    Event(id, 1, 1, 0, 0, 0, 0, 0, flags, 0, 0, Some("l"), None, None, None, None, Some(g))
  }

  function AddOf(ev: ElEvent): Call {
    Add(ev, 0, [], [])
  }

  /** The precheck of such an event. */
  lemma Accepts(db: Db, g: string, flags: int)
    requires db.services == [NameRow(1, "S")] && db.eventTypes == [NameRow(1, "T")]
    ensures Precheck(db, InGroupOf(g, flags)) == Some(Checked(InGroupOf(g, flags), 1, 1))
  {
    assert |"T"| == 1;
  }

  /** The store after one event of group g. */
  function One(g: string, flags: int): Store {
    Store(Start().db.(events := [RowOf(1, g, flags)], cache := [CacheRow(1, 1, g, 1, 0, flags)]), Some(g))
  }

  lemma {:induction false} OrZero(a: int)
    ensures Or(0, a) == a
  {
    forall k: nat ensures Bit(Or(0, a), k) == Bit(a, k) {
      BitOr(0, a, k);
      BitZero(k);
    }
    SameBits(Or(0, a), a);
  }

  /** A run of these calls ends in this store. */
  ghost predicate Reaches(calls: seq<Call>, t: Store) {
    exists states :: Runs.Run(states, calls) && Last(states) == t
  }

  lemma Begins()
    ensures Reaches([], Start())
  {
    assert Runs.Run([Start()], []);
  }

  lemma Goes(calls: seq<Call>, s: Store, c: Call, t: Store)
    requires Reaches(calls, s) && Step(s, c, t)
    ensures Reaches(calls + [c], t)
  {
    var states :| Runs.Run(states, calls) && Last(states) == s;
    assert Runs.Run(states + [t], calls + [c]);
  }

  /** A run that goes on with such an add. */
  lemma Adds(calls: seq<Call>, s: Store, g: string, flags: int, id: int, cache: seq<CacheRow>, t: Store)
    requires Reaches(calls, s)
    requires s.db.services == [NameRow(1, "S")] && s.db.eventTypes == [NameRow(1, "T")] && id == NextId(s.db.events)
    requires t == Store(s.db.(events := s.db.events + [RowOf(id, g, flags)], cache := cache), Some(g))
    requires InsertEvent(s.db, RowOf(0, g, flags)) == Some(t.db)
    ensures Reaches(calls + [AddOf(InGroupOf(g, flags))], t)
  {
    Accepts(s.db, g, flags);
    assert Step(s, AddOf(InGroupOf(g, flags)), t);
    Goes(calls, s, AddOf(InGroupOf(g, flags)), t);
  }

  lemma FirstAdd(g: string, flags: int)
    ensures Reaches([AddOf(InGroupOf(g, flags))], One(g, flags))
  {
    var zero := CacheRow(0, 1, g, 0, 0, 0);
    var row := RowOf(1, g, flags);
    OrZero(flags);
    assert InsertOrIgnore([], zero) == [zero];
    CacheAgreement.BumpOne([zero], 0, 0, g, row);
    assert [zero][0 := Bumped(zero, row)] == [CacheRow(1, 1, g, 1, 0, flags)];
    assert Start().db.events + [row] == One(g, flags).db.events;
    Begins();
    Adds([], Start(), g, flags, 1, One(g, flags).db.cache, One(g, flags));
    assert [] + [AddOf(InGroupOf(g, flags))] == [AddOf(InGroupOf(g, flags))];
  }

  lemma OneGone(e: Event)
    ensures Filter([e], Survives({e.id} * Ids([e]))) == []
  {
    assert e in [e] && [e][..0] == [];
  }

  /** One grouped event, and delete_all: the cached row stays. */
  function Stale(g: string): Store {
    Store(One(g, 0).db.(events := []), Some(g))
  }

  lemma StaleRun(g: string)
    ensures Reaches([AddOf(InGroupOf(g, 0)), DeleteAll], Stale(g))
  {
    FirstAdd(g, 0);
    var e := RowOf(1, g, 0);
    var db := One(g, 0).db;
    OneGone(e);
    assert db.events == [e] && Ids([e]) == {1} by { assert [e][0] in [e]; }
    assert DeleteIds(db, Ids(db.events)).events == [];
    assert DeleteIds(db, Ids(db.events)) == Stale(g).db;
    Goes([AddOf(InGroupOf(g, 0))], One(g, 0), DeleteAll, Stale(g));
    assert [AddOf(InGroupOf(g, 0))] + [DeleteAll] == [AddOf(InGroupOf(g, 0)), DeleteAll];
  }

  /** Agreement is broken after delete_all. */
  lemma AgreementBroken()
    ensures Reaches([AddOf(InGroupOf("g", 0)), DeleteAll], Stale("g"))
    ensures !Agrees(Stale("g").db.events, Stale("g").db.cache)
  {
    StaleRun("g");
    var r := CacheRow(1, 1, "g", 1, 0, 0);
    assert Stale("g").db.cache[0] == r && Members(Stale("g").db.events, "g") == [];
    assert !RowAgrees(Stale("g").db.events, r);
  }

  /** After delete_all an event of another group is refused: its id is 1 again, and a stale row holds it. */
  lemma AddRefused()
    ensures Reaches([AddOf(InGroupOf("g", 0)), DeleteAll], Stale("g"))
    ensures Precheck(Stale("g").db, InGroupOf("h", 0)).Some?
    ensures AddCore(Stale("g").db, Precheck(Stale("g").db, InGroupOf("h", 0)).value, 0, Some("h")) == None
  {
    StaleRun("g");
    var db := Stale("g").db;
    Accepts(db, "h", 0);
    var r := CacheRow(1, 1, "g", 1, 0, 0);
    assert db.cache[0] == r && CacheAgreement.Blocks(r, "h", 1, 1);
    CacheAgreement.InsertTriggers(db, NewRow(Checked(InGroupOf("h", 0), 1, 1), 0, Some("h")), "h");
  }

  /** An add to the group of the only cached row. */
  lemma NextAdd(calls: seq<Call>, s: Store, flags: int, r: CacheRow, id: int, t: Store)
    requires Reaches(calls, s)
    requires s.db.services == [NameRow(1, "S")] && s.db.eventTypes == [NameRow(1, "T")] && id == NextId(s.db.events)
    requires s.db.cache == [r] && r.groupUid == "g" && r.serviceId == 1
    requires t == Store(s.db.(events := s.db.events + [RowOf(id, "g", flags)],
             cache := [Bumped(r, RowOf(id, "g", flags))]), Some("g"))
    ensures Reaches(calls + [AddOf(InGroupOf("g", flags))], t)
  {
    var zero := CacheRow(0, 1, "g", 0, 0, 0);
    var row := RowOf(id, "g", flags);
    assert Clash(s.db.cache[0], zero);
    CacheAgreement.BumpOne([r], 0, 0, "g", row);
    assert [r][0 := Bumped(r, row)] == [Bumped(r, row)];
    Adds(calls, s, "g", flags, id, [Bumped(r, row)], t);
  }

  lemma OrOne()
    ensures Or(1, 1) == 1 && Or(1, 0) == 1
  {
  }

  /** One event each of groups a and b. */
  function Both(): Store {
    Store(One("a", 0).db.(events := [RowOf(1, "a", 0), RowOf(2, "b", 0)],
                          cache := [CacheRow(1, 1, "a", 1, 0, 0), CacheRow(2, 1, "b", 1, 0, 0)]), Some("b"))
  }

  /** After delete_all. */
  function BothStale(): Store {
    Store(Both().db.(events := []), Some("b"))
  }

  /** After one more event of group a. */
  function Again(): Store {
    Store(Both().db.(events := [RowOf(1, "a", 0)],
        cache := [CacheRow(1, 1, "a", 2, 0, 0), CacheRow(2, 1, "b", 1, 0, 0)]),
          Some("a"))
  }

  /** An add to a group without a row. */
  lemma AddsFresh(calls: seq<Call>, s: Store, g: string, id: int, t: Store)
    requires Reaches(calls, s)
    requires s.db.services == [NameRow(1, "S")] && s.db.eventTypes == [NameRow(1, "T")] && id == NextId(s.db.events)
    requires CacheAgreement.OneRowPerGroup(s.db.cache) && !HasRow(s.db.cache, g)
    requires forall r :: r in s.db.cache ==> r.eventId != id
    requires t == Store(s.db.(events := s.db.events + [RowOf(id, g, 0)], cache := s.db.cache +
             [CacheRow(id, 1, g, 1, 0, 0)]),
                        Some(g))
    ensures Reaches(calls + [AddOf(InGroupOf(g, 0))], t)
  {
    OrZero(0);
    CacheAgreement.InsertFresh(s.db, RowOf(0, g, 0), g);
    Adds(calls, s, g, 0, id, t.db.cache, t);
  }

  /** An add to a group whose row, at k, can take the new id. */
  lemma AddsOver(calls: seq<Call>, s: Store, g: string, k: nat, id: int, t: Store)
    requires Reaches(calls, s)
    requires s.db.services == [NameRow(1, "S")] && s.db.eventTypes == [NameRow(1, "T")] && id == NextId(s.db.events)
    requires CacheAgreement.OneRowPerGroup(s.db.cache) && !Taken(s.db.cache, k, id)
    requires k < |s.db.cache| && s.db.cache[k].groupUid == g && s.db.cache[k].serviceId == 1
    requires t == Store(s.db.(events := s.db.events + [RowOf(id, g, 0)],
                              cache := s.db.cache[k := Bumped(s.db.cache[k], RowOf(id, g, 0))]), Some(g))
    ensures Reaches(calls + [AddOf(InGroupOf(g, 0))], t)
  {
    CacheAgreement.InsertOverRow(s.db, RowOf(0, g, 0), g, k);
    Adds(calls, s, g, 0, id, t.db.cache, t);
  }

  function BothCalls(): seq<Call> {
    [AddOf(InGroupOf("a", 0))] + [AddOf(InGroupOf("b", 0))]
  }

  lemma BothRun()
    ensures Reaches(BothCalls(), Both())
  {
    FirstAdd("a", 0);
    var s := One("a", 0);
    assert s.db.events + [RowOf(2, "b", 0)] == Both().db.events;
    assert s.db.cache + [CacheRow(2, 1, "b", 1, 0, 0)] == Both().db.cache;
    AddsFresh([AddOf(InGroupOf("a", 0))], s, "b", 2, Both());
  }

  lemma {:induction false} AllGone(events: seq<Event>)
    ensures Filter(events, Survives(Ids(events) * Ids(events))) == []
  {
    var left := Filter(events, Survives(Ids(events) * Ids(events)));
    FilterAll(events, Survives(Ids(events) * Ids(events)));
    assert |left| > 0 ==> Last(left) in left;
  }

  /** delete_all on a log without headers and attachments. */
  lemma Empties(calls: seq<Call>, s: Store, t: Store)
    requires Reaches(calls, s) && s.db.headers == [] && s.db.attachments == []
    requires t == Store(s.db.(events := []), s.last)
    ensures Reaches(calls + [DeleteAll], t)
  {
    AllGone(s.db.events);
    assert DeleteIds(s.db, Ids(s.db.events)) == t.db;
    Goes(calls, s, DeleteAll, t);
  }

  lemma BothStaleRun()
    ensures Reaches(BothCalls() + [DeleteAll], BothStale())
  {
    BothRun();
    Empties(BothCalls(), Both(), BothStale());
  }

  lemma AgainCache()
    ensures BothStale().db.cache[0 := Bumped(BothStale().db.cache[0], RowOf(1, "a", 0))] == Again().db.cache
  {
    assert Or(0, 0) == 0;
  }

  lemma AgainRun()
    ensures Reaches(BothCalls() + [DeleteAll] + [AddOf(InGroupOf("a", 0))], Again())
  {
    BothStaleRun();
    AgainCache();
    assert BothStale().db.events + [RowOf(1, "a", 0)] == Again().db.events;
    AddsOver(BothCalls() + [DeleteAll], BothStale(), "a", 0, 1, Again());
  }

  /** Nor is the first add after delete_all the only one at risk: one to group a is accepted with id 1, and then one to
      a third group is refused, since the stale row of group b holds id 2. */
  lemma LaterAddRefused()
    ensures Reaches(BothCalls() + [DeleteAll] + [AddOf(InGroupOf("a", 0))], Again())
    ensures Precheck(Again().db, InGroupOf("c", 0)).Some?
    ensures AddCore(Again().db, Precheck(Again().db, InGroupOf("c", 0)).value, 0, Some("c")) == None
  {
    AgainRun();
    var db := Again().db;
    Accepts(db, "c", 0);
    var r := db.cache[1];
    assert r in db.cache && CacheAgreement.Blocks(r, "c", 1, 2);
    CacheAgreement.InsertTriggers(db, NewRow(Checked(InGroupOf("c", 0), 1, 1), 0, Some("c")), "c");
  }

  /** A delete whose lookup failed leaves the row of a group without events. */
  lemma BlindDelete()
    ensures Reaches([AddOf(InGroupOf("g", 0)), DeleteBlind({1})], Stale("g"))
    ensures !Agrees(Stale("g").db.events, Stale("g").db.cache)
  {
    FirstAdd("g", 0);
    AgreementBroken();
    var db := One("g", 0).db;
    OneGone(RowOf(1, "g", 0));
    assert DeleteIds(db, {1}) == Stale("g").db;
    Goes([AddOf(InGroupOf("g", 0))], One("g", 0), DeleteBlind({1}), Stale("g"));
    assert [AddOf(InGroupOf("g", 0))] + [DeleteBlind({1})] == [AddOf(InGroupOf("g", 0)), DeleteBlind({1})];
  }

  /** An event without a group uid of its own. */
  function Ungrouped(): ElEvent {
    InGroupOf("g", 0).(groupUid := Unset)
  }

  function UngroupedRow(id: int): Event {
    RowOf(id, "g", 0).(groupUid := None)
  }

  /** After one such event, added first, and after one of group g behind it. */
  function Loose(): Store {
    Store(Start().db.(events := [UngroupedRow(1)]), None)
  }

  function LooseAndGrouped(): Store {
    Store(Start().db.(events := [UngroupedRow(1), RowOf(2, "g", 0)], cache := [CacheRow(2, 1, "g", 1, 0, 0)]),
        Some("g"))
  }

  lemma LooseRun()
    ensures Reaches([AddOf(Ungrouped())], Loose())
  {
    Begins();
    var c := Checked(Ungrouped(), 1, 1);
    assert |"T"| == 1 && Precheck(Start().db, Ungrouped()) == Some(c);
    assert NewRow(c, 0, None) == UngroupedRow(0);
    assert Start().db.events + [UngroupedRow(1)] == Loose().db.events;
    assert Step(Start(), AddOf(Ungrouped()), Loose());
    Goes([], Start(), AddOf(Ungrouped()), Loose());
    assert [] + [AddOf(Ungrouped())] == [AddOf(Ungrouped())];
  }

  lemma LooseAndGroupedRun()
    ensures Reaches([AddOf(Ungrouped()), AddOf(InGroupOf("g", 0))], LooseAndGrouped())
  {
    LooseRun();
    assert Loose().db.events + [RowOf(2, "g", 0)] == LooseAndGrouped().db.events;
    assert Loose().db.cache + [CacheRow(2, 1, "g", 1, 0, 0)] == LooseAndGrouped().db.cache;
    AddsFresh([AddOf(Ungrouped())], Loose(), "g", 2, LooseAndGrouped());
    assert [AddOf(Ungrouped())] + [AddOf(InGroupOf("g", 0))] == [AddOf(Ungrouped()), AddOf(InGroupOf("g", 0))];
  }

  /** "id" at least 1. */
  function EveryId(): Criterion {
    Criterion(FieldName(Id), VInt(1), GreaterEqual)
  }

  lemma EveryIdCompiles()
    ensures AllAccepted([EveryId()]) && ToPreds([EveryId()]) == [Compare(Id, GreaterEqual, LInt(1))]
  {
    FieldOfName(Id);
    assert [EveryId()][1..] == [];
  }

  lemma EveryIdPasses(ps: seq<Pred>, row: Row)
    requires ps == [Compare(Id, GreaterEqual, LInt(1))] && row.event.id >= 1
    ensures Passes(ps)(row)
  {
    assert ps[1..] == [];
    assert EvalAll(ps, row) == And3(Eval(ps[0], row), Some(true));
  }

  lemma Hit(db: Db, ps: seq<Pred>, e: Event)
    requires UniquePartners(db) && Keyed(db.events) && e in db.events && Known(db, e) && Passes(ps)(TheRow(db, e))
    ensures e.groupUid in HitGroups(db, ps)
  {
    JoinEventsRows(db, db.events);
    FilterIn(JoinEvents(db, db.events), Passes(ps), TheRow(db, e));
    assert TheRow(db, e) in Hits(db, ps);
  }

  lemma GroupsPlain(db: Db, ps: seq<Pred>)
    requires UniquePartners(db) && Keyed(db.events)
    requires forall e | e in db.events && e.groupUid.Some? :: '\'' !in e.groupUid.value
    ensures forall u :: u in HitGroups(db, ps) && u.Some? ==> '\'' !in u.value
  {
    HitGroupsAreGroups(db, ps);
  }

  lemma MixedHits(ps: seq<Pred>)
    requires ps == [Compare(Id, GreaterEqual, LInt(1))]
    ensures Mixed(HitGroups(LooseAndGrouped().db, ps))
    ensures forall u :: u in HitGroups(LooseAndGrouped().db, ps) && u.Some? ==> '\'' !in u.value
  {
    var db := LooseAndGrouped().db;
    var a, b := db.events[0], db.events[1];
    assert a in db.events && b in db.events && Known(db, a) && Known(db, b);
    EveryIdPasses(ps, TheRow(db, a));
    EveryIdPasses(ps, TheRow(db, b));
    Hit(db, ps, a);
    Hit(db, ps, b);
    GroupsPlain(db, ps);
  }

  /** delete_events fails on a list that ends in a comma: the events it selects are of a group and of none. */
  lemma DeleteFails()
    ensures Reaches([AddOf(Ungrouped()), AddOf(InGroupOf("g", 0))], LooseAndGrouped())
    ensures AllAccepted([EveryId()])
    ensures var db, ps := LooseAndGrouped().db, ToPreds([EveryId()]);
            exists li :: IsListing(li, HitGroups(db, ps)) && DeleteAndRebuild(db, HitIds(db, ps), li).None?
  {
    LooseAndGroupedRun();
    EveryIdCompiles();
    var db, ps := LooseAndGrouped().db, ToPreds([EveryId()]);
    MixedHits(ps);
    RebuildSurelyWorksExactly(db, HitIds(db, ps), HitGroups(db, ps));
  }

  /** Two events of group g, each with flag 1. */
  function Two(): Store {
    Store(One("g", 1).db.(events := [RowOf(1, "g", 1), RowOf(2, "g", 1)], cache := [CacheRow(2, 1, "g", 2, 0, 1)]),
        Some("g"))
  }

  function TwoCalls(): seq<Call> {
    [AddOf(InGroupOf("g", 1)), AddOf(InGroupOf("g", 1))]
  }

  lemma TwoRun()
    ensures Reaches(TwoCalls(), Two())
  {
    FirstAdd("g", 1);
    OrOne();
    var ev := AddOf(InGroupOf("g", 1));
    assert One("g", 1).db.events + [RowOf(2, "g", 1)] == Two().db.events;
    NextAdd([ev], One("g", 1), 1, CacheRow(1, 1, "g", 1, 0, 1), 2, Two());
    assert [ev] + [ev] == TwoCalls();
  }

  /** After unset_event_flag on one of them. */
  function Unset1(): Store {
    Store(Two().db.(events := [RowOf(1, "g", 0), RowOf(2, "g", 1)], cache := [CacheRow(2, 1, "g", 2, 0, 0)]), Some("g"))
  }

  lemma FindsFirst(a: Event, b: Event)
    requires a.id == 1 && b.id == 2
    ensures Find([a, b], 1) == Some(0)
  {
    assert [a, b][..1] == [a];
  }

  lemma BitsGone()
    ensures And(1, Not(1)) == 0 && Swap(1, 1, 0) == 0
  {
  }

  lemma UnsetStep()
    ensures UpdateEvent(Two().db, 1, UnsetFlags(1)) == Unset1().db
  {
    var db := Two().db;
    var before, after := RowOf(1, "g", 1), RowOf(1, "g", 0);
    BitsGone();
    FindsFirst(before, RowOf(2, "g", 1));
    assert UnsetFlags(1)(before) == after;
    assert db.events[0 := after] == Unset1().db.events;
    assert TouchCache(db.cache, before, after) == Unset1().db.cache;
  }

  /** unset_event_flag loses the OR: the group still has an event with flag 1, the cached flags are 0. */
  lemma OrLost()
    ensures Reaches(TwoCalls() + [UnsetFlag(1, 1)], Unset1())
    ensures Unset1().db.cache[0].flags == 0 && FlagOr(Members(Unset1().db.events, "g")) == 1
  {
    TwoRun();
    UnsetStep();
    Goes(TwoCalls(), Two(), UnsetFlag(1, 1), Unset1());
    BothMembers(RowOf(1, "g", 0), RowOf(2, "g", 1));
    assert Or(0, 0) == 0;
    OrZero(1);
  }

  lemma BothMembers(a: Event, b: Event)
    requires a.groupUid == Some("g") && b.groupUid == Some("g")
    ensures Members([a, b], "g") == [a, b]
    ensures FlagOr([a, b]) == Or(Or(0, a.flags), b.flags) && FlagSum([a, b]) == a.flags + b.flags
  {
    assert [a, b] == [a] + [b] && [a] == [] + [a];
    MembersPush([a], b, "g");
    MembersPush([], a, "g");
    SumsPush([a], b);
    SumsPush([], a);
  }

  /** A third event of the group, without flags. */
  function Three(): Store {
    Store(Two().db.(events := [RowOf(1, "g", 1), RowOf(2, "g", 1), RowOf(3, "g", 0)],
        cache := [CacheRow(3, 1, "g", 3, 0, 1)]), Some("g"))
  }

  lemma ThreeRun()
    ensures Reaches(TwoCalls() + [AddOf(InGroupOf("g", 0))], Three())
  {
    TwoRun();
    OrOne();
    assert Two().db.events + [RowOf(3, "g", 0)] == Three().db.events;
    NextAdd(TwoCalls(), Two(), 0, CacheRow(2, 1, "g", 2, 0, 1), 3, Three());
  }

  /** Deleting it rebuilds the cached row. */
  function Rebuilt(): Store {
    Store(Two().db.(cache := [CacheRow(2, 1, "g", 2, 0, 2)]), Some("g"))
  }

  lemma TwoSurvive(a: Event, b: Event, c: Event)
    requires a.id == 1 && b.id == 2 && c.id == 3
    ensures Filter([a, b, c], Survives({3} * Ids([a, b, c]))) == [a, b]
  {
    assert [a, b, c][2] == c && c in [a, b, c];
    assert {3} * Ids([a, b, c]) == {3};
    FilterPush([a, b], c, Survives({3}));
    FilterPush([a], b, Survives({3}));
    FilterPush([], a, Survives({3}));
    assert [a, b, c] == [a, b] + [c] && [a, b] == [a] + [b] && [a] == [] + [a];
  }

  lemma GroupOfThird()
    ensures GroupsOfId(Three().db, 3) == {Some("g")}
  {
    assert Three().db.events[2] == RowOf(3, "g", 0);
  }

  lemma OneListed(g: string)
    requires '\'' !in g
    ensures GroupList.ReadRebuild(GroupList.ListText([Some(g)]) + GroupList.RebuildTail()) == Some([g])
  {
    var li := [Some(g)];
    GroupList.RebuildRead(li);
    assert li[1..] == [] && GroupList.NonNull(li) == [g];
  }

  lemma ReplacedAlone(r: CacheRow, summary: CacheRow)
    requires Clash(r, summary)
    ensures InsertOrReplace([r], summary) == [summary]
  {
    FilterPush([], r, NoClash(summary));
    assert [] + [r] == [r] && Filter([r], NoClash(summary)) == [];
  }

  /** Rebuilding the only cached row. */
  lemma {:induction false} RowRebuilt(m: seq<Event>, r: CacheRow, uids: seq<string>, g: string)
    requires uids == [g] && m != [] && Members(m, g) == m && Clash(r, Summary(g, m))
    ensures Rebuild(m, [r], uids) == [Summary(g, m)]
  {
    ReplacedAlone(r, Summary(g, m));
    assert uids[..|uids| - 1] == [] && Last(uids) == g;
    assert Rebuild(m, [r], uids[..|uids| - 1]) == [r];
  }

  lemma RowKept(m: seq<Event>, r: CacheRow, e: Event)
    requires e in m && e.groupUid == Some(r.groupUid)
    ensures Cleanup(m, [r]) == [r]
  {
    FilterKeepsAll([r], GroupLives(m));
  }

  lemma RebuildStep()
    ensures IsListing([Some("g")], GroupsOfId(Three().db, 3))
    ensures DeleteAndRebuild(Three().db, {3}, [Some("g")]) == Some(Rebuilt().db)
  {
    var a, b, c := RowOf(1, "g", 1), RowOf(2, "g", 1), RowOf(3, "g", 0);
    GroupOfThird();
    TwoSurvive(a, b, c);
    BothMembers(a, b);
    OneListed("g");
    RowRebuilt([a, b], CacheRow(3, 1, "g", 3, 0, 1), ["g"], "g");
    assert [a, b][0] == a;
    RowKept([a, b], Summary("g", [a, b]), a);
    TwoSums(a, b);
    var db := DeleteIds(Three().db, {3});
    assert db.headers == [] && db.attachments == [];
    assert db == Three().db.(events := [a, b]);
    assert Summary("g", [a, b]) == CacheRow(2, 1, "g", 2, 0, 2);
    assert UpdateCache(db, [Some("g")]) == Some(Rebuilt().db);
  }

  lemma TwoSums(a: Event, b: Event)
    ensures ReadSum([a, b]) == a.isRead + b.isRead && FlagSum([a, b]) == a.flags + b.flags
  {
    assert [a, b] == [a] + [b] && [a] == [] + [a];
    SumsPush([a], b);
    SumsPush([], a);
  }

  /** SUM is not OR: after deleting a third event, the two left give cached flags 2, which neither of them carries. */
  lemma SumIsNotOr()
    ensures Reaches(TwoCalls() + [AddOf(InGroupOf("g", 0))] + [DeleteEvent(3, [Some("g")])], Rebuilt())
    ensures Rebuilt().db.cache[0].flags == 2 && FlagOr(Members(Rebuilt().db.events, "g")) == 1
  {
    ThreeRun();
    RebuildStep();
    Goes(TwoCalls() + [AddOf(InGroupOf("g", 0))], Three(), DeleteEvent(3, [Some("g")]), Rebuilt());
    BothMembers(RowOf(1, "g", 1), RowOf(2, "g", 1));
    OrOne();
    OrZero(1);
  }

  /** An ungrouped event of remote uid r, with a name or an address book id or neither. */
  function Contacting(name: Field<CString>, abook: Field<CString>): ElEvent {
    ElEvent(Unset, Unset, Unset, Unset, Unset, Unset, Unset, Unset, Unset, Unset, Unset,
            Set(Some("l")), Unset, Set(Some("r")), name, abook, Unset, Unset, Unset, Set(Some("S")), Set(Some("T")))
  }

  function ContactRow(id: int): Event {
    Event(id, 1, 1, 0, 0, 0, 0, 0, 0, 0, 0, Some("l"), None, Some("r"), None, None, None)
  }

  /** The store after n such events, all of the contact named A. */
  function Contacted(events: seq<Event>): Store {
    Store(Start().db.(events := events, remotes := [Remote("l", "r", Some("A"), None)]), None)
  }

  lemma AddsContact(calls: seq<Call>, s: Store, name: Field<CString>, abook: Field<CString>, t: Store)
    requires Reaches(calls, s) && s.last == None && t.last == None
    requires s.db.services == [NameRow(1, "S")] && s.db.eventTypes == [NameRow(1, "T")]
    requires var c := Checked(Contacting(name, abook), 1, 1);
             NewRow(c, 0, None) == ContactRow(0) && AddCore(s.db, c, 0, None) == Some(t.db)
    ensures Reaches(calls + [AddOf(Contacting(name, abook))], t)
  {
    assert |"T"| == 1;
    assert Precheck(s.db, Contacting(name, abook)) == Some(Checked(Contacting(name, abook), 1, 1));
    assert Step(s, AddOf(Contacting(name, abook)), t);
    Goes(calls, s, AddOf(Contacting(name, abook)), t);
  }

  /** An address book id is not stored: it equals the name the contact is known by. */
  lemma AbookLost()
    ensures Reaches([AddOf(Contacting(Set(Some("A")), Unset)), AddOf(Contacting(Unset, Set(Some("A"))))],
                    Contacted([ContactRow(1), ContactRow(2)]))
    ensures Contacted([ContactRow(1), ContactRow(2)]).db.remotes[0].abookUid == None
  {
    var named, booked := Contacting(Set(Some("A")), Unset), Contacting(Unset, Set(Some("A")));
    var one, two := Contacted([ContactRow(1)]), Contacted([ContactRow(1), ContactRow(2)]);
    Begins();
    assert Start().db.events + [ContactRow(1)] == one.db.events
           && Start().db.remotes + one.db.remotes == one.db.remotes;
    assert KnownRemote(Start().db, named) == None;
    assert AddCore(Start().db, Checked(named, 1, 1), 0, None) == Some(one.db);
    AddsContact([], Start(), named.remoteName, named.remoteEbookUid, one);
    assert [] + [AddOf(named)] == [AddOf(named)];
    KnownContact(one.db, booked);
    assert [ContactRow(1)] + [ContactRow(2)] == two.db.events;
    assert AddCore(one.db, Checked(booked, 1, 1), 0, None) == Some(two.db);
    AddsContact([AddOf(named)], one, booked.remoteName, booked.remoteEbookUid, two);
    assert [AddOf(named)] + [AddOf(booked)] == [AddOf(named), AddOf(booked)];
  }

  lemma KnownContact(db: Db, ev: ElEvent)
    requires db.remotes == [Remote("l", "r", Some("A"), None)]
    requires ev.localUid == Set(Some("l")) && ev.remoteUid == Set(Some("r"))
    ensures KnownRemote(db, ev) == Some(db.remotes[0])
  {
    var r := db.remotes[0];
    FilterPush([], r, RemoteIs(Some("l"), Some("r")));
    assert [] + [r] == db.remotes;
  }

  /** Two accounts that grouping by contact cannot tell apart. */
  lemma AccountsConfused()
    ensures !RemoteKeys.TellsApart({"x", "x;y"})
  {
    assert "x" + ";" <= "x;y";
    assert RemoteKeys.Clashing("x", "x;y");
    RemoteKeys.TellsApartExactly({"x", "x;y"});
  }
}
