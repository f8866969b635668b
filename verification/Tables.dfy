/** The tables of the event log.  A table is a sequence of rows in rowid order;
    nullable columns are options. */
module Tables {
  import opened Seqs

  datatype Event = Event(
    id: int, serviceId: int, typeId: int,
    storageTime: int, startTime: int, endTime: int,
    isRead: int, outgoing: int, flags: int,
    bytesSent: int, bytesReceived: int,
    localUid: Option<string>, localName: Option<string>, remoteUid: Option<string>,
    channel: Option<string>, freeText: Option<string>, groupUid: Option<string>)

  datatype CacheRow = CacheRow(
    eventId: int, serviceId: int, groupUid: string,
    total: int, read: int, flags: int)

  datatype Header = Header(eventId: int, name: string, value: string)

  datatype Attachment = Attachment(eventId: int, path: string, desc: Option<string>)

  datatype Remote = Remote(
    localUid: string, remoteUid: string,
    name: Option<string>, abookUid: Option<string>)

  /** A row of Services or EventTypes; a row of Flags, with its value for an id. */
  datatype NameRow = NameRow(id: int, name: string)

  datatype Db = Db(
    services: seq<NameRow>, eventTypes: seq<NameRow>, flagValues: seq<NameRow>,
    events: seq<Event>, cache: seq<CacheRow>,
    headers: seq<Header>, attachments: seq<Attachment>, remotes: seq<Remote>)

  /** An empty log over the given plug-in tables. */
  function EmptyLog(services: seq<NameRow>, eventTypes: seq<NameRow>, flagValues: seq<NameRow>): Db {
    Db(services, eventTypes, flagValues, [], [], [], [], [])
  }

  /** SELECT id FROM t WHERE name = n. */
  function IdOf(t: seq<NameRow>, n: string): Option<int> {
    if t == [] then None else if t[0].name == n then Some(t[0].id) else IdOf(t[1..], n)
  }

  /** SELECT name FROM t WHERE id = k. */
  function NameOf(t: seq<NameRow>, k: int): Option<string> {
    if t == [] then None else if t[0].id == k then Some(t[0].name) else NameOf(t[1..], k)
  }

  /** The id found bears the name asked for; none is found only if no row bears it. */
  lemma {:induction false} IdOfIs(t: seq<NameRow>, n: string)
    ensures IdOf(t, n).Some? ==> NameRow(IdOf(t, n).value, n) in t
    ensures IdOf(t, n).None? <==> forall r :: r in t ==> r.name != n
  {
    if t != [] {
      IdOfIs(t[1..], n);
      assert t == [t[0]] + t[1..];
    }
  }

  /** The other way round, where ids are keys. */
  lemma {:induction false} NameOfIs(t: seq<NameRow>, r: NameRow)
    requires r in t && forall q :: q in t && q.id == r.id ==> q == r
    ensures NameOf(t, r.id) == Some(r.name)
  {
    if t[0] != r {
      assert t == [t[0]] + t[1..];
      assert t[0] in t;
      NameOfIs(t[1..], r);
    }
  }

  function EarlierId(): (Event, Event) -> bool {
    (a: Event, b: Event) => a.id < b.id
  }

  /** id is an INTEGER PRIMARY KEY: rows are kept in ascending id order, from 1. */
  ghost predicate Keyed(events: seq<Event>) {
    Pairwise(events, EarlierId()) && forall e | e in events :: e.id >= 1
  }

  function Ids(events: seq<Event>): set<int> {
    set e | e in events :: e.id
  }

  lemma SameIdSameEvent(events: seq<Event>, a: Event, b: Event)
    requires Keyed(events) && a in events && b in events && a.id == b.id
    ensures a == b
  {
    var i :| 0 <= i < |events| && events[i] == a;
    var j :| 0 <= j < |events| && events[j] == b;
  }

  /** Rowid selection: one more than the largest id, 1 in an empty table. */
  function NextId(events: seq<Event>): int {
    if events == [] then 1 else Last(events).id + 1
  }

  /** Exactly one more than an id in use, if there is one. */
  lemma NextIdFollows(events: seq<Event>)
    ensures if events == [] then NextId(events) == 1 else exists e :: e in events && NextId(events) == e.id + 1
  {
    if events != [] { assert Last(events) in events; }
  }

  lemma NextIdIsNew(events: seq<Event>, e: Event)
    requires Keyed(events) && e in events
    ensures e.id < NextId(events)
  {
    var i :| 0 <= i < |events| && events[i] == e;
    if i < |events| - 1 { assert EarlierId()(events[i], Last(events)); }
  }
}
