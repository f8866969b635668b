/** The SQL statements that write the log, with the triggers they fire.  Each is a function on
    the whole database; `None` is a constraint violation, which aborts the statement. */
module Statements {
  import opened Seqs
  import opened Tables
  import opened Groups
  import opened Bits

  /** INSERT OR IGNORE: the row is dropped when it clashes with event_id UNIQUE or with
      UNIQUE(service_id, group_uid). */
  function InsertOrIgnore(cache: seq<CacheRow>, row: CacheRow): seq<CacheRow> {
    if exists i :: 0 <= i < |cache| && Clash(cache[i], row) then cache else cache + [row]
  }

  predicate Clash(a: CacheRow, b: CacheRow) {
    a.eventId == b.eventId || (a.serviceId == b.serviceId && a.groupUid == b.groupUid)
  }

  /** What gc_update_ev_add4 writes over one cached row. */
  function Bumped(r: CacheRow, e: Event): CacheRow {
    r.(eventId := e.id, total := r.total + 1, read := r.read + e.isRead, flags := Or(r.flags, e.flags))
  }

  /** gc_update_ev_add4 from row i on: each row of the group in turn takes the new event's id,
      and UNIQUE(event_id) is checked as each row is written. */
  function BumpFrom(cache: seq<CacheRow>, i: nat, g: string, e: Event): Option<seq<CacheRow>>
    requires i <= |cache|
    decreases |cache| - i
  {
    if i == |cache| then Some(cache)
    else if cache[i].groupUid != g then BumpFrom(cache, i + 1, g, e)
    else if Taken(cache, i, e.id) then None
    else BumpFrom(cache[i := Bumped(cache[i], e)], i + 1, g, e)
  }

  /** Some row other than row i has this event_id. */
  predicate Taken(cache: seq<CacheRow>, i: nat, id: int) {
    exists j :: 0 <= j < |cache| && j != i && cache[j].eventId == id
  }

  /** INSERT INTO Events, with gc_update_ev_add1 before it and gc_update_ev_add4 after it.
      The id in `e` is ignored; the row gets the next rowid. */
  function InsertEvent(db: Db, e: Event): Option<Db> {
    var row := e.(id := NextId(db.events));
    var db' := db.(events := db.events + [row]);
    match e.groupUid
    case None => Some(db')
    case Some(g) =>
      match BumpFrom(InsertOrIgnore(db.cache, CacheRow(0, e.serviceId, g, 0, 0, 0)), 0, g, row)
      case None => None
      case Some(cache) => Some(db'.(cache := cache))
  }

  function Touch(before: Event, after: Event, g: string): CacheRow -> CacheRow {
    (r: CacheRow) =>
      if r.groupUid == g
      then r.(read := r.read - before.isRead + after.isRead, flags := Swap(r.flags, before.flags, after.flags))
      else r
  }

  /** gc_update_ev_update. */
  function TouchCache(cache: seq<CacheRow>, before: Event, after: Event): seq<CacheRow> {
    match after.groupUid
    case None => cache
    case Some(g) => Map(cache, Touch(before, after, g))
  }

  /** The position of event id in the table, if it is there. */
  function Find(events: seq<Event>, id: int): (r: Option<nat>)
    ensures r.Some? ==> r.value < |events| && events[r.value].id == id
    ensures r.None? ==> forall e | e in events :: e.id != id
  {
    if events == [] then None
    else if Last(events).id == id then Some(|events| - 1)
    else Find(events[..|events| - 1], id)
  }

  /** UPDATE Events SET ... WHERE id = id, for an assignment `f` to columns other than id and group_uid. */
  function UpdateEvent(db: Db, id: int, f: Event -> Event): Db {
    match Find(db.events, id)
    case None => db
    case Some(i) =>
      var after := f(db.events[i]);
      db.(events := db.events[i := after], cache := TouchCache(db.cache, db.events[i], after))
  }

  function SetRead(read: int): Event -> Event {
    (e: Event) => e.(isRead := if read == 1 then 1 else 0)
  }

  function SetFlags(v: int): Event -> Event {
    (e: Event) => e.(flags := Or(e.flags, v))
  }

  function UnsetFlags(v: int): Event -> Event {
    (e: Event) => e.(flags := And(e.flags, Not(v)))
  }

  function Survives(gone: set<int>): Event -> bool {
    (e: Event) => e.id !in gone
  }

  function HeaderSurvives(gone: set<int>): Header -> bool {
    (h: Header) => h.eventId !in gone
  }

  function AttachmentSurvives(gone: set<int>): Attachment -> bool {
    (a: Attachment) => a.eventId !in gone
  }

  /** DELETE FROM Events of the rows with these ids; fkd_headers_atts_event_id takes the headers and
      attachments of every deleted row with it.  GroupCache has no trigger for deletes. */
  function DeleteIds(db: Db, ids: set<int>): Db {
    var gone := ids * Ids(db.events);
    db.(events := Filter(db.events, Survives(gone)),
        headers := Filter(db.headers, HeaderSurvives(gone)),
        attachments := Filter(db.attachments, AttachmentSurvives(gone)))
  }

  function NoClash(row: CacheRow): CacheRow -> bool {
    (r: CacheRow) => !Clash(r, row)
  }

  /** INSERT OR REPLACE INTO GroupCache: every row that clashes with the new one goes. */
  function InsertOrReplace(cache: seq<CacheRow>, row: CacheRow): seq<CacheRow> {
    Filter(cache, NoClash(row)) + [row]
  }

  /** INSERT OR REPLACE INTO GroupCache SELECT ... WHERE group_uid IN (uids) GROUP BY group_uid,
      visiting the groups in the order given; a group without events yields no row. */
  function Rebuild(events: seq<Event>, cache: seq<CacheRow>, uids: seq<string>): seq<CacheRow> {
    if uids == [] then cache
    else
      var m := Members(events, Last(uids));
      var before := Rebuild(events, cache, uids[..|uids| - 1]);
      if m == [] then before else InsertOrReplace(before, Summary(Last(uids), m))
  }

  function GroupLives(events: seq<Event>): CacheRow -> bool {
    (r: CacheRow) => exists e :: e in events && e.groupUid == Some(r.groupUid)
  }

  /** DELETE FROM GroupCache WHERE NOT EXISTS (an event of the group). */
  function Cleanup(events: seq<Event>, cache: seq<CacheRow>): seq<CacheRow> {
    Filter(cache, GroupLives(events))
  }

  function CachedElsewhere(serviceId: int): CacheRow -> bool {
    (r: CacheRow) => r.serviceId != serviceId
  }

  function NotGroup(g: string): CacheRow -> bool {
    (r: CacheRow) => r.groupUid != g
  }
}
