/** What SQLite returns for the SELECT statements that queries compile to. */
module Select {
  import opened Seqs
  import opened Tables
  import opened Groups
  import opened Fields
  import opened Criteria

  /* ---- joins ---- */

  function RemoteMatches(e: Event): Remote -> bool {
    (r: Remote) => e.remoteUid == Some(r.remoteUid) && e.localUid == Some(r.localUid)
  }

  function IsToken(id: int): Header -> bool {
    (h: Header) => h.eventId == id && h.name == "message-token"
  }

  /** A LEFT JOIN keeps a row without partner once, with NULLs. */
  function OrNull<T>(matches: seq<T>): seq<Option<T>> {
    if matches == [] then [None] else Map(matches, (x: T) => Some(x))
  }

  function WithToken(e: Event, service: string, eventType: string, remote: Option<Remote>): Option<Header> -> Row {
    (h: Option<Header>) => Row(e, service, eventType, remote, if h.None? then None else Some(h.value.value))
  }

  /** One row for every pair of partners. */
  function Pairs(e: Event, service: string, eventType: string, rs: seq<Option<Remote>>,
      hs: seq<Option<Header>>): seq<Row> {
    if rs == [] then []
    else Map(hs, WithToken(e, service, eventType, rs[0])) + Pairs(e, service, eventType, rs[1..], hs)
  }

  /** Event e joined with Services on serviceId, EventTypes, and the two LEFT JOINs. */
  function Expand(db: Db, e: Event, serviceId: int): seq<Row> {
    match (NameOf(db.services, serviceId), NameOf(db.eventTypes, e.typeId))
    case (Some(service), Some(eventType)) =>
      Pairs(e, service, eventType,
            OrNull(Filter(db.remotes, RemoteMatches(e))), OrNull(Filter(db.headers, IsToken(e.id))))
    case _ => []
  }

  /** FROM Events JOIN ... */
  function JoinEvents(db: Db, events: seq<Event>): seq<Row> {
    if events == [] then []
    else JoinEvents(db, events[..|events| - 1]) + Expand(db, Last(events), Last(events).serviceId)
  }

  function ExpandEach(db: Db, events: seq<Event>, serviceId: int): seq<Row> {
    if events == [] then []
    else ExpandEach(db, events[..|events| - 1], serviceId) + Expand(db, Last(events), serviceId)
  }

  function HasId(id: int): Event -> bool {
    (e: Event) => e.id == id
  }

  /** FROM GroupCache JOIN Events ON event_id = id JOIN Services ON GroupCache.service_id ... */
  function JoinCache(db: Db, cache: seq<CacheRow>): seq<Row> {
    if cache == [] then []
    else
      JoinCache(db, cache[..|cache| - 1]) +
      ExpandEach(db, Filter(db.events, HasId(Last(cache).eventId)), Last(cache).serviceId)
  }

  /* ---- grouping, order, slice ---- */

  datatype Grouping = ByNone | ByContact | ByUids | ByGroup

  /** unique_remote: 'ab:' and the address book id, or else 'lr:', the local uid, ';' and the remote uid;
      NULL as soon as a part is NULL. */
  function UniqueRemote(row: Row): Option<string> {
    var abook := if row.remote.None? then None else row.remote.value.abookUid;
    match abook
    case Some(a) => Some("ab:" + a)
    case None =>
      match (row.event.localUid, row.event.remoteUid)
      case (Some(l), Some(r)) => Some("lr:" + l + ";" + r)
      case _ => None
  }

  datatype Key = NoKey | ContactKey(k: Option<string>) | UidsKey(pair: Option<(string, string)>)

  /** The GROUP BY key; NULLs are equal to each other. */
  function KeyOf(g: Grouping): Row -> Key {
    (row: Row) =>
      match g
      case ByContact => ContactKey(UniqueRemote(row))
      case ByUids => UidsKey(if row.remote.None? then None else Some((row.remote.value.localUid,
          row.remote.value.remoteUid)))
      case _ => NoKey
  }

  /** One more row joins the groups: it represents its group when it has the larger id. */
  function Absorb(reps: seq<Row>, row: Row, key: Row -> Key): seq<Row> {
    if reps == [] then [row]
    else if key(reps[0]) == key(row) then [if reps[0].event.id < row.event.id then row else reps[0]] + reps[1..]
    else [reps[0]] + Absorb(reps[1..], row, key)
  }

  /** GROUP BY with MAX(Events.id): the other columns come from the row that holds the maximum. */
  function GroupMax(rows: seq<Row>, key: Row -> Key): seq<Row> {
    if rows == [] then [] else Absorb(GroupMax(rows[..|rows| - 1], key), Last(rows), key)
  }

  function InsertDesc(sorted: seq<Row>, row: Row): seq<Row> {
    if sorted == [] || sorted[0].event.id < row.event.id then [row] + sorted
    else [sorted[0]] + InsertDesc(sorted[1..], row)
  }

  /** ORDER BY Events.id DESC. */
  function OrderDesc(rows: seq<Row>): seq<Row> {
    if rows == [] then [] else InsertDesc(OrderDesc(rows[..|rows| - 1]), Last(rows))
  }

  /** LIMIT and OFFSET; a negative limit is no limit. */
  function Slice(rows: seq<Row>, limit: int, offset: int): seq<Row> {
    var rest := if offset <= 0 then rows else if offset >= |rows| then [] else rows[offset..];
    if limit < 0 || limit >= |rest| then rest else rest[..limit]
  }

  /** LIMIT and OFFSET by position: row i of the slice is row offset + i, and there are as many as limit and length
      allow. */
  lemma SliceExactly(rows: seq<Row>, limit: int, offset: int)
    ensures var from_ := if offset < 0 then 0 else offset;
            var left := if from_ < |rows| then |rows| - from_ else 0;
            && |Slice(rows, limit, offset)| == (if 0 <= limit < left then limit else left)
            && forall i :: 0 <= i < |Slice(rows, limit, offset)| ==> Slice(rows, limit, offset)[i] == rows[from_ + i]
  {
  }

  datatype Query = Query(groupBy: Grouping, where_: seq<Pred>, limit: int, offset: int)

  /** The rows passing WHERE, before grouping. */
  function Selected(db: Db, q: Query): seq<Row> {
    Filter(if q.groupBy == ByGroup then JoinCache(db, db.cache) else JoinEvents(db, db.events), Passes(q.where_))
  }

  function Ordered(db: Db, q: Query): seq<Row> {
    OrderDesc(if q.groupBy in {ByContact, ByUids} then GroupMax(Selected(db, q), KeyOf(q.groupBy)) else Selected(db, q))
  }

  /** The result of a compiled query. */
  function Run(db: Db, q: Query): seq<Row> {
    Slice(Ordered(db, q), q.limit, q.offset)
  }

  /* ---- at most one partner ---- */

  function OtherRemote(): (Remote, Remote) -> bool {
    (a: Remote, b: Remote) => a.localUid != b.localUid || a.remoteUid != b.remoteUid
  }

  function OtherHeader(): (Header, Header) -> bool {
    (a: Header, b: Header) => a.eventId != b.eventId || a.name != b.name
  }

  /** UNIQUE(local_uid, remote_uid) and UNIQUE(event_id, name). */
  ghost predicate UniquePartners(db: Db) {
    Pairwise(db.remotes, OtherRemote()) && Pairwise(db.headers, OtherHeader())
  }

  function First<T>(s: seq<T>): Option<T> {
    if s == [] then None else Some(s[0])
  }

  predicate Known(db: Db, e: Event) {
    NameOf(db.services, e.serviceId).Some? && NameOf(db.eventTypes, e.typeId).Some?
  }

  /** The one row of a known event. */
  function TheRow(db: Db, e: Event): Row
    requires Known(db, e)
  {
    var token := First(Filter(db.headers, IsToken(e.id)));
    Row(e, NameOf(db.services, e.serviceId).value, NameOf(db.eventTypes, e.typeId).value,
        First(Filter(db.remotes, RemoteMatches(e))), if token.None? then None else Some(token.value.value))
  }

  /** What the joins put into the one row of an event: the names of its service and type, the contact with its uids, and
      the value of its message token, if there are any. */
  lemma PartnersExactly(db: Db, e: Event)
    requires UniquePartners(db) && Known(db, e)
    ensures var row := TheRow(db, e);
            && row.event == e
            && NameRow(e.serviceId, row.service) in db.services && NameRow(e.typeId, row.eventType) in db.eventTypes
    ensures forall r :: TheRow(db, e).remote == Some(r) <==>
              r in db.remotes && e.localUid == Some(r.localUid) && e.remoteUid == Some(r.remoteUid)
    ensures forall v :: TheRow(db, e).token == Some(v) <==> Header(e.id, "message-token", v) in db.headers
  {
    OnePartner(db, e);
    FilterAll(db.remotes, RemoteMatches(e));
    FilterAll(db.headers, IsToken(e.id));
    var rs, hs := Filter(db.remotes, RemoteMatches(e)), Filter(db.headers, IsToken(e.id));
    assert rs != [] ==> rs[0] in rs;
    assert hs != [] ==> hs[0] in hs;
    NameFound(db.services, e.serviceId);
    NameFound(db.eventTypes, e.typeId);
    forall v ensures TheRow(db, e).token == Some(v) <==> Header(e.id, "message-token", v) in db.headers {
      assert Header(e.id, "message-token", v) in hs <==> Header(e.id, "message-token", v) in db.headers;
    }
  }

  /** The field message-token of an event is the value of its message-token header. */
  lemma TokenShown(db: Db, e: Event, v: string)
    requires UniquePartners(db) && Known(db, e)
    ensures Value(TheRow(db, e), MessageToken) == Text(v) <==> Header(e.id, "message-token", v) in db.headers
  {
    PartnersExactly(db, e);
  }

  lemma {:induction false} NameFound(t: seq<NameRow>, k: int)
    ensures NameOf(t, k).Some? ==> NameRow(k, NameOf(t, k).value) in t
  {
    if t != [] { NameFound(t[1..], k); }
  }

  /** A filter that pins down a unique key keeps at most one row. */
  lemma {:induction false} AtMostOne<T(!new)>(s: seq<T>, p: T -> bool, r: (T, T) -> bool)
    requires Pairwise(s, r) && (|Filter(s, p)| > 1 ==> !r(Filter(s, p)[0], Filter(s, p)[1]))
    ensures |Filter(s, p)| <= 1
  {
    FilterPairwise(s, p, r);
  }

  lemma OnePartner(db: Db, e: Event)
    requires UniquePartners(db)
    ensures |Filter(db.remotes, RemoteMatches(e))| <= 1 && |Filter(db.headers, IsToken(e.id))| <= 1
  {
    var rs := Filter(db.remotes, RemoteMatches(e));
    var hs := Filter(db.headers, IsToken(e.id));
    FilterAll(db.remotes, RemoteMatches(e));
    FilterAll(db.headers, IsToken(e.id));
    assert |rs| > 1 ==> rs[0] in rs && rs[1] in rs;
    assert |hs| > 1 ==> hs[0] in hs && hs[1] in hs;
    AtMostOne(db.remotes, RemoteMatches(e), OtherRemote());
    AtMostOne(db.headers, IsToken(e.id), OtherHeader());
  }

  lemma ExpandsToOne(db: Db, e: Event)
    requires UniquePartners(db)
    ensures Expand(db, e, e.serviceId) == if Known(db, e) then [TheRow(db, e)] else []
  {
    var rs := OrNull(Filter(db.remotes, RemoteMatches(e)));
    var hs := OrNull(Filter(db.headers, IsToken(e.id)));
    OnePartner(db, e);
    if Known(db, e) {
      var s, t := NameOf(db.services, e.serviceId).value, NameOf(db.eventTypes, e.typeId).value;
      assert |rs| == 1 && |hs| == 1 && rs[1..] == [];
      assert Pairs(e, s, t, rs, hs) == Map(hs, WithToken(e, s, t, rs[0]));
    }
  }

  ghost predicate DistinctIds(rows: seq<Row>) {
    forall i, j :: 0 <= i < j < |rows| ==> rows[i].event.id != rows[j].event.id
  }

  /** Ungrouped, the joins yield exactly one row per event of known service and type: neither LEFT JOIN multiplies rows.
      */
  lemma {:induction false} JoinEventsRows(db: Db, events: seq<Event>)
    requires UniquePartners(db) && Pairwise(events, EarlierId())
    ensures DistinctIds(JoinEvents(db, events))
    ensures forall row :: row in JoinEvents(db, events) <==>
            row.event in events && Known(db, row.event) && row == TheRow(db, row.event)
  {
    if events != [] {
      var init, e := events[..|events| - 1], Last(events);
      JoinEventsRows(db, init);
      ExpandsToOne(db, e);
      assert events == init + [e];
      var rows := JoinEvents(db, init);
      forall i | 0 <= i < |rows| ensures rows[i].event.id < e.id {
        assert rows[i] in rows;
        var k :| 0 <= k < |init| && init[k] == rows[i].event;
        assert EarlierId()(events[k], events[|events| - 1]);
      }
    }
  }

  /* ---- order ---- */

  ghost predicate StrictlyDescending(rows: seq<Row>) {
    forall i, j :: 0 <= i < j < |rows| ==> rows[i].event.id > rows[j].event.id
  }

  lemma {:induction false} InsertDescSorts(sorted: seq<Row>, row: Row)
    requires StrictlyDescending(sorted) && forall r | r in sorted :: r.event.id != row.event.id
    ensures StrictlyDescending(InsertDesc(sorted, row))
    ensures forall r :: r in InsertDesc(sorted, row) <==> r == row || r in sorted
  {
    if sorted != [] && sorted[0].event.id >= row.event.id {
      assert sorted == [sorted[0]] + sorted[1..];
      InsertDescSorts(sorted[1..], row);
      var out := InsertDesc(sorted[1..], row);
      forall r | r in out ensures sorted[0].event.id > r.event.id {
        if r != row {
          var k :| 0 <= k < |sorted[1..]| && sorted[1..][k] == r;
          assert sorted[k + 1] == r;
        } else {
          assert sorted[0] in sorted;
        }
      }
    }
  }

  lemma {:induction false} OrderDescSorts(rows: seq<Row>)
    requires DistinctIds(rows)
    ensures StrictlyDescending(OrderDesc(rows))
    ensures forall r :: r in OrderDesc(rows) <==> r in rows
  {
    if rows != [] {
      var init := rows[..|rows| - 1];
      OrderDescSorts(init);
      assert rows == init + [Last(rows)];
      forall r | r in OrderDesc(init) ensures r.event.id != Last(rows).event.id {
        var k :| 0 <= k < |init| && init[k] == r;
        assert rows[k] == r;
      }
      InsertDescSorts(OrderDesc(init), Last(rows));
    }
  }

  /** A strictly ordered result is determined by the rows in it. */
  lemma {:induction false} OrderIsUnique(a: seq<Row>, b: seq<Row>)
    requires StrictlyDescending(a) && StrictlyDescending(b) && forall r :: r in a <==> r in b
    ensures a == b
  {
    if a == [] {
      assert |b| > 0 ==> Last(b) in b;
    } else {
      assert a[0] in b && b[0] in a by { assert a[0] in a; assert b != []; assert b[0] in b; }
      assert a[0] == b[0];
      assert a == [a[0]] + a[1..] && b == [b[0]] + b[1..];
      forall r ensures r in a[1..] <==> r in b[1..] {
        HeadNotInTail(a, r);
        HeadNotInTail(b, r);
      }
      OrderIsUnique(a[1..], b[1..]);
    }
  }

  lemma HeadNotInTail(a: seq<Row>, r: Row)
    requires StrictlyDescending(a) && a != []
    ensures r in a[1..] <==> r in a && r != a[0]
  {
    assert a == [a[0]] + a[1..];
    if r in a[1..] {
      var k :| 0 <= k < |a[1..]| && a[1..][k] == r;
      assert a[k + 1] == r;
    }
  }

  lemma {:induction false} FilterDistinct(rows: seq<Row>, p: Row -> bool)
    requires DistinctIds(rows)
    ensures DistinctIds(Filter(rows, p))
  {
    var differ := (a: Row, b: Row) => a.event.id != b.event.id;
    assert Pairwise(rows, differ);
    FilterPairwise(rows, p, differ);
    forall i, j | 0 <= i < j < |Filter(rows, p)| ensures Filter(rows, p)[i].event.id != Filter(rows, p)[j].event.id {
      assert differ(Filter(rows, p)[i], Filter(rows, p)[j]);
    }
  }

  /** The ungrouped query: newest first, exactly one row per known event that passes WHERE. */
  lemma UngroupedResult(db: Db, q: Query)
    requires UniquePartners(db) && Keyed(db.events) && q.groupBy == ByNone
    ensures StrictlyDescending(Ordered(db, q))
    ensures forall row :: row in Ordered(db, q) <==>
              row.event in db.events && Known(db, row.event) && row == TheRow(db, row.event) && Passes(q.where_)(row)
  {
    var rows := JoinEvents(db, db.events);
    JoinEventsRows(db, db.events);
    FilterDistinct(rows, Passes(q.where_));
    FilterAll(rows, Passes(q.where_));
    OrderDescSorts(Selected(db, q));
  }

  /* ---- GROUP BY ---- */

  ghost predicate DistinctKeys(reps: seq<Row>, key: Row -> Key) {
    forall i, j :: 0 <= i < j < |reps| ==> key(reps[i]) != key(reps[j])
  }

  /** Some row of reps has r's key and an id at least r's. */
  ghost predicate Covered(reps: seq<Row>, r: Row, key: Row -> Key) {
    exists r' :: r' in reps && key(r') == key(r) && r'.event.id >= r.event.id
  }

  /** reps has exactly one row per key found in rows, the one with the largest id. */
  ghost predicate Represents(reps: seq<Row>, rows: seq<Row>, key: Row -> Key) {
    && DistinctKeys(reps, key)
    && (forall r | r in reps :: r in rows)
    && (forall r | r in rows :: Covered(reps, r, key))
  }

  lemma {:induction false} AbsorbRep(reps: seq<Row>, row: Row, key: Row -> Key)
    requires DistinctKeys(reps, key)
    ensures var out := Absorb(reps, row, key);
            && DistinctKeys(out, key)
            && (forall r | r in out :: r == row || r in reps)
            && Covered(out, row, key)
            && (forall r | r in reps :: Covered(out, r, key))
  {
    if reps != [] {
      var head, tail := reps[0], reps[1..];
      assert reps == [head] + tail;
      if key(head) == key(row) {
        var best := if head.event.id < row.event.id then row else head;
        var out := [best] + tail;
        assert Absorb(reps, row, key) == out && best in out;
        forall r | r in reps ensures Covered(out, r, key) {
          assert r == head || r in out;
        }
      } else {
        AbsorbRep(tail, row, key);
        AbsorbBehind(head, tail, row, key);
      }
    } else {
      assert row in [row];
    }
  }

  lemma {:induction false} AbsorbBehind(head: Row, tail: seq<Row>, row: Row, key: Row -> Key)
    requires DistinctKeys([head] + tail, key) && key(head) != key(row)
    requires var out := Absorb(tail, row, key);
             DistinctKeys(out, key) && (forall r | r in out :: r == row || r in tail) && Covered(out, row, key)
             && (forall r | r in tail :: Covered(out, r, key))
    ensures var out := [head] + Absorb(tail, row, key);
            && DistinctKeys(out, key) && (forall r | r in out :: r == row || r in [head] + tail)
                && Covered(out, row, key)
            && (forall r | r in [head] + tail :: Covered(out, r, key))
  {
    var behind := Absorb(tail, row, key);
    var out := [head] + behind;
    forall r | r in behind ensures key(r) != key(head) {
      if r != row {
        var k :| 0 <= k < |tail| && tail[k] == r;
        assert ([head] + tail)[k + 1] == r && ([head] + tail)[0] == head;
      }
    }
    forall r | Covered(behind, r, key) ensures Covered(out, r, key) {
      var r' :| r' in behind && key(r') == key(r) && r'.event.id >= r.event.id;
      assert r' in out;
    }
    assert head in out && Covered(out, head, key);
  }

  lemma CoveredThrough(reps: seq<Row>, out: seq<Row>, r: Row, key: Row -> Key)
    requires Covered(reps, r, key) && forall x | x in reps :: Covered(out, x, key)
    ensures Covered(out, r, key)
  {
    var r' :| r' in reps && key(r') == key(r) && r'.event.id >= r.event.id;
    var r'' :| r'' in out && key(r'') == key(r') && r''.event.id >= r'.event.id;
  }

  lemma {:induction false} AbsorbRepresents(reps: seq<Row>, rows: seq<Row>, row: Row, key: Row -> Key)
    requires Represents(reps, rows, key)
    ensures Represents(Absorb(reps, row, key), rows + [row], key)
  {
    AbsorbRep(reps, row, key);
    forall r | r in rows ensures Covered(Absorb(reps, row, key), r, key) {
      CoveredThrough(reps, Absorb(reps, row, key), r, key);
    }
  }

  lemma {:induction false} GroupMaxRepresents(rows: seq<Row>, key: Row -> Key)
    ensures Represents(GroupMax(rows, key), rows, key)
  {
    if rows != [] {
      var init := rows[..|rows| - 1];
      GroupMaxRepresents(init, key);
      AbsorbRepresents(GroupMax(init, key), init, Last(rows), key);
      assert rows == init + [Last(rows)];
    }
  }

  lemma DistinctAt(rows: seq<Row>, a: Row, b: Row)
    requires DistinctIds(rows) && a in rows && b in rows && a.event.id == b.event.id
    ensures a == b
  {
    var k :| 0 <= k < |rows| && rows[k] == a;
    var l :| 0 <= l < |rows| && rows[l] == b;
  }

  lemma RepsDistinct(reps: seq<Row>, rows: seq<Row>, key: Row -> Key)
    requires DistinctKeys(reps, key) && DistinctIds(rows) && forall r | r in reps :: r in rows
    ensures DistinctIds(reps)
  {
    forall i, j | 0 <= i < j < |reps| ensures reps[i].event.id != reps[j].event.id {
      assert reps[i] in reps && reps[j] in reps && key(reps[i]) != key(reps[j]);
      if reps[i].event.id == reps[j].event.id { DistinctAt(rows, reps[i], reps[j]); }
    }
  }

  lemma SelectedDistinct(db: Db, q: Query)
    requires UniquePartners(db) && Keyed(db.events) && q.groupBy != ByGroup
    ensures DistinctIds(Selected(db, q))
  {
    JoinEventsRows(db, db.events);
    FilterDistinct(JoinEvents(db, db.events), Passes(q.where_));
  }

  /** The rows that grouping starts from. */
  lemma SelectedExactly(db: Db, q: Query)
    requires UniquePartners(db) && Keyed(db.events) && q.groupBy != ByGroup
    ensures forall row :: row in Selected(db, q) <==>
              row.event in db.events && Known(db, row.event) && row == TheRow(db, row.event) && Passes(q.where_)(row)
  {
    JoinEventsRows(db, db.events);
    FilterAll(JoinEvents(db, db.events), Passes(q.where_));
  }

  /** GROUP BY contact or uids: newest first, one row per key class among the rows passing WHERE, namely the newest. */
  lemma GroupedResult(db: Db, q: Query)
    requires UniquePartners(db) && Keyed(db.events) && q.groupBy in {ByContact, ByUids}
    ensures StrictlyDescending(Ordered(db, q))
    ensures Represents(Ordered(db, q), Selected(db, q), KeyOf(q.groupBy))
    ensures forall row :: row in Selected(db, q) <==>
              row.event in db.events && Known(db, row.event) && row == TheRow(db, row.event) && Passes(q.where_)(row)
  {
    var rows, key := Selected(db, q), KeyOf(q.groupBy);
    var reps := GroupMax(rows, key);
    SelectedDistinct(db, q);
    SelectedExactly(db, q);
    GroupMaxRepresents(rows, key);
    RepsDistinct(reps, rows, key);
    OrderDescSorts(reps);
    StillRepresents(reps, OrderDesc(reps), rows, key);
  }

  lemma KeyAt(reps: seq<Row>, a: Row, b: Row, key: Row -> Key)
    requires DistinctKeys(reps, key) && a in reps && b in reps && key(a) == key(b)
    ensures a == b
  {
    var k :| 0 <= k < |reps| && reps[k] == a;
    var l :| 0 <= l < |reps| && reps[l] == b;
    assert key(reps[k]) == key(reps[l]);
  }

  lemma StillRepresents(reps: seq<Row>, out: seq<Row>, rows: seq<Row>, key: Row -> Key)
    requires Represents(reps, rows, key) && StrictlyDescending(out) && forall r :: r in out <==> r in reps
    ensures Represents(out, rows, key)
  {
    forall i, j | 0 <= i < j < |out| ensures key(out[i]) != key(out[j]) {
      assert out[i] in out && out[j] in out;
      if key(out[i]) == key(out[j]) { KeyAt(reps, out[i], out[j], key); }
    }
    forall x | x in reps ensures Covered(out, x, key) {
      assert x in out;
    }
    forall r | r in rows ensures Covered(out, r, key) {
      CoveredThrough(reps, out, r, key);
    }
  }

  /* ---- GROUP BY GROUP: the cache instead of a scan ---- */

  function IsNewest(events: seq<Event>): Event -> bool {
    (e: Event) => e.groupUid.Some? && forall x | x in events :: x.groupUid == e.groupUid ==> x.id <= e.id
  }

  /** The slow query: the newest event of every group, joined, filtered, ordered, sliced. */
  function ScanGroups(db: Db, q: Query): seq<Row> {
    Slice(OrderDesc(Filter(JoinEvents(db, Filter(db.events, IsNewest(db.events))), Passes(q.where_))), q.limit,
        q.offset)
  }

  lemma CachedEvent(db: Db, r: CacheRow) returns (e: Event)
    requires Keyed(db.events) && RowAgrees(db.events, r)
    ensures e in db.events && e.id == r.eventId && e.groupUid == Some(r.groupUid) && e.serviceId == r.serviceId
    ensures IsNewest(db.events)(e)
    ensures ExpandEach(db, Filter(db.events, HasId(r.eventId)), r.serviceId) == Expand(db, e, e.serviceId)
  {
    var m := Members(db.events, r.groupUid);
    e := Last(m);
    MemberIn(db.events, r.groupUid, e);
    forall x | x in db.events && x.groupUid == e.groupUid ensures x.id <= e.id {
      MemberIn(db.events, r.groupUid, x);
      NewestIsLast(db.events, r.groupUid, x);
    }
    OnlyOne(db.events, e);
    assert ExpandEach(db, [e][..0], r.serviceId) == [];
  }

  lemma {:induction false} OnlyOne(events: seq<Event>, e: Event)
    requires Keyed(events) && e in events
    ensures Filter(events, HasId(e.id)) == [e]
  {
    var f := Filter(events, HasId(e.id));
    FilterAll(events, HasId(e.id));
    FilterPairwise(events, HasId(e.id), EarlierId());
    assert e in f;
    if |f| > 1 { assert f[0] in f && f[1] in f && EarlierId()(f[0], f[1]); }
    assert f[0] in f;
    SameIdSameEvent(events, f[0], e);
  }

  /** Row `row` is what the cache join yields for one of the groups in cache. */
  ghost predicate CacheJoined(db: Db, cache: seq<CacheRow>, row: Row) {
    && row.event in db.events && IsNewest(db.events)(row.event) && HasRow(cache, row.event.groupUid.value)
    && Known(db, row.event) && row == TheRow(db, row.event)
  }

  lemma HasRowPush(cache: seq<CacheRow>, r: CacheRow, g: string)
    ensures HasRow(cache + [r], g) <==> HasRow(cache, g) || g == r.groupUid
  {
    var all := cache + [r];
    if k :| 0 <= k < |cache| && cache[k].groupUid == g { assert all[k].groupUid == g; }
    assert all[|cache|] == r;
  }

  lemma OnlyRowOf(init: seq<CacheRow>, r: CacheRow)
    requires Pairwise(init + [r], OtherGroup())
    ensures !HasRow(init, r.groupUid) && Pairwise(init, OtherGroup())
  {
    var all := init + [r];
    forall k | 0 <= k < |init| ensures init[k].groupUid != r.groupUid {
      assert all[k] == init[k] && all[|init|] == r;
    }
    forall i, j | 0 <= i < j < |init| ensures OtherGroup()(init[i], init[j]) {
      assert all[i] == init[i] && all[j] == init[j];
    }
  }

  lemma {:induction false} JoinCacheRows(db: Db, cache: seq<CacheRow>)
    requires UniquePartners(db) && Keyed(db.events)
    requires Pairwise(cache, OtherGroup()) && forall r | r in cache :: RowAgrees(db.events, r)
    ensures DistinctIds(JoinCache(db, cache))
    ensures forall row :: row in JoinCache(db, cache) <==> CacheJoined(db, cache, row)
  {
    if cache != [] {
      var init, r := cache[..|cache| - 1], Last(cache);
      assert cache == init + [r];
      JoinCacheRows(db, init);
      var e := CachedEvent(db, r);
      ExpandsToOne(db, e);
      var rows := JoinCache(db, init);
      var more := if Known(db, e) then [TheRow(db, e)] else [];
      OnlyRowOf(init, r);
      forall row ensures CacheJoined(db, cache, row) <==> CacheJoined(db, init, row) || row in more {
        CacheJoinedPush(db, init, r, e, row);
      }
      assert JoinCache(db, cache) == rows + more;
      CacheJoinedDistinct(db, init, rows, e);
    }
  }

  lemma CacheJoinedDistinct(db: Db, init: seq<CacheRow>, rows: seq<Row>, e: Event)
    requires Keyed(db.events) && e in db.events && e.groupUid.Some? && !HasRow(init, e.groupUid.value)
    requires DistinctIds(rows) && forall row :: row in rows <==> CacheJoined(db, init, row)
    ensures forall i :: 0 <= i < |rows| ==> rows[i].event.id != e.id
    ensures Known(db, e) ==> DistinctIds(rows + [TheRow(db, e)])
  {
    forall i | 0 <= i < |rows| ensures rows[i].event.id != e.id {
      assert rows[i] in rows && CacheJoined(db, init, rows[i]);
      if rows[i].event.id == e.id { SameIdSameEvent(db.events, rows[i].event, e); }
    }
  }

  lemma CacheJoinedPush(db: Db, init: seq<CacheRow>, r: CacheRow, e: Event, row: Row)
    requires Keyed(db.events) && e in db.events && IsNewest(db.events)(e) && e.groupUid == Some(r.groupUid)
    ensures CacheJoined(db, init + [r], row) <==>
            CacheJoined(db, init, row) || (Known(db, e) && row == TheRow(db, e))
  {
    if row.event.groupUid.Some? { HasRowPush(init, r, row.event.groupUid.value); }
    HasRowPush(init, r, r.groupUid);
    NewestIsCached(db, row, e);
  }

  /** A group has one newest event. */
  lemma NewestIsCached(db: Db, row: Row, e: Event)
    requires Keyed(db.events) && e in db.events && IsNewest(db.events)(e)
    ensures row.event in db.events && IsNewest(db.events)(row.event) && row.event.groupUid == e.groupUid ==>
            row.event == e
  {
    if row.event in db.events && IsNewest(db.events)(row.event) && row.event.groupUid == e.groupUid {
      SameIdSameEvent(db.events, row.event, e);
    }
  }

  /** In every state where cache and events agree, reading GroupCache gives the same sequence of rows as the scan. */
  lemma CacheQueryIsScan(db: Db, q: Query)
    requires UniquePartners(db) && Keyed(db.events) && Agrees(db.events, db.cache) && q.groupBy == ByGroup
    ensures Run(db, q) == ScanGroups(db, q)
  {
    var newest := Filter(db.events, IsNewest(db.events));
    var fast, slow := JoinCache(db, db.cache), JoinEvents(db, newest);
    JoinCacheRows(db, db.cache);
    FilterPairwise(db.events, IsNewest(db.events), EarlierId());
    FilterAll(db.events, IsNewest(db.events));
    JoinEventsRows(db, newest);
    forall row ensures row in fast <==> row in slow {
      if row.event in db.events && IsNewest(db.events)(row.event) { assert HasRow(db.cache, row.event.groupUid.value); }
    }
    FilterAll(fast, Passes(q.where_));
    FilterAll(slow, Passes(q.where_));
    FilterDistinct(fast, Passes(q.where_));
    FilterDistinct(slow, Passes(q.where_));
    OrderDescSorts(Filter(fast, Passes(q.where_)));
    OrderDescSorts(Filter(slow, Passes(q.where_)));
    OrderIsUnique(OrderDesc(Filter(fast, Passes(q.where_))), OrderDesc(Filter(slow, Passes(q.where_))));
  }
}
