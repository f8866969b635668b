/** RTComElIter: stepping through a query result, and the typed values of the current row. */
module Iterators {
  import opened Seqs
  import opened Tables
  import opened Text
  import opened Fields
  import opened Operations
  import opened Connections

  /** A GValue of the row table. */
  datatype Cell = IntCell(n: int) | BoolCell(b: bool) | StringCell(s: CString)

  /** sqlite3_column_int keeps the low 32 bits; NULL reads as 0. */
  function ColumnInt(v: SqlValue): int {
    match v case Int(n) => Signed32(n) case _ => 0
  }

  /** rtcom_el_db_schema_update_row, for one field. */
  function ReadCell(row: Row, c: Col): Cell {
    match KindOf(c)
    case IntKind => IntCell(ColumnInt(Value(row, c)))
    case BoolKind => BoolCell(ColumnInt(Value(row, c)) != 0)
    case TextKind => StringCell(match Value(row, c) case Text(s) => Some(s) case _ => None)
  }

  function Cells(row: Row): Col -> Cell {
    (c: Col) => ReadCell(row, c)
  }

  function IntAt(cells: Col -> Cell, c: Col): Field<int> {
    match cells(c)
    case IntCell(n) => Set(n)
    case BoolCell(b) => Set(if b then 1 else 0)
    case StringCell(_) => Unset
  }

  function StringAt(cells: Col -> Cell, c: Col): Field<CString> {
    match cells(c)
    case StringCell(s) => Set(s)
    case _ => Unset
  }

  /** The event struct rtcom_el_iter_get_full fills: every field is set, strings possibly to NULL. */
  function FullEvent(cells: Col -> Cell): ElEvent {
    ElEvent(
      IntAt(cells, Id), IntAt(cells, ServiceId), IntAt(cells, EventTypeId),
      IntAt(cells, StorageTime), IntAt(cells, StartTime), IntAt(cells, EndTime),
      IntAt(cells, IsRead), IntAt(cells, Outgoing), IntAt(cells, FlagBits),
      IntAt(cells, BytesSent), IntAt(cells, BytesReceived),
      StringAt(cells, LocalUid), StringAt(cells, LocalName), StringAt(cells, RemoteUid), StringAt(cells, RemoteName),
      StringAt(cells, RemoteEbookUid), StringAt(cells, Channel), StringAt(cells, FreeText), StringAt(cells, GroupUid),
      StringAt(cells, Service), StringAt(cells, EventType))
  }

  function Whether(n: int): int {
    if n == 0 then 0 else 1
  }

  lemma NumberShown(row: Row, c: Col)
    requires KindOf(c) != TextKind && Value(row, c).Int?
    ensures IntAt(Cells(row), c) ==
            Set(if KindOf(c) == BoolKind then Whether(Signed32(Value(row, c).n)) else Signed32(Value(row, c).n))
  {
    assert Cells(row)(c) == ReadCell(row, c);
  }

  lemma TextShown(row: Row, c: Col, s: CString)
    requires KindOf(c) == TextKind && Value(row, c) == TextOrNull(s)
    ensures StringAt(Cells(row), c) == Set(s)
  {
    assert Cells(row)(c) == ReadCell(row, c);
  }

  /** What get_full hands out, column by column: integers to 32 bits, is_read and outgoing as 0 or 1. */
  lemma KeysShown(row: Row)
    ensures var got, e := FullEvent(Cells(row)), row.event;
            && got.id == Set(Signed32(e.id)) && got.serviceId == Set(Signed32(e.serviceId))
            && got.eventTypeId == Set(Signed32(e.typeId)) && got.storageTime == Set(Signed32(e.storageTime))
  {
    NumberShown(row, Id); NumberShown(row, ServiceId); NumberShown(row, EventTypeId); NumberShown(row, StorageTime);
  }

  lemma MarksShown(row: Row)
    ensures var got, e := FullEvent(Cells(row)), row.event;
            got.isRead == Set(Whether(Signed32(e.isRead))) && got.outgoing == Set(Whether(Signed32(e.outgoing)))
  {
    NumberShown(row, IsRead); NumberShown(row, Outgoing);
  }

  lemma NumbersShown(row: Row)
    ensures var got, e := FullEvent(Cells(row)), row.event;
            && got.startTime == Set(Signed32(e.startTime)) && got.endTime == Set(Signed32(e.endTime))
            && got.flags == Set(Signed32(e.flags)) && got.bytesSent == Set(Signed32(e.bytesSent))
            && got.bytesReceived == Set(Signed32(e.bytesReceived))
  {
    NumberShown(row, StartTime); NumberShown(row, EndTime); NumberShown(row, FlagBits);
    NumberShown(row, BytesSent); NumberShown(row, BytesReceived);
  }

  /** Texts as they are, and NULL for what the joins did not find. */
  lemma TextsShown(row: Row)
    ensures var got, e := FullEvent(Cells(row)), row.event;
            && got.localUid == Set(e.localUid) && got.localName == Set(e.localName) && got.channel == Set(e.channel)
            && got.freeText == Set(e.freeText) && got.groupUid == Set(e.groupUid)
            && got.service == Set(Some(row.service)) && got.eventType == Set(Some(row.eventType))
  {
    var e := row.event;
    TextShown(row, LocalUid, e.localUid); TextShown(row, LocalName, e.localName); TextShown(row, Channel, e.channel);
    TextShown(row, FreeText, e.freeText); TextShown(row, GroupUid, e.groupUid);
    TextShown(row, Service, Some(row.service)); TextShown(row, EventType, Some(row.eventType));
  }

  lemma ContactShown(row: Row)
    ensures var got := FullEvent(Cells(row));
            && got.remoteUid == Set(if row.remote.None? then None else Some(row.remote.value.remoteUid))
            && got.remoteName == Set(if row.remote.None? then None else row.remote.value.name)
            && got.remoteEbookUid == Set(if row.remote.None? then None else row.remote.value.abookUid)
  {
    TextShown(row, RemoteUid, if row.remote.None? then None else Some(row.remote.value.remoteUid));
    TextShown(row, RemoteName, if row.remote.None? then None else row.remote.value.name);
    TextShown(row, RemoteEbookUid, if row.remote.None? then None else row.remote.value.abookUid);
  }

  /** The SQLite statement behind an iterator.  At the end of the rows it is released and forgotten; after an error it
      is released, but the iterator keeps pointing at it. */
  datatype Statement = Live | Gone | Dangling

  class RTComElIter {
    const conn: Connection<Db>
    const rows: seq<Row>
    const atomic: bool
    /** The row last stepped to; -1 after a reset. */
    var at: int
    var stmt: Statement
    var columns: Col -> Cell
    var currentEventId: int
    var currentServiceId: int
    var currentEventTypeId: int

    /** The iterator shows row k: statement, row table and current ids. */
    ghost predicate Positioned(k: int)
      reads this
    {
      && stmt == Live && at == k && 0 <= k < |rows|
      && Showing(k)
    }

    /** The row table and the current ids are those of row k. */
    ghost predicate Showing(k: int)
      requires 0 <= k < |rows|
      reads this
    {
      && columns == Cells(rows[k])
      && currentEventId == Signed32(rows[k].event.id)
      && currentServiceId == Signed32(rows[k].event.serviceId)
      && currentEventTypeId == Signed32(rows[k].event.typeId)
    }

    /** Built on a statement already stepped to its first row. */
    constructor (conn: Connection<Db>, rows: seq<Row>, atomic: bool)
      requires rows != []
      ensures this.conn == conn && this.rows == rows && this.atomic == atomic && Positioned(0)
    {
      this.conn, this.rows, this.atomic := conn, rows, atomic;
      at, stmt := 0, Live;
      columns := Cells(rows[0]);
      currentEventId := Signed32(rows[0].event.id);
      currentServiceId := Signed32(rows[0].event.serviceId);
      currentEventTypeId := Signed32(rows[0].event.typeId);
    }

    /** _update_representation. */
    method UpdateRepresentation()
      requires 0 <= at < |rows| && stmt == Live
      modifies this`columns, this`currentEventId, this`currentServiceId, this`currentEventTypeId
      ensures Positioned(at)
    {
      columns := Cells(rows[at]);
      currentEventId := match columns(Id) { case IntCell(n) => n case _ => -1 };
      currentServiceId := match columns(ServiceId) { case IntCell(n) => n case _ => -1 };
      currentEventTypeId := match columns(EventTypeId) { case IntCell(n) => n case _ => -1 };
    }

    /** rtcom_el_iter_next: to the next row; at the end, or on an error, the statement goes and the last row stays
        shown. Stepping a dangling statement is undefined. */
    method Next() returns (more: bool)
      requires -1 <= at < |rows| && stmt != Dangling
      modifies this
      ensures more ==> old(stmt) == Live && Positioned(old(at) + 1)
      ensures !more ==> stmt == Gone || (stmt == Dangling && old(stmt) == Live)
      ensures !more ==> at == old(at) && columns == old(columns) && currentEventId == old(currentEventId)
                        && currentServiceId == old(currentServiceId) && currentEventTypeId == old(currentEventTypeId)
      ensures old(stmt) == Live && stmt == Gone ==> old(at) + 1 == |rows|
    {
      if stmt == Gone {
        return false;
      }
      var fault: bool := *;
      if fault {
        stmt := Dangling;
        return false;
      }
      if at + 1 == |rows| {
        stmt := Gone;
        return false;
      }
      at := at + 1;
      UpdateRepresentation();
      more := true;
    }

    /** rtcom_el_iter_first: back to row 0, unless the statement is gone. */
    method First() returns (more: bool)
      requires -1 <= at < |rows| && rows != [] && stmt != Dangling
      modifies this
      ensures more ==> old(stmt) == Live && Positioned(0)
      ensures !more ==> stmt == (if old(stmt) == Live then Dangling else Gone) && columns == old(columns)
    {
      if stmt == Gone {
        return false;
      }
      at := -1;
      more := Next();
    }

    /** rtcom_el_iter_get_full: the row shown; nothing once the statement is gone. */
    method GetFull() returns (ev: Option<ElEvent>)
      ensures ev.Some? <==> stmt != Gone
      ensures forall k :: 0 <= k < |rows| && stmt != Gone && Showing(k) ==> ev == Some(FullEvent(Cells(rows[k])))
    {
      ev := if stmt == Gone then None else Some(FullEvent(columns));
    }

    /** The end of an iterator: an atomic one commits the transaction it holds. */
    method Finalize() returns (committed: bool)
      modifies this`stmt, conn`db, conn`autocommit
      ensures stmt == Gone
      ensures !atomic ==> !committed && conn.db == old(conn.db) && conn.autocommit == old(conn.autocommit)
      ensures committed ==> !old(conn.autocommit) && conn.autocommit && conn.db == old(conn.db)
      ensures !committed && conn.journal ==> conn.Unwound()
    {
      committed := false;
      if atomic {
        committed := conn.Commit();
      }
      stmt := Gone;
    }
  }
}
