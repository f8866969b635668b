/** Whole sequences of calls, as a client makes them. */
module Scenarios {
  import opened Seqs
  import opened Tables
  import opened Fields
  import opened Criteria
  import opened Select
  import opened QueryObject
  import QueryText
  import opened Operations
  import opened Integrity
  import opened Iterators
  import opened ReadBack
  import opened EventLogger

  /** The criteria list of a lookup by id compiles to the query for that id. */
  lemma ByIdCompiles(id: int)
    requires -0x8000_0000 <= id < 0x8000_0000
    ensures var cs := [Criterion(FieldName(Id), VInt(id), Equal)];
            && AllTyped(cs) && AllAccepted(cs)
            && Query(ByNone, ToPreds(cs), -1, 0) == ById(id)
  {
    var cs := [Criterion(FieldName(Id), VInt(id), Equal)];
    FieldOfName(Id);
    assert cs[1..] == [];
  }

  /** The query for an id. */
  method QueryFor(id: int) returns (query: RTComElQuery)
    requires -0x8000_0000 <= id < 0x8000_0000
    ensures fresh(query)
    ensures query.sql.Some? && QueryText.ReadSelect(query.template, query.sql.value) == Some(ById(id))
  {
    query := new RTComElQuery();
    ByIdCompiles(id);
    var ok := query.Prepare([Criterion(FieldName(Id), VInt(id), Equal)]);
  }

  /** Look an event up by its id and read it in full. */
  method LookUp(el: RTComEl, id: int) returns (got: Option<ElEvent>)
    requires -0x8000_0000 <= id < 0x8000_0000 && el.conn.journal
    modifies el.conn`db, el.conn`saved, el.conn`autocommit
    ensures got.Some? ==>
              && el.conn.db == old(el.conn.db)
              && var rows := Select.Run(el.conn.db, ById(id));
                 rows != [] && got == Some(FullEvent(Cells(rows[0])))
  {
    got := None;
    var query := QueryFor(id);
    var it := el.GetEvents(query, false);
    if it == null {
      return;
    }
    var more := it.First();
    if more {
      got := it.GetFull();
    }
  }

  lemma NextIdPositive(db: Db)
    requires Keyed(db.events)
    ensures NextId(db.events) >= 1
  {
    if db.events != [] { assert Last(db.events) in db.events; }
  }

  /** Add an event, look it up by its id, read it in full, and compare: the answer is "the same" if and only if the
      address book id of the event was stored. */
  method AddAndReadBack(el: RTComEl, ev: ElEvent, now: int) returns (id: int, verdict: Option<Verdict>)
    requires Sound(el.conn.db) && el.conn.journal && ClientEvent(ev)
    modifies el`lastGroupUid, el.conn`db, el.conn`saved, el.conn`autocommit
    ensures verdict.Some? ==>
              id < 0x8000_0000 && (verdict.value == Same <==> AbookStored(ev, KnownRemote(old(el.conn.db), ev)))
  {
    verdict := None;
    ghost var begun;
    id, begun := el.AddEvent(ev, now);
    if id == -1 || id >= 0x8000_0000 {
      return;
    }
    ghost var before := old(el.conn.db);
    NextIdPositive(before);
    AddedReadsBack(before, ev, Precheck(before, ev).value, now, old(el.lastGroupUid), el.conn.db);
    var got := LookUp(el, id);
    if got.Some? {
      verdict := Some(EventEquals(ev, got.value));
    }
  }

  /** An add that is rolled back leaves its group behind: the next event without a group uid of its own is filed under
      the group of an event that was never stored. */
  method AddAfterRollback(el: RTComEl, lost: ElEvent, next: ElEvent, now: int)
      returns (id1: int, id2: int, ghost begun: bool)
    requires Sound(el.conn.db) && el.conn.autocommit && el.conn.journal
    requires lost.groupUid.Set? && next.groupUid.Unset?
    modifies el`lastGroupUid, el.conn`db, el.conn`saved, el.conn`autocommit
    ensures begun && id1 == -1 && id2 != -1 ==>
              |el.conn.db.events| == |old(el.conn.db).events| + 1
                  && Last(el.conn.db.events).groupUid == lost.groupUid.value
  {
    id1, begun := el.AddEvent(lost, now);
    id2 := -1;
    if id1 != -1 {
      return;
    }
    ghost var again;
    id2, again := el.AddEvent(next, now);
    if id2 != -1 {
      AddCoreKeepsSound(old(el.conn.db), Precheck(old(el.conn.db), next).value, now, el.lastGroupUid);
    }
  }

  /** A call inside an atomic iterator's transaction succeeds, a delete follows: the delete fails and takes the call's
      work, and the transaction, with it. */
  method MarkThenDelete(el: RTComEl, marked: int, deleted: int) returns (ret1: int, ret2: int)
    requires !el.conn.autocommit && el.conn.journal && deleted >= 1
    modifies el.conn
    ensures ret1 == 0 ==> ret2 == -1 && el.conn.autocommit && el.conn.db == old(el.conn.saved)
  {
    ret1 := el.SetReadEvent(marked, 1);
    ghost var li, asked, clean;
    ret2, li, asked, clean := el.DeleteEvent(deleted);
  }
}
