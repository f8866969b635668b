/** RTComEl: the calls of the library, statement by statement, over a connection that may fail at every statement. */
module EventLogger {
  import opened Seqs
  import opened Tables
  import opened Statements
  import opened Criteria
  import opened Select
  import opened GroupList
  import opened Deletions
  import opened Operations
  import opened Connections
  import opened QueryObject
  import opened QueryText
  import opened Fields
  import opened Iterators
  import opened Text
  import Integrity
  import opened Effects
  import Runs
  import opened Sessions

  class RTComEl {
    const conn: Connection<Db>
    var lastGroupUid: CString

    constructor (conn: Connection<Db>)
      ensures this.conn == conn && lastGroupUid == None
    {
      this.conn, lastGroupUid := conn, None;
    }

    function TheStore(): Runs.Store
      reads this, conn
    {
      Runs.Store(conn.db, lastGroupUid)
    }

    function TheSession(): Session
      reads this, conn
    {
      Session(TheStore(), !conn.autocommit, conn.saved)
    }

    /** _add_event_core, inside a transaction: on success the state is the specified one; on failure the caller only has
        to roll back. */
    method AddEventCore(c: Checked, now: int) returns (id: int)
      requires !conn.autocommit && Keyed(conn.db.events)
      requires conn.db == conn.saved
      modifies conn`db, conn`autocommit, this`lastGroupUid
      ensures lastGroupUid == Remembered(old(lastGroupUid), c.ev)
      ensures id != -1 ==> !conn.autocommit && id == NextId(old(conn.db).events)
      ensures id != -1 ==> AddCore(old(conn.db), c, now, lastGroupUid) == Some(conn.db)
      ensures id == -1 && conn.journal ==> !conn.autocommit || conn.db == conn.saved
    {
      if c.ev.groupUid.Set? {
        lastGroupUid := c.ev.groupUid.value;
      }
      var known := None;
      if c.ev.remoteUid.Set? {
        var ok := conn.Ask();
        if !ok {
          return -1;
        }
        known := FindRemote(conn.db, StringOf(c.ev.localUid), StringOf(c.ev.remoteUid));
      }
      id := NextId(conn.db.events);
      assert id >= 1 by { if conn.db.events != [] { assert Last(conn.db.events) in conn.db.events; } }
      var ok := conn.Exec(InsertEvent(conn.db, NewRow(c, now, lastGroupUid)));
      if !ok {
        return -1;
      }
      if c.ev.remoteUid.Set? {
        var local, remote := StringOf(c.ev.localUid), StringOf(c.ev.remoteUid);
        var name, abook := StringOf(c.ev.remoteName), StringOf(c.ev.remoteEbookUid);
        if known == None {
          ok := conn.Exec(InsertRemote(conn.db, local, remote, name, abook));
          if !ok {
            return -1;
          }
        } else {
          if abook != known.value.name {
            ok := conn.Exec(Some(UpdateAbook(conn.db, local, remote, abook)));
            if !ok {
              return -1;
            }
          }
          if name != None {
            ok := conn.Exec(Some(UpdateName(conn.db, local, remote, name)));
            if !ok {
              return -1;
            }
          }
        }
      }
    }

    /** add_event: all of it or nothing, and always back to autocommit; inside somebody else's transaction it is
        refused. `begun` says whether the transaction was begun; from then on the group uid is replaced, whether the
        event is stored or not. */
    method AddEvent(ev: ElEvent, now: int) returns (id: int, ghost begun: bool)
      requires Keyed(conn.db.events)
      modifies conn`db, conn`saved, conn`autocommit, this`lastGroupUid
      ensures old(conn.autocommit) ==> conn.autocommit
      ensures begun ==> old(conn.autocommit) && Precheck(old(conn.db), ev).Some?
      ensures lastGroupUid == if begun then Remembered(old(lastGroupUid), ev) else old(lastGroupUid)
      ensures id == -1 && (conn.journal || !begun) ==> conn.db == old(conn.db)
      ensures id != -1 ==>
                && begun && AddCore(old(conn.db), Precheck(old(conn.db), ev).value, now, lastGroupUid) == Some(conn.db)
                && id == NextId(old(conn.db).events)
      ensures !old(conn.autocommit) ==> id == -1 && !conn.autocommit && conn.saved == old(conn.saved)
      ensures id != -1 ==> Added(old(conn.db), conn.db, ev, now, old(lastGroupUid))
      ensures conn.journal ==> Advance(old(TheSession()), Do(Runs.Add(ev, now, [], [])), TheSession())
    {
      id, begun := -1, false;
      var checked := Precheck(conn.db, ev);
      if checked == None {
        return;
      }
      assert checked.value.ev.groupUid == ev.groupUid;
      var ok := conn.Begin();
      if !ok {
        return;
      }
      begun := true;
      id := AddEventCore(checked.value, now);
      if id == -1 {
        ok := conn.Rollback();
        return;
      }
      ok := conn.Commit();
      if !ok {
        ok := conn.Rollback();
        id := -1;
        return;
      }
      AddStores(old(conn.db), ev, now, old(lastGroupUid), conn.db);
    }

    /** add_header. */
    method AddHeader(id: int, name: string, value: CString) returns (ret: int)
      modifies conn`db, conn`autocommit
      ensures ret == 0 ==> id >= 1 && InsertHeader(old(conn.db), id, name, value) == Some(conn.db)
      ensures ret == 0 ==> conn.autocommit == old(conn.autocommit)
      ensures ret != 0 ==> ret == -1 && (conn.journal ==> conn.Unwound())
      ensures conn.journal && id in Ids(old(conn.db).events) ==>
                Advance(old(TheSession()), Do(Runs.AddHeader(id, name, value)), TheSession())
    {
      if id < 1 || value == None {
        return -1;
      }
      var ok := conn.Exec(InsertHeader(conn.db, id, name, value));
      ret := if ok then 0 else -1;
    }

    /** add_attachment, given where the copy of the file ended up. */
    method AddAttachment(id: int, a: Attach) returns (ret: int)
      modifies conn`db, conn`autocommit
      ensures ret == 0 ==> id >= 0 && InsertAttachment(old(conn.db), id, a) == Some(conn.db)
      ensures ret == 0 ==> conn.autocommit == old(conn.autocommit)
      ensures ret != 0 ==> ret == -1 && (conn.journal ==> conn.Unwound())
      ensures conn.journal && id in Ids(old(conn.db).events) ==>
                Advance(old(TheSession()), Do(Runs.AddAttachment(id, a)), TheSession())
    {
      if id < 0 || a.dest == None {
        return -1;
      }
      var ok := conn.Exec(InsertAttachment(conn.db, id, a));
      ret := if ok then 0 else -1;
    }

    /** add_event_full: event, attachments and headers, all or nothing. */
    method AddEventFull(ev: ElEvent, now: int, hs: seq<(string, CString)>, atts: seq<Attach>)
        returns (id: int, ghost begun: bool)
      requires Keyed(conn.db.events) && Integrity.DistinctNames(hs)
      modifies conn`db, conn`saved, conn`autocommit, this`lastGroupUid
      ensures old(conn.autocommit) ==> conn.autocommit
      ensures begun ==> old(conn.autocommit) && Precheck(old(conn.db), ev).Some?
      ensures lastGroupUid == if begun then Remembered(old(lastGroupUid), ev) else old(lastGroupUid)
      ensures id == -1 && (conn.journal || !begun) ==> conn.db == old(conn.db)
      ensures id != -1 ==>
                && begun
                && AddFull(old(conn.db), Precheck(old(conn.db), ev).value, now, lastGroupUid, hs, atts) == Some(conn.db)
                && id == NextId(old(conn.db).events)
      ensures !old(conn.autocommit) ==> id == -1 && !conn.autocommit && conn.saved == old(conn.saved)
      ensures id != -1 ==> Added(old(conn.db), conn.db, ev, now, old(lastGroupUid))
      ensures conn.journal ==> Advance(old(TheSession()), Do(Runs.Add(ev, now, hs, atts)), TheSession())
    {
      id, begun := -1, false;
      var checked := Precheck(conn.db, ev);
      if checked == None {
        return;
      }
      assert checked.value.ev.groupUid == ev.groupUid;
      var ok := conn.Begin();
      if !ok {
        return;
      }
      begun := true;
      id := AddEventCore(checked.value, now);
      if id == -1 {
        ok := conn.Rollback();
        return;
      }
      ok := AddParts(id, hs, atts);
      if !ok {
        ok := conn.Rollback();
        id := -1;
        return;
      }
      ok := conn.Commit();
      if !ok {
        ok := conn.Rollback();
        id := -1;
        return;
      }
      AddFullStores(old(conn.db), ev, now, old(lastGroupUid), hs, atts, conn.db);
    }

    /** The two loops of add_event_full. */
    method AddParts(id: int, hs: seq<(string, CString)>, atts: seq<Attach>) returns (ok: bool)
      requires !conn.autocommit
      modifies conn`db, conn`autocommit
      ensures ok ==> !conn.autocommit && InsertAttachments(old(conn.db), id, atts).Some? &&
                     InsertHeaders(InsertAttachments(old(conn.db), id, atts).value, id, hs) == Some(conn.db)
      ensures !ok && conn.journal ==> !conn.autocommit || conn.db == conn.saved
    {
      var i := 0;
      while i < |atts|
        invariant 0 <= i <= |atts| && !conn.autocommit
        invariant InsertAttachments(old(conn.db), id, atts[..i]) == Some(conn.db)
      {
        var ret := AddAttachment(id, atts[i]);
        if ret == -1 {
          return false;
        }
        assert atts[..i + 1][..i] == atts[..i];
        i := i + 1;
      }
      assert atts[..i] == atts;
      var j := 0;
      while j < |hs|
        invariant 0 <= j <= |hs| && !conn.autocommit
        invariant InsertAttachments(old(conn.db), id, atts).Some?
        invariant InsertHeaders(InsertAttachments(old(conn.db), id, atts).value, id, hs[..j]) == Some(conn.db)
      {
        var ret := AddHeader(id, hs[j].0, hs[j].1);
        if ret == -1 {
          return false;
        }
        assert hs[..j + 1][..j] == hs[..j];
        j := j + 1;
      }
      assert hs[..j] == hs;
      ok := true;
    }

    /** One UPDATE of one event. */
    method UpdateOne(id: int, f: Event -> Event) returns (ret: int)
      modifies conn`db, conn`autocommit
      ensures ret == 0 ==>
                id >= 1 && conn.db == UpdateEvent(old(conn.db), id, f) && conn.autocommit == old(conn.autocommit)
      ensures ret != 0 ==> ret == -1 && (conn.journal ==> conn.Unwound())
    {
      if id < 1 {
        return -1;
      }
      var ok := conn.Exec(Some(UpdateEvent(conn.db, id, f)));
      ret := if ok then 0 else -1;
    }

    method SetReadEvent(id: int, read: int) returns (ret: int)
      modifies conn`db, conn`autocommit
      ensures ret == 0 ==>
                && conn.db == UpdateEvent(old(conn.db), id, Statements.SetRead(read))
                && conn.autocommit == old(conn.autocommit)
      ensures ret == 0 && Keyed(old(conn.db).events) ==> Marked(old(conn.db), conn.db, [id], read)
      ensures ret != 0 ==> ret == -1 && (conn.journal ==> conn.Unwound())
      ensures conn.journal ==> Advance(old(TheSession()), Do(Runs.MarkRead(id, read)), TheSession())
      ensures conn.journal && Kept(old(TheSession())) ==> Kept(TheSession())
    {
      ghost var before := TheSession();
      ret := UpdateOne(id, Statements.SetRead(read));
      if Keyed(before.store.db.events) { MarkedExactly(before.store.db, id, read); }
      if conn.journal && Kept(before) {
        AdvanceKeeps(before, Do(Runs.MarkRead(id, read)), TheSession());
      }
    }

    /** set_read_events, for the ids before the closing 0: stops at the first event that cannot be updated, keeping the
        updates before it. */
    method SetReadEvents(ids: seq<int>, read: int) returns (ret: int)
      requires 0 !in ids
      modifies conn`db, conn`autocommit
      ensures ret == 0 ==>
                ids != [] && conn.db == SetReads(old(conn.db), ids, read) && conn.autocommit == old(conn.autocommit)
      ensures ret == 0 && Keyed(old(conn.db).events) ==> Marked(old(conn.db), conn.db, ids, read)
      ensures ret != 0 ==> ret == -1
      ensures ret != 0 && conn.journal ==>
                || (conn.autocommit == old(conn.autocommit) && SomeRead(old(conn.db), ids, read, conn.db))
                || (!old(conn.autocommit) && conn.autocommit && conn.db == old(conn.saved))
      ensures conn.journal && Kept(old(TheSession())) ==> Kept(TheSession())
    {
      ret := -1;
      ghost var was, fine := conn.db, conn.journal && Kept(TheSession());
      assert conn.db == SetReads(was, ids[..0], read);
      var i := 0;
      while i < |ids|
        invariant 0 <= i <= |ids| && conn.autocommit == old(conn.autocommit)
        invariant conn.db == SetReads(was, ids[..i], read)
        invariant ret == if i == 0 then -1 else 0
        invariant fine ==> conn.journal && Kept(TheSession())
      {
        ret := SetReadEvent(ids[i], read);
        if ret == -1 {
          return;
        }
        ReadsPush(was, ids, i, read);
        i := i + 1;
      }
      assert ids[..i] == ids;
      if Keyed(was.events) { ReadsMark(was, ids, read); }
    }

    /** The updates for some first part of the list are in the database. */
    ghost predicate SomeRead(before: Db, ids: seq<int>, read: int, after: Db) {
      exists n :: 0 <= n <= |ids| && after == SetReads(before, ids[..n], read)
    }

    /** get_flag_value: -1 for an unknown flag, or when the lookup fails. */
    method FlagValue(name: string) returns (value: int)
      modifies conn`db, conn`autocommit
      ensures value != -1 ==>
                IdOf(conn.db.flagValues, name).Some? && value == Signed32(IdOf(conn.db.flagValues, name).value)
      ensures value != -1 ==> conn.db == old(conn.db) && conn.autocommit == old(conn.autocommit)
      ensures value == -1 && conn.journal ==> conn.Unwound()
    {
      var ok := conn.Ask();
      var found := IdOf(conn.db.flagValues, name);
      value := if ok && found.Some? then Signed32(found.value) else -1;
    }

    /** set_event_flag: the value of the named flag is ORed into the event's flags. */
    method SetEventFlag(id: int, name: string) returns (ret: int, ghost value: int)
      modifies conn`db, conn`autocommit
      ensures ret == 0 ==>
                && value != -1 && conn.autocommit == old(conn.autocommit) && IdOf(old(conn.db).flagValues, name).Some?
                && value == Signed32(IdOf(old(conn.db).flagValues, name).value)
                && conn.db == UpdateEvent(old(conn.db), id, SetFlags(value))
      ensures ret == 0 && Keyed(old(conn.db).events) ==> Flagged(old(conn.db), conn.db, id, value, true)
      ensures ret != 0 ==> ret == -1 && (conn.journal ==> conn.Unwound())
      ensures conn.journal ==> Advance(old(TheSession()), Do(Runs.SetFlag(id, value)), TheSession())
    {
      value := -1;
      if id < 1 {
        return -1, value;
      }
      var found := FlagValue(name);
      value := found;
      if found == -1 {
        return -1, value;
      }
      ret := UpdateOne(id, SetFlags(found));
      if Keyed(old(conn.db).events) { FlagSetExactly(old(conn.db), id, found); }
    }

    /** unset_event_flag: the bits of the named flag are cleared from the event's flags. */
    method UnsetEventFlag(id: int, name: string) returns (ret: int, ghost value: int)
      modifies conn`db, conn`autocommit
      ensures ret == 0 ==>
                && value != -1 && conn.autocommit == old(conn.autocommit) && IdOf(old(conn.db).flagValues, name).Some?
                && value == Signed32(IdOf(old(conn.db).flagValues, name).value)
                && conn.db == UpdateEvent(old(conn.db), id, UnsetFlags(value))
      ensures ret == 0 && Keyed(old(conn.db).events) ==> Flagged(old(conn.db), conn.db, id, value, false)
      ensures ret != 0 ==> ret == -1 && (conn.journal ==> conn.Unwound())
      ensures conn.journal ==> Advance(old(TheSession()), Do(Runs.UnsetFlag(id, value)), TheSession())
    {
      value := -1;
      if id < 1 {
        return -1, value;
      }
      var found := FlagValue(name);
      value := found;
      if found == -1 {
        return -1, value;
      }
      ret := UpdateOne(id, UnsetFlags(found));
      if Keyed(old(conn.db).events) { FlagUnsetExactly(old(conn.db), id, found); }
    }

    /** update_remote_contacts. */
    method UpdateRemoteContacts(contacts: seq<Contact>) returns (ok: bool)
      modifies conn`db, conn`saved, conn`autocommit
      ensures old(conn.autocommit) ==> conn.autocommit
      ensures ok ==> conn.db == UpdateContacts(old(conn.db), contacts)
      ensures !ok && conn.journal ==> conn.db == old(conn.db)
      ensures !old(conn.autocommit) ==> !conn.autocommit && conn.saved == old(conn.saved) && conn.db == old(conn.db)
      ensures !old(conn.autocommit) ==> (ok <==> contacts == [])
      ensures conn.journal ==> Advance(old(TheSession()), Do(Runs.UpdateRemotes(contacts)), TheSession())
    {
      if contacts == [] {
        return true;
      }
      ok := conn.Begin();
      if !ok {
        return;
      }
      var i := 0;
      while i < |contacts|
        invariant 0 <= i <= |contacts| && !conn.autocommit && conn.saved == old(conn.db)
        invariant conn.db == UpdateContacts(old(conn.db), contacts[..i])
      {
        ok := conn.Exec(Some(UpdateContact(conn.db, contacts[i])));
        if !ok {
          ok := conn.Rollback();
          return false;
        }
        assert contacts[..i + 1][..i] == contacts[..i];
        i := i + 1;
      }
      assert contacts[..i] == contacts;
      ok := conn.Commit();
      if !ok {
        ok := conn.Rollback();
        ok := false;
      }
    }

    /** remove_abook_uids. */
    method RemoveAbookUids(uids: seq<CString>) returns (ok: bool)
      modifies conn`db, conn`saved, conn`autocommit
      ensures old(conn.autocommit) ==> conn.autocommit
      ensures ok ==> conn.db == RemoveAbooks(old(conn.db), uids)
      ensures !ok && conn.journal ==> conn.db == old(conn.db)
      ensures !old(conn.autocommit) ==> !conn.autocommit && conn.saved == old(conn.saved) && conn.db == old(conn.db)
      ensures !old(conn.autocommit) ==> (ok <==> uids == [])
      ensures conn.journal ==> Advance(old(TheSession()), Do(Runs.RemoveAbookUids(uids)), TheSession())
    {
      if uids == [] {
        return true;
      }
      ok := conn.Begin();
      if !ok {
        return;
      }
      var i := 0;
      while i < |uids|
        invariant 0 <= i <= |uids| && !conn.autocommit && conn.saved == old(conn.db)
        invariant conn.db == RemoveAbooks(old(conn.db), uids[..i])
      {
        ok := conn.Exec(Some(RemoveAbook(conn.db, uids[i])));
        if !ok {
          ok := conn.Rollback();
          return false;
        }
        assert uids[..i + 1][..i] == uids[..i];
        i := i + 1;
      }
      assert uids[..i] == uids;
      ok := conn.Commit();
      if !ok {
        ok := conn.Rollback();
        ok := false;
      }
    }

    /** update_group_cache: builds the list text, rebuilds the listed groups, and then drops rows of empty groups
        without looking at the outcome; `clean` says whether that last statement worked. */
    method UpdateGroupCache(li: seq<Uid>) returns (ok: bool, ghost clean: bool)
      modifies conn`db, conn`autocommit
      ensures ok && clean ==> UpdateCache(old(conn.db), li) == Some(conn.db) && conn.autocommit == old(conn.autocommit)
      ensures old(conn.autocommit) ==> conn.autocommit
      ensures ok ==> UpdateCache(old(conn.db), li).Some?
      ensures li == [] ==> ok && clean
      ensures !ok && conn.journal ==> conn.Unwound()
    {
      if li == [] {
        return true, true;
      }
      var text, i := "", 0;
      while i < |li|
        invariant 0 <= i <= |li|
        invariant text + ListText(li[i..]) == ListText(li)
      {
        var rest := li[i..];
        assert rest[0] == li[i] && rest[1..] == li[i + 1..];
        if li[i].Some? {
          text := text + ("'" + li[i].value + "'" + if i + 1 < |li| then "," else "");
        }
        i := i + 1;
      }
      assert text == ListText(li);
      var uids := ReadRebuild(text + RebuildTail());
      ok := conn.Exec(if uids == None then None
                      else Some(conn.db.(cache := Rebuild(conn.db.events, conn.db.cache, uids.value))));
      if !ok {
        return false, false;
      }
      var done := conn.Exec(Some(conn.db.(cache := Cleanup(conn.db.events, conn.db.cache))));
      clean := done;
    }

    /** delete_event.  A successful return means the event is gone, and the cache is rebuilt provided that the lookup of
        its group and the unchecked cleanup worked; when the lookup failed, the cache is left as it was.  Inside
        somebody else's transaction the call fails, and rolls that transaction back. */
    method DeleteEvent(id: int) returns (ret: int, ghost li: seq<Uid>, ghost asked: bool, ghost clean: bool)
      modifies conn
      ensures ret == 0 ==> id >= 1 && old(conn.autocommit) && conn.autocommit
      ensures ret == 0 && asked && clean ==>
                IsListing(li, GroupsOfId(old(conn.db), id)) && DeleteAndRebuild(old(conn.db), {id}, li) == Some(conn.db)
      ensures ret == 0 && asked && clean ==> Runs.Step(old(TheStore()), Runs.DeleteEvent(id, li), TheStore())
      ensures ret == 0 && !asked ==> Runs.Step(old(TheStore()), Runs.DeleteBlind({id}), TheStore())
      ensures ret != 0 ==> ret == -1 && (id < 1 || conn.autocommit)
      ensures id >= 1 && !old(conn.autocommit) ==>
                ret == -1 && conn.autocommit && (old(conn.journal) ==> conn.db == old(conn.saved))
      ensures id >= 1 && !old(conn.autocommit) && old(conn.journal) ==> Undone(old(TheSession()), TheSession())
    {
      li, asked, clean := [], false, false;
      if id < 1 {
        return -1, li, asked, clean;
      }
      conn.SetJournal(false);
      var ok := conn.Begin();
      if !ok {
        ret := Abandon();
        return;
      }
      var listed, answered := GroupsOf(id, None);
      li, asked := listed, answered;
      ret, clean := Erase(Some({id}), listed);
    }

    /** The error path of the deletes. */
    method Abandon() returns (ret: int)
      modifies conn
      ensures ret == -1 && conn.autocommit
      ensures !old(conn.autocommit) && old(conn.journal) ==> conn.db == old(conn.saved)
      ensures old(conn.autocommit) ==> conn.db == old(conn.db)
    {
      var ok := conn.Rollback();
      conn.SetJournal(true);
      ret := -1;
    }

    /** The common end of delete_event and delete_events: the DELETE, unless its text does not compile, the cache, and
        the commit. */
    method Erase(ids: Option<set<int>>, li: seq<Uid>) returns (ret: int, ghost clean: bool)
      modifies conn
      ensures ret == 0 ==> ids.Some? && !old(conn.autocommit) && conn.autocommit
      ensures ret == 0 && clean ==> DeleteAndRebuild(old(conn.db), ids.value, li) == Some(conn.db)
      ensures ret == 0 && li == [] ==> clean
      ensures ret != 0 ==> ret == -1 && conn.autocommit
    {
      clean := false;
      var ok := conn.Exec(if ids == None then None else Some(DeleteIds(conn.db, ids.value)));
      if !ok {
        ret := Abandon();
        return;
      }
      ok, clean := UpdateGroupCache(li);
      if !ok {
        ret := Abandon();
        return;
      }
      ok := conn.Commit();
      if !ok {
        ret := Abandon();
        return;
      }
      conn.SetJournal(true);
      ret := 0;
    }

    /** get_event_group_uids: the groups of one event, or of the events a condition selects, in the order SQLite happens
        to list them; none when the SELECT fails. */
    method GroupsOf(id: int, where_: Option<string>) returns (li: seq<Uid>, answered: bool)
      modifies conn`db, conn`autocommit
      ensures answered ==> conn.db == old(conn.db) && conn.autocommit == old(conn.autocommit)
      ensures answered && id > 0 ==> IsListing(li, GroupsOfId(conn.db, id))
      ensures answered && id <= 0 && where_.Some? ==>
                var condition := ReadCondition(where_.value, ";");
                condition.Some? && IsListing(li, HitGroups(conn.db, condition.value))
      ensures id <= 0 && where_.None? ==> answered && li == []
      ensures !answered ==> li == []
      ensures !answered ==> (conn.db == old(conn.db) && conn.autocommit == old(conn.autocommit)) || conn.autocommit
    {
      li, answered := [], true;
      if id > 0 {
        answered := conn.Ask();
        if answered {
          ghost var some := ListingExists(GroupsOfId(conn.db, id));
          li :| IsListing(li, GroupsOfId(conn.db, id));
        }
      } else if where_.Some? {
        var condition := ReadCondition(where_.value, ";");
        if condition == None {
          return [], false;
        }
        answered := conn.Ask();
        if answered {
          ghost var some := ListingExists(HitGroups(conn.db, condition.value));
          li :| IsListing(li, HitGroups(conn.db, condition.value));
        }
      }
    }

    /** delete_events, for a query prepared with the criteria cs. */
    method DeleteEvents(query: RTComElQuery, ghost cs: seq<Criterion>)
      returns (ok: bool, ghost li: seq<Uid>, ghost asked: bool, ghost clean: bool)
      requires AllAccepted(cs) && query.whereClause == MaybeWhere(cs)
      modifies conn
      ensures ok ==> cs != [] && old(conn.autocommit) && conn.autocommit
      ensures ok && asked && clean ==>
                var ps := ToPreds(cs);
                IsListing(li, HitGroups(old(conn.db), ps))
                    && DeleteAndRebuild(old(conn.db), HitIds(old(conn.db), ps), li) == Some(conn.db)
      ensures ok && asked && clean ==> Runs.Step(old(TheStore()), Runs.DeleteEvents(ToPreds(cs), li), TheStore())
      ensures ok && !asked ==>
                Runs.Step(old(TheStore()), Runs.DeleteBlind(HitIds(old(conn.db), ToPreds(cs))), TheStore())
      ensures cs != [] && !old(conn.autocommit) && old(conn.journal) ==> Undone(old(TheSession()), TheSession())
      ensures cs == [] ==> !ok && conn.db == old(conn.db) && conn.autocommit == old(conn.autocommit)
      ensures !ok && cs != [] ==> conn.autocommit
    {
      ok, li, asked, clean := false, [], false, false;
      if cs != [] { ConditionRead(cs); }
      if query.whereClause == None {
        return;
      }
      var where_ := query.whereClause.value;
      conn.SetJournal(false);
      var ret: int;
      var begun := conn.Begin();
      if !begun {
        ret := Abandon();
        return;
      }
      ret, li, asked, clean := EraseSelected(where_, ToPreds(cs));
      ok := ret == 0;
    }

    /** The statements of delete_events, for a WHERE text that reads as the predicates ps in either of them. */
    method EraseSelected(where_: string, ghost ps: seq<Pred>)
      returns (ret: int, ghost li: seq<Uid>, ghost asked: bool, ghost clean: bool)
      requires !conn.autocommit
      requires ReadCondition(where_, ";") == Some(ps) && ReadCondition(where_, ");") == Some(ps)
      modifies conn
      ensures ret == 0 ==> conn.autocommit
      ensures ret == 0 && asked && clean ==>
                && IsListing(li, HitGroups(old(conn.db), ps))
                && DeleteAndRebuild(old(conn.db), HitIds(old(conn.db), ps), li) == Some(conn.db)
      ensures ret == 0 && !asked ==> conn.db == DeleteIds(old(conn.db), HitIds(old(conn.db), ps))
      ensures ret != 0 ==> ret == -1 && conn.autocommit
    {
      var listed, answered := GroupsOf(-1, Some(where_));
      li, asked := listed, answered;
      var victims := ReadCondition(where_, ");");
      ret, clean := Erase(if victims == None then None else Some(HitIds(conn.db, victims.value)), listed);
    }

    /** delete_by_service. */
    method DeleteByService(service: string) returns (ok: bool)
      modifies conn
      ensures ok ==>
                var sid := IdOf(old(conn.db).services, service);
                && sid.Some? && old(conn.autocommit) && conn.autocommit
                && conn.db == DeleteService(old(conn.db), sid.value)
                && Runs.Step(old(TheStore()), Runs.DeleteByService(sid.value), TheStore())
      ensures IdOf(old(conn.db).services, service).None? ==>
                !ok && conn.db == old(conn.db) && conn.autocommit == old(conn.autocommit)
                    && conn.saved == old(conn.saved)
      ensures IdOf(old(conn.db).services, service).Some? && !ok ==> conn.autocommit
      ensures IdOf(old(conn.db).services, service).Some? && !old(conn.autocommit) && old(conn.journal) ==>
                Undone(old(TheSession()), TheSession())
    {
      var found := IdOf(conn.db.services, service);
      if found == None {
        return false;
      }
      var sid := found.value;
      var ret: int;
      conn.SetJournal(false);
      ok := conn.Begin();
      if ok {
        ok := conn.Exec(Some(DeleteIds(conn.db, ServiceIds(conn.db, sid))));
      }
      if ok {
        ok := conn.Exec(Some(conn.db.(cache := Filter(conn.db.cache, CachedElsewhere(sid)))));
      }
      if ok {
        ok := conn.Commit();
      }
      if !ok {
        ret := Abandon();
      } else {
        conn.SetJournal(true);
      }
    }

    /** delete_by_group_uids. */
    method DeleteByGroupUids(gs: seq<string>) returns (ok: bool)
      modifies conn
      ensures ok ==> old(conn.autocommit) && conn.autocommit && conn.db == DeleteGroups(old(conn.db), gs)
      ensures ok ==> Runs.Step(old(TheStore()), Runs.DeleteByGroups(gs), TheStore())
      ensures !old(conn.autocommit) && old(conn.journal) ==> Undone(old(TheSession()), TheSession())
      ensures !ok ==> conn.autocommit
    {
      var ret: int;
      conn.SetJournal(false);
      ok := conn.Begin();
      if !ok {
        ret := Abandon();
        return;
      }
      var i := 0;
      while i < |gs|
        invariant 0 <= i <= |gs| && !conn.autocommit && old(conn.autocommit)
        invariant conn.db == DeleteGroups(old(conn.db), gs[..i])
      {
        ok := conn.Exec(Some(DeleteIds(conn.db, GroupIds(conn.db, gs[i]))));
        if ok {
          ok := conn.Exec(Some(conn.db.(cache := Filter(conn.db.cache, NotGroup(gs[i])))));
        }
        if !ok {
          ret := Abandon();
          return;
        }
        assert gs[..i + 1][..i] == gs[..i];
        i := i + 1;
      }
      assert gs[..i] == gs;
      ok := conn.Commit();
      if !ok {
        ret := Abandon();
      } else {
        conn.SetJournal(true);
      }
    }

    /** delete_all: Events and what hangs on them, but not GroupCache. */
    method DeleteAll() returns (ok: bool)
      modifies conn
      ensures ok ==>
                old(conn.autocommit) && conn.autocommit && conn.db == DeleteIds(old(conn.db), Ids(old(conn.db).events))
      ensures ok ==> Runs.Step(old(TheStore()), Runs.DeleteAll, TheStore())
      ensures !old(conn.autocommit) && old(conn.journal) ==> Undone(old(TheSession()), TheSession())
      ensures !ok ==> conn.autocommit
    {
      var ret: int;
      conn.SetJournal(false);
      ok := conn.Begin();
      if ok {
        ok := conn.Exec(Some(DeleteIds(conn.db, Ids(conn.db.events))));
      }
      if ok {
        ok := conn.Commit();
      }
      if !ok {
        ret := Abandon();
      } else {
        conn.SetJournal(true);
      }
    }

    /** get_group_info. */
    method GetGroupInfo(g: string) returns (ok: bool, total: int, unread: int, flags: int)
      modifies conn`db, conn`autocommit
      ensures ok ==> conn.db == old(conn.db) && conn.autocommit == old(conn.autocommit)
      ensures ok ==> (total, unread, flags) == GroupInfo(conn.db, g)
      ensures !ok && conn.journal ==> conn.Unwound()
      ensures conn.journal ==> Advance(old(TheSession()), Look, TheSession())
    {
      total, unread, flags := 0, 0, 0;
      ok := conn.Ask();
      if ok {
        var info := GroupInfo(conn.db, g);
        total, unread, flags := info.0, info.1, info.2;
      }
    }

    /** The transaction of an atomic iterator, and the rows; none when a statement fails or nothing matches. */
    method Fetch(q: Query, atomic: bool) returns (rows: seq<Row>)
      modifies conn`db, conn`saved, conn`autocommit
      ensures rows != [] ==> conn.db == old(conn.db) && rows == Run(conn.db, q)
      ensures conn.journal ==>
                conn.db == old(conn.db) || (!old(conn.autocommit) && !atomic && conn.db == old(conn.saved))
      ensures atomic && rows != [] ==> old(conn.autocommit) && !conn.autocommit && conn.saved == conn.db
      ensures atomic && rows == [] ==> conn.autocommit == old(conn.autocommit)
      ensures !atomic && rows != [] ==> conn.autocommit == old(conn.autocommit)
      ensures conn.journal ==> Advance(old(TheSession()), if atomic then OpenIterator else Look, TheSession())
    {
      rows := [];
      if atomic {
        var begun := conn.Begin();
        if !begun {
          return;
        }
      }
      var answered := conn.Ask();
      rows := if answered then Run(conn.db, q) else [];
      if rows == [] && atomic {
        var undone := conn.Rollback();
      }
    }

    /** _get_events_core: an iterator on the first row, or nothing.  An atomic iterator keeps its transaction open. */
    method GetEvents(query: RTComElQuery, atomic: bool) returns (it: RTComElIter?)
      modifies conn`db, conn`saved, conn`autocommit
      ensures conn.journal ==>
                conn.db == old(conn.db) || (!old(conn.autocommit) && !atomic && conn.db == old(conn.saved))
      ensures conn.journal ==> Advance(old(TheSession()), if atomic then OpenIterator else Look, TheSession())
      ensures it != null ==>
                && fresh(it) && it.conn == conn && it.atomic == atomic && it.Positioned(0) && conn.db == old(conn.db)
                && query.sql.Some? && ReadSelect(query.template, query.sql.value).Some?
                && it.rows == Run(conn.db, ReadSelect(query.template, query.sql.value).value) && it.rows != []
      ensures atomic ==> (it != null ==> old(conn.autocommit) && !conn.autocommit && conn.saved == conn.db)
      ensures atomic && it == null ==> conn.autocommit == old(conn.autocommit)
      ensures !atomic && it != null ==> conn.autocommit == old(conn.autocommit)
    {
      it := null;
      if query.sql == None {
        return;
      }
      var compiled := ReadSelect(query.template, query.sql.value);
      var fault: bool := *;
      if compiled == None || fault {
        return;
      }
      var rows := Fetch(compiled.value, atomic);
      if rows == [] {
        return;
      }
      it := new RTComElIter(conn, rows, atomic);
    }
  }
}
