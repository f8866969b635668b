/** The library's write operations as functions on the database: what each leaves behind when every statement in it
    succeeds, and None when a statement must fail. */
module Operations {
  import opened Seqs
  import opened Tables
  import opened Statements
  import opened Text

  /** A field of RTComElEvent with its bit in the mask. */
  datatype Field<+T> = Unset | Set(value: T)

  type CString = Option<string>

  /** RTComElEvent. */
  datatype ElEvent = ElEvent(
    id: Field<int>, serviceId: Field<int>, eventTypeId: Field<int>,
    storageTime: Field<int>, startTime: Field<int>, endTime: Field<int>,
    isRead: Field<int>, outgoing: Field<int>, flags: Field<int>,
    bytesSent: Field<int>, bytesReceived: Field<int>,
    localUid: Field<CString>, localName: Field<CString>, remoteUid: Field<CString>, remoteName: Field<CString>,
    remoteEbookUid: Field<CString>, channel: Field<CString>, freeText: Field<CString>, groupUid: Field<CString>,
    service: Field<CString>, eventType: Field<CString>)

  function IntOf(f: Field<int>): int {
    if f.Unset? then 0 else f.value
  }

  function StringOf(f: Field<CString>): CString {
    if f.Unset? then None else f.value
  }

  /** The deprecated type names that old clients still send. */
  function Modernised(ev: ElEvent): ElEvent {
    match StringOf(ev.eventType)
    case None => ev
    case Some(t) =>
      if t == "RTCOM_EL_EVENTTYPE_CHAT_INBOUND" then ev.(eventType := Set(Some("RTCOM_EL_EVENTTYPE_CHAT_MESSAGE")))
      else if t == "RTCOM_EL_EVENTTYPE_CHAT_OUTBOUND" then
        ev.(eventType := Set(Some("RTCOM_EL_EVENTTYPE_CHAT_MESSAGE")), outgoing := Set(1))
      else if t == "RTCOM_EL_EVENTTYPE_SMS_INBOUND" then ev.(eventType := Set(Some("RTCOM_EL_EVENTTYPE_SMS_MESSAGE")))
      else if t == "RTCOM_EL_EVENTTYPE_SMS_OUTBOUND" then
        ev.(eventType := Set(Some("RTCOM_EL_EVENTTYPE_SMS_MESSAGE")), outgoing := Set(1))
      else ev
  }

  function IdNamed(t: seq<NameRow>, name: CString): Option<int> {
    match name case None => None case Some(n) => IdOf(t, n)
  }

  /** An event ready for insertion, with the ids of its service and type. */
  datatype Checked = Checked(ev: ElEvent, serviceId: int, typeId: int)

  /** _add_event_precheck. */
  function Precheck(db: Db, ev: ElEvent): Option<Checked> {
    if ev.service.Unset? || ev.eventType.Unset? || ev.localUid.Unset? then None
    else
      match IdNamed(db.services, ev.service.value)
      case None => None
      case Some(sid) =>
        var ev' := Modernised(ev);
        match IdNamed(db.eventTypes, StringOf(ev'.eventType))
        case None => None
        case Some(tid) => Some(Checked(ev', sid, tid))
  }

  /** The group uid remembered from event to event: a set field replaces it, an unset one leaves it. */
  function Remembered(last: CString, ev: ElEvent): CString {
    if ev.groupUid.Set? then ev.groupUid.value else last
  }

  /** The row _add_event_core inserts; its id is assigned by the table. */
  function NewRow(c: Checked, now: int, last: CString): Event {
    var ev := c.ev;
    Event(0, c.serviceId, c.typeId, now, IntOf(ev.startTime), IntOf(ev.endTime), IntOf(ev.isRead), IntOf(ev.outgoing),
          IntOf(ev.flags), IntOf(ev.bytesSent), IntOf(ev.bytesReceived), StringOf(ev.localUid), StringOf(ev.localName),
          StringOf(ev.remoteUid), StringOf(ev.channel), StringOf(ev.freeText), Remembered(last, ev))
  }

  predicate IsRemote(r: Remote, local: CString, remote: CString) {
    local == Some(r.localUid) && remote == Some(r.remoteUid)
  }

  function RemoteIs(local: CString, remote: CString): Remote -> bool {
    (r: Remote) => IsRemote(r, local, remote)
  }

  /** SELECT ... FROM Remotes WHERE remote_uid = remote AND local_uid = local: the last row seen. */
  function FindRemote(db: Db, local: CString, remote: CString): Option<Remote> {
    var found := Filter(db.remotes, RemoteIs(local, remote));
    if found == [] then None else Some(Last(found))
  }

  function InsertRemote(db: Db, local: CString, remote: CString, name: CString, abook: CString): Option<Db> {
    if local == None || remote == None || Filter(db.remotes, RemoteIs(local, remote)) != [] then None
    else Some(db.(remotes := db.remotes + [Remote(local.value, remote.value, name, abook)]))
  }

  function WithAbook(local: CString, remote: CString, abook: CString): Remote -> Remote {
    (r: Remote) => if IsRemote(r, local, remote) then r.(abookUid := abook) else r
  }

  function WithName(local: CString, remote: CString, name: CString): Remote -> Remote {
    (r: Remote) => if IsRemote(r, local, remote) then r.(name := name) else r
  }

  function UpdateAbook(db: Db, local: CString, remote: CString, abook: CString): Db {
    db.(remotes := Map(db.remotes, WithAbook(local, remote, abook)))
  }

  function UpdateName(db: Db, local: CString, remote: CString, name: CString): Db {
    db.(remotes := Map(db.remotes, WithName(local, remote, name)))
  }

  /** The contact part of _add_event_core.  `known` is the contact as found before the insert.  The fetch callback reads
      one column too far right: what it takes for the old address book id is the old name, and what it takes for the
      old name is always NULL. */
  function UpsertRemote(db: Db, ev: ElEvent, known: Option<Remote>): Option<Db> {
    var local, remote := StringOf(ev.localUid), StringOf(ev.remoteUid);
    var name, abook := StringOf(ev.remoteName), StringOf(ev.remoteEbookUid);
    if ev.remoteUid.Unset? then Some(db)
    else
      match known
      case None => InsertRemote(db, local, remote, name, abook)
      case Some(old_) =>
        var db1 := if abook != old_.name then UpdateAbook(db, local, remote, abook) else db;
        Some(if name != None then UpdateName(db1, local, remote, name) else db1)
  }

  function KnownRemote(db: Db, ev: ElEvent): Option<Remote> {
    if ev.remoteUid.Unset? then None else FindRemote(db, StringOf(ev.localUid), StringOf(ev.remoteUid))
  }

  /** _add_event_core. */
  function AddCore(db: Db, c: Checked, now: int, last: CString): Option<Db> {
    match InsertEvent(db, NewRow(c, now, last))
    case None => None
    case Some(db1) => UpsertRemote(db1, c.ev, KnownRemote(db, c.ev))
  }

  /** INSERT INTO Headers, under UNIQUE(event_id, name). */
  function InsertHeader(db: Db, id: int, name: string, value: CString): Option<Db> {
    if value == None || (exists h :: h in db.headers && h.eventId == id && h.name == name) then None
    else Some(db.(headers := db.headers + [Header(id, name, value.value)]))
  }

  /** An attachment to add: where the copy of the file ended up, None when copying failed. */
  datatype Attach = Attach(dest: CString, desc: CString)

  function InsertAttachment(db: Db, id: int, a: Attach): Option<Db> {
    match a.dest
    case None => None
    case Some(path) => Some(db.(attachments := db.attachments + [Attachment(id, path, a.desc)]))
  }

  function InsertAttachments(db: Db, id: int, atts: seq<Attach>): Option<Db> {
    if atts == [] then Some(db)
    else
      match InsertAttachments(db, id, atts[..|atts| - 1])
      case None => None
      case Some(db') => InsertAttachment(db', id, Last(atts))
  }

  function InsertHeaders(db: Db, id: int, hs: seq<(string, CString)>): Option<Db> {
    if hs == [] then Some(db)
    else
      match InsertHeaders(db, id, hs[..|hs| - 1])
      case None => None
      case Some(db') => InsertHeader(db', id, Last(hs).0, Last(hs).1)
  }

  /** add_event_full. */
  function AddFull(db: Db, c: Checked, now: int, last: CString, hs: seq<(string, CString)>,
      atts: seq<Attach>): Option<Db> {
    match AddCore(db, c, now, last)
    case None => None
    case Some(db1) =>
      match InsertAttachments(db1, NextId(db.events), atts)
      case None => None
      case Some(db2) => InsertHeaders(db2, NextId(db.events), hs)
  }

  /** One element of the list given to update_remote_contacts. */
  datatype Contact = Contact(localUid: CString, remoteUid: CString, name: CString, abookUid: CString)

  function UpdateContact(db: Db, c: Contact): Db {
    UpdateName(UpdateAbook(db, c.localUid, c.remoteUid, c.abookUid), c.localUid, c.remoteUid, c.name)
  }

  function UpdateContacts(db: Db, cs: seq<Contact>): Db {
    if cs == [] then db else UpdateContact(UpdateContacts(db, cs[..|cs| - 1]), Last(cs))
  }

  function WithoutAbook(uid: CString): Remote -> Remote {
    (r: Remote) => if r.abookUid.Some? && r.abookUid == uid then r.(abookUid := None) else r
  }

  function RemoveAbook(db: Db, uid: CString): Db {
    db.(remotes := Map(db.remotes, WithoutAbook(uid)))
  }

  function RemoveAbooks(db: Db, uids: seq<CString>): Db {
    if uids == [] then db else RemoveAbook(RemoveAbooks(db, uids[..|uids| - 1]), Last(uids))
  }

  function ServiceIds(db: Db, sid: int): set<int> {
    set e | e in db.events && e.serviceId == sid :: e.id
  }

  function GroupIds(db: Db, g: string): set<int> {
    set e | e in db.events && e.groupUid == Some(g) :: e.id
  }

  function DeleteService(db: Db, sid: int): Db {
    var db1 := DeleteIds(db, ServiceIds(db, sid));
    db1.(cache := Filter(db1.cache, CachedElsewhere(sid)))
  }

  function DeleteGroup(db: Db, g: string): Db {
    var db1 := DeleteIds(db, GroupIds(db, g));
    db1.(cache := Filter(db1.cache, NotGroup(g)))
  }

  function DeleteGroups(db: Db, gs: seq<string>): Db {
    if gs == [] then db else DeleteGroup(DeleteGroups(db, gs[..|gs| - 1]), Last(gs))
  }

  function SetReads(db: Db, ids: seq<int>, read: int): Db {
    if ids == [] then db else UpdateEvent(SetReads(db, ids[..|ids| - 1], read), Last(ids), SetRead(read))
  }

  lemma {:induction false} ReadsPush(db: Db, ids: seq<int>, i: nat, read: int)
    requires i < |ids|
    ensures SetReads(db, ids[..i + 1], read) == UpdateEvent(SetReads(db, ids[..i], read), ids[i], SetRead(read))
  {
    assert ids[..i + 1][..i] == ids[..i];
  }

  function SameGroup(g: string): CacheRow -> bool {
    (r: CacheRow) => r.groupUid == g
  }

  /** get_group_info: total, unread and flags from the last cached row of the group, zeros without one.  Columns are
      read as 32-bit integers, and the difference is one too. */
  function GroupInfo(db: Db, g: string): (int, int, int) {
    var found := Filter(db.cache, SameGroup(g));
    if found == [] then (0, 0, 0)
    else
      var r := Last(found);
      (Signed32(r.total), Signed32(Signed32(r.total) - Signed32(r.read)), Signed32(r.flags))
  }
}
