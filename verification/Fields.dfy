/** The fields table: API field names, their types and SQL columns, and the value of each column in a result row. */
module Fields {
  import opened Seqs
  import opened Tables

  datatype Col =
    | Service | EventType | Id | ServiceId | EventTypeId | StorageTime | StartTime | EndTime | FlagBits | IsRead
    | BytesSent | BytesReceived | LocalUid | LocalName | GroupUid | RemoteEbookUid | RemoteUid | RemoteName
    | MessageToken | Channel | Outgoing | FreeText

  datatype Kind = IntKind | BoolKind | TextKind

  /** API name of a column. */
  function FieldName(c: Col): string {
    match c
    case Service => "service"
    case EventType => "event-type"
    case Id => "id"
    case ServiceId => "service-id"
    case EventTypeId => "event-type-id"
    case StorageTime => "storage-time"
    case StartTime => "start-time"
    case EndTime => "end-time"
    case FlagBits => "flags"
    case IsRead => "is-read"
    case BytesSent => "bytes-sent"
    case BytesReceived => "bytes-received"
    case LocalUid => "local-uid"
    case LocalName => "local-name"
    case GroupUid => "group-uid"
    case RemoteEbookUid => "remote-ebook-uid"
    case RemoteUid => "remote-uid"
    case RemoteName => "remote-name"
    case MessageToken => "message-token"
    case Channel => "channel"
    case Outgoing => "outgoing"
    case FreeText => "free-text"
  }

  /** Length and first two letters, which tell the field names apart. */
  function NameSignature(c: Col): (nat, char, char) {
    match c
    case Service => (7, 's', 'e')
    case EventType => (10, 'e', 'v')
    case Id => (2, 'i', 'd')
    case ServiceId => (10, 's', 'e')
    case EventTypeId => (13, 'e', 'v')
    case StorageTime => (12, 's', 't')
    case StartTime => (10, 's', 't')
    case EndTime => (8, 'e', 'n')
    case FlagBits => (5, 'f', 'l')
    case IsRead => (7, 'i', 's')
    case BytesSent => (10, 'b', 'y')
    case BytesReceived => (14, 'b', 'y')
    case LocalUid => (9, 'l', 'o')
    case LocalName => (10, 'l', 'o')
    case GroupUid => (9, 'g', 'r')
    case RemoteEbookUid => (16, 'r', 'e')
    case RemoteUid => (10, 'r', 'e')
    case RemoteName => (11, 'r', 'e')
    case MessageToken => (13, 'm', 'e')
    case Channel => (7, 'c', 'h')
    case Outgoing => (8, 'o', 'u')
    case FreeText => (9, 'f', 'r')
  }

  lemma NameHasSignature(c: Col)
    ensures var t := FieldName(c); |t| == NameSignature(c).0 && t[0] == NameSignature(c).1 && t[1] == NameSignature(c).2
  {
  }

  lemma SameNameSignature(c: Col, d: Col)
    requires NameSignature(c) == NameSignature(d)
    ensures c == d
  {
  }

  lemma FieldNamesDiffer()
    ensures forall c, d :: FieldName(c) == FieldName(d) ==> c == d
  {
    forall c, d | FieldName(c) == FieldName(d) ensures c == d {
      NameHasSignature(c);
      NameHasSignature(d);
      SameNameSignature(c, d);
    }
  }

  /** Lookup in the name-to-column mapping; None for an unknown name. */
  function FieldOf(key: string): Option<Col> {
    FieldNamesDiffer();
    if c :| FieldName(c) == key then Some(c) else None
  }

  lemma FieldOfName(c: Col)
    ensures FieldOf(FieldName(c)) == Some(c)
  {
    FieldNamesDiffer();
  }

  function KindOf(c: Col): Kind {
    match c
    case IsRead | Outgoing => BoolKind
    case Id | ServiceId | EventTypeId | StorageTime | StartTime | EndTime | FlagBits | BytesSent
        | BytesReceived => IntKind
    case _ => TextKind
  }

  function ColumnText(c: Col): string {
    match c
    case Service => "Services.name"
    case EventType => "EventTypes.name"
    case Id => "Events.id"
    case ServiceId => "Events.service_id"
    case EventTypeId => "Events.event_type_id"
    case StorageTime => "Events.storage_time"
    case StartTime => "Events.start_time"
    case EndTime => "Events.end_time"
    case FlagBits => "Events.flags"
    case IsRead => "Events.is_read"
    case BytesSent => "Events.bytes_sent"
    case BytesReceived => "Events.bytes_received"
    case LocalUid => "Events.local_uid"
    case LocalName => "Events.local_name"
    case GroupUid => "Events.group_uid"
    case RemoteEbookUid => "Remotes.abook_uid"
    case RemoteUid => "Remotes.remote_uid"
    case RemoteName => "Remotes.remote_name"
    case MessageToken => "Headers.value"
    case Channel => "Events.channel"
    case Outgoing => "Events.outgoing"
    case FreeText => "Events.free_text"
  }

  /** Length and two letters that tell the column names apart. */
  function Signature(c: Col): (nat, char, char) {
    match c
    case Service => (13, 's', '.')
    case EventType => (15, 'p', 'e')
    case Id => (9, 'i', 'd')
    case ServiceId => (17, 's', 'e')
    case EventTypeId => (20, 'e', 'v')
    case StorageTime => (19, 's', 't')
    case StartTime => (17, 's', 't')
    case EndTime => (15, 'e', 'n')
    case FlagBits => (12, 'f', 'l')
    case IsRead => (14, 'i', 's')
    case BytesSent => (17, 'b', 'y')
    case BytesReceived => (21, 'b', 'y')
    case LocalUid => (16, 'l', 'o')
    case LocalName => (17, 'l', 'o')
    case GroupUid => (16, 'g', 'r')
    case RemoteEbookUid => (17, '.', 'a')
    case RemoteUid => (18, '.', 'r')
    case RemoteName => (19, '.', 'r')
    case MessageToken => (13, '.', 'v')
    case Channel => (14, 'c', 'h')
    case Outgoing => (15, 'o', 'u')
    case FreeText => (16, 'f', 'r')
  }

  lemma ColumnSignature(c: Col)
    ensures var t := ColumnText(c);
            |t| == Signature(c).0 && t[7] == Signature(c).1 && t[8] == Signature(c).2 && ' ' !in t
  {
  }

  lemma SameSignature(c: Col, d: Col)
    requires Signature(c) == Signature(d)
    ensures c == d
  {
  }

  lemma ColumnsDiffer()
    ensures forall c, d :: ColumnText(c) == ColumnText(d) ==> c == d
  {
    forall c, d | ColumnText(c) == ColumnText(d) ensures c == d {
      ColumnSignature(c);
      ColumnSignature(d);
      SameSignature(c, d);
    }
  }

  /** The column a name in SQL text denotes. */
  function ColumnNamed(t: string): Option<Col> {
    ColumnsDiffer();
    if c :| ColumnText(c) == t then Some(c) else None
  }

  lemma ColumnNamedText(c: Col)
    ensures ColumnNamed(ColumnText(c)) == Some(c)
  {
    ColumnsDiffer();
  }

  /** The order of the columns in every result. */
  function Columns(): seq<Col> {
    [Service, EventType, Id, ServiceId, EventTypeId, StorageTime, StartTime, EndTime, FlagBits, IsRead,
     BytesSent, BytesReceived, LocalUid, LocalName, GroupUid, RemoteEbookUid, RemoteUid, RemoteName,
     MessageToken, Channel, Outgoing, FreeText]
  }

  datatype SqlValue = Null | Int(n: int) | Text(s: string)

  /** A row of the five-way join: the event, its service and type names, and what the two LEFT JOINs found. */
  datatype Row = Row(event: Event, service: string, eventType: string, remote: Option<Remote>, token: Option<string>)

  function TextOrNull(s: Option<string>): SqlValue {
    match s case None => Null case Some(t) => Text(t)
  }

  function Value(r: Row, c: Col): SqlValue {
    match c
    case Service => Text(r.service)
    case EventType => Text(r.eventType)
    case Id => Int(r.event.id)
    case ServiceId => Int(r.event.serviceId)
    case EventTypeId => Int(r.event.typeId)
    case StorageTime => Int(r.event.storageTime)
    case StartTime => Int(r.event.startTime)
    case EndTime => Int(r.event.endTime)
    case FlagBits => Int(r.event.flags)
    case IsRead => Int(r.event.isRead)
    case BytesSent => Int(r.event.bytesSent)
    case BytesReceived => Int(r.event.bytesReceived)
    case LocalUid => TextOrNull(r.event.localUid)
    case LocalName => TextOrNull(r.event.localName)
    case GroupUid => TextOrNull(r.event.groupUid)
    case RemoteEbookUid => if r.remote.None? then Null else TextOrNull(r.remote.value.abookUid)
    case RemoteUid => if r.remote.None? then Null else Text(r.remote.value.remoteUid)
    case RemoteName => if r.remote.None? then Null else TextOrNull(r.remote.value.name)
    case MessageToken => TextOrNull(r.token)
    case Channel => TextOrNull(r.event.channel)
    case Outgoing => Int(r.event.outgoing)
    case FreeText => TextOrNull(r.event.freeText)
  }

  /** Integer and boolean fields hold integers, text fields texts or NULL. */
  lemma KindIsValue(r: Row, c: Col)
    ensures Value(r, c).Int? <==> KindOf(c) != TextKind
    ensures KindOf(c) == BoolKind <==> c == IsRead || c == Outgoing
  {
  }
}
