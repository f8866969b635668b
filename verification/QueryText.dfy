/** The full SELECT text a query object holds, and its reading by SQLite. */
module QueryText {
  import opened Seqs
  import opened Text
  import opened Fields
  import opened Criteria
  import opened Select

  /** The fixed parts of the text: the column list and the FROM tables of either kind of query. */
  datatype Template = Template(columns: string, cacheTables: string, eventTables: string) {
    /** The first letters tell the two FROM clauses apart. */
    predicate Apart() {
      cacheTables != "" && eventTables != "" && cacheTables[0] != eventTables[0]
    }

    function Head(): string {
      "SELECT " + columns + " FROM "
    }

    function Tables(fromCache: bool): string {
      if fromCache then cacheTables else eventTables
    }
  }

  type TwoTables = t: Template | t.Apart() witness Template("", "G", "E")

  /** JOIN table ON left = right. */
  function Join(table: string, left: string, right: string): string {
    "JOIN " + table + " ON " + Same(left, right)
  }

  function Same(left: string, right: string): string {
    left + " = " + right
  }

  function Joins(): string {
    Join("EventTypes", "Events.event_type_id", "EventTypes.id") + " LEFT " +
    Join("Remotes", "Events.remote_uid", "Remotes.remote_uid") + " AND " +
        Same("Events.local_uid", "Remotes.local_uid") +
    " LEFT " + Join("Headers", "Headers.event_id", "Events.id") + " AND " + Same("Headers.name", "'message-token'")
  }

  /** The columns in the order of the fields table, and unique_remote after them. */
  function Selection(cols: seq<Col>): string {
    Concat(seq(|cols|, i requires 0 <= i < |cols| => ColumnText(cols[i]) + ", ")) + UniqueRemoteText()
  }

  function Concat(parts: seq<string>): string {
    if parts == [] then "" else parts[0] + Concat(parts[1..])
  }

  function UniqueRemoteText(): string {
    " CASE " + "abook_uid " + "IS NOT NULL " + "WHEN 1 THEN " + "('ab:' || " + "abook_uid) " + "ELSE " + "('lr:' || " +
    "Events.local_uid" + " || ';' || " + "Events.remote_uid" + ") END " + "AS unique_remote "
  }

  function CacheTables(): string {
    "GroupCache" + " " + Join("Events", "GroupCache.event_id", "Events.id") + " " +
    Join("Services", "GroupCache.service_id", "Services.id") + " " + Joins()
  }

  function EventTables(): string {
    "Events" + " " + Join("Services", "Events.service_id", "Services.id") + " " + Joins()
  }

  /** The library's own text. */
  function LibraryTemplate(): TwoTables {
    Template(Selection(Columns()), CacheTables(), EventTables())
  }

  function WherePart(where_: Option<string>): string {
    match where_ case None => "" case Some(w) => " WHERE " + w
  }

  function GroupPart(g: Grouping): string {
    match g
    case ByContact => " GROUP BY " + "unique_remote"
    case ByUids => " GROUP BY " + "Remotes.local_uid, Remotes.remote_uid"
    case _ => ""
  }

  function OrderPart(g: Grouping): string {
    if g in {ByContact, ByUids} then " ORDER BY " + "MAX(Events.id) DESC LIMIT "
    else " ORDER BY " + "Events.id DESC LIMIT "
  }

  function LimitPart(limit: int, offset: int): string {
    PrintInt(limit) + (" OFFSET " + (PrintInt(offset) + ";"))
  }

  /** rtcom_el_query_refresh: the text, given its fixed parts. */
  function SelectText(t: Template, g: Grouping, where_: Option<string>, limit: int, offset: int): string {
    t.Head() + t.Tables(g == ByGroup) +
    WherePart(where_) + GroupPart(g) + OrderPart(g) + LimitPart(limit, offset)
  }

  /* ---- reading it back ---- */

  /** The text after prefix p, if s starts with p. */
  function After(p: string, s: string): (r: Option<string>)
  {
    if p <= s then Some(s[|p|..]) else None
  }

  function ReadWhere(s: string): Parsed<seq<Pred>> {
    match After(" WHERE ", s)
    case None => Got([], s)
    case Some(t) => ParseWhere(t)
  }

  /** A WHERE text followed by the given end of statement. */
  function ReadCondition(where_: string, end: string): Option<seq<Pred>> {
    match ParseWhere(where_ + end)
    case Fail => None
    case Got(ps, rest) => if rest == end then Some(ps) else None
  }

  lemma {:induction false} ConditionRead(cs: seq<Criterion>)
    requires cs != [] && AllAccepted(cs)
    ensures WhereText(cs).Some?
    ensures ReadCondition(WhereText(cs).value, ";") == Some(ToPreds(cs))
    ensures ReadCondition(WhereText(cs).value, ");") == Some(ToPreds(cs))
  {
    assert !(AND <= ";") && !(AND <= ");");
    WhereRead(cs, ";");
    WhereRead(cs, ");");
  }

  function ReadGroup(s: string): (Grouping, string) {
    match After(" GROUP BY " + "unique_remote", s)
    case Some(t) => (ByContact, t)
    case None =>
      match After(" GROUP BY " + "Remotes.local_uid, Remotes.remote_uid", s)
      case Some(t) => (ByUids, t)
      case None => (ByNone, s)
  }

  function ReadLimit(s: string): Option<(int, int)> {
    match ParseInt(s)
    case Fail => None
    case Got(limit, s1) =>
      match After(" OFFSET ", s1)
      case None => None
      case Some(s2) =>
        match ParseInt(s2)
        case Fail => None
        case Got(offset, s3) => if s3 == ";" then Some((limit, offset)) else None
  }

  /** The ordering that goes with a grouping: newest first. */
  function Newest(g: Grouping): string {
    " ORDER BY " + (if g == ByNone then "Events.id" else "MAX(Events.id)") + " DESC LIMIT "
  }

  /** Everything after the FROM tables.  Ordering by MAX goes with grouping, plain ordering with no grouping. */
  function ReadTail(fromCache: bool, s: string): Option<Query> {
    match ReadWhere(s)
    case Fail => None
    case Got(ps, s1) =>
      var (g, s2) := ReadGroup(s1);
      match After(Newest(g), s2)
      case None => None
      case Some(s3) =>
        if fromCache && g != ByNone then None
        else
          match ReadLimit(s3)
          case None => None
          case Some((limit, offset)) => Some(Query(if fromCache then ByGroup else g, ps, limit, offset))
  }

  /** SQLite's reading of a query text. */
  function ReadSelect(t: Template, s: string): Option<Query> {
    match After(t.Head(), s)
    case None => None
    case Some(s') =>
      match After(t.cacheTables, s')
      case Some(u) => ReadTail(true, u)
      case None => match After(t.eventTables, s') case Some(u) => ReadTail(false, u) case None => None
  }

  lemma AfterPrefix(p: string, s: string)
    ensures After(p, p + s) == Some(s)
  {
    assert (p + s)[|p|..] == s;
  }

  lemma AfterOther(p: string, s: string, k: nat)
    requires k < |p| && k < |s| && p[k] != s[k]
    ensures After(p, s) == None
  {
  }

  lemma LimitRead(limit: int, offset: int)
    ensures ReadLimit(LimitPart(limit, offset)) == Some((limit, offset))
  {
    var s2 := PrintInt(offset) + ";";
    ParsePrinted(limit, " OFFSET " + s2);
    AfterPrefix(" OFFSET ", s2);
    ParsePrinted(offset, ";");
  }

  lemma NewestIs(g: Grouping)
    ensures Newest(if g == ByGroup then ByNone else g) == OrderPart(g)
  {
  }

  lemma GroupRead(g: Grouping, s: string)
    ensures var t := OrderPart(g) + s;
            var read := if g == ByGroup then ByNone else g;
            ReadGroup(GroupPart(g) + t) == (read, t) && After(Newest(read), t) == Some(s)
  {
    var t := OrderPart(g) + s;
    AfterPrefix(OrderPart(g), s);
    NewestIs(g);
    match g
    case ByContact => AfterPrefix(GroupPart(g), t);
    case ByUids =>
      AfterPrefix(GroupPart(g), t);
      AfterOther(" GROUP BY " + "unique_remote", GroupPart(g) + t, 10);
    case _ =>
      assert GroupPart(g) + t == t;
      AfterOther(" GROUP BY " + "unique_remote", t, 1);
      AfterOther(" GROUP BY " + "Remotes.local_uid, Remotes.remote_uid", t, 1);
  }

  /** What follows the WHERE clause. */
  function Rest(g: Grouping, limit: int, offset: int): string {
    GroupPart(g) + (OrderPart(g) + LimitPart(limit, offset))
  }

  lemma {:induction false} TailFrom(g: Grouping, ps: seq<Pred>, s: string, limit: int, offset: int)
    requires ReadWhere(s) == Got(ps, Rest(g, limit, offset))
    ensures ReadTail(g == ByGroup, s) == Some(Query(g, ps, limit, offset))
  {
    GroupRead(g, LimitPart(limit, offset));
    LimitRead(limit, offset);
  }

  lemma NotPrefix(p: string, s: string, k: nat)
    requires k < |p| && k < |s| && p[k] != s[k]
    ensures !(p <= s)
  {
  }

  /** What follows the WHERE clause starts with " G" or " O". */
  lemma RestStart(g: Grouping, limit: int, offset: int)
    ensures var rest := Rest(g, limit, offset);
            |rest| > 2 && rest[0] == ' ' && rest[1] == (if g in {ByContact, ByUids} then 'G' else 'O') && !(AND <= rest)
  {
    var rest := Rest(g, limit, offset);
    assert AND[1] == 'A';
    NotPrefix(AND, rest, 1);
  }

  lemma WhereAbsent(g: Grouping, limit: int, offset: int)
    ensures ReadWhere(WherePart(None) + Rest(g, limit, offset)) == Got([], Rest(g, limit, offset))
  {
    var rest := Rest(g, limit, offset);
    RestStart(g, limit, offset);
    assert WherePart(None) + rest == rest;
    assert " WHERE "[1] == 'W';
    NotPrefix(" WHERE ", rest, 1);
  }

  lemma {:induction false} WherePresent(cs: seq<Criterion>, rest: string)
    requires cs != [] && AllAccepted(cs) && Follows(rest) && !(AND <= rest)
    ensures WhereText(cs).Some? && ReadWhere(WherePart(WhereText(cs)) + rest) == Got(ToPreds(cs), rest)
  {
    WhereRead(cs, rest);
    var w := WhereText(cs).value;
    assert WherePart(Some(w)) + rest == " WHERE " + (w + rest);
    AfterPrefix(" WHERE ", w + rest);
  }

  /** The WHERE text of a possibly empty list of accepted criteria. */
  function MaybeWhere(cs: seq<Criterion>): Option<string>
    requires AllAccepted(cs)
  {
    if cs == [] then None else WhereText(cs)
  }

  lemma {:induction false} TailRead(g: Grouping, cs: seq<Criterion>, limit: int, offset: int)
    requires AllAccepted(cs)
    ensures ReadTail(g == ByGroup, WherePart(MaybeWhere(cs)) + Rest(g, limit, offset)) ==
            Some(Query(g, ToPreds(cs), limit, offset))
  {
    var rest := Rest(g, limit, offset);
    RestStart(g, limit, offset);
    if cs == [] {
      WhereAbsent(g, limit, offset);
    } else {
      WherePresent(cs, rest);
    }
    TailFrom(g, ToPreds(cs), WherePart(MaybeWhere(cs)) + rest, limit, offset);
  }

  lemma FromRead(t: Template, fromCache: bool, tail: string)
    requires t.Apart()
    ensures ReadSelect(t, t.Head() + (t.Tables(fromCache) + tail)) == ReadTail(fromCache, tail)
  {
    AfterPrefix(t.Head(), t.Tables(fromCache) + tail);
    AfterPrefix(t.Tables(fromCache), tail);
    if !fromCache { NotPrefix(t.cacheTables, t.eventTables + tail, 0); }
  }

  /** The text compiled for any criteria, grouping, limit and offset is read by SQLite as exactly that query. */
  lemma {:induction false} SelectRead(t: Template, g: Grouping, cs: seq<Criterion>, limit: int, offset: int)
    requires AllAccepted(cs) && t.Apart()
    ensures ReadSelect(t, SelectText(t, g, MaybeWhere(cs), limit, offset)) == Some(Query(g, ToPreds(cs), limit, offset))
  {
    TailRead(g, cs, limit, offset);
    FromRead(t, g == ByGroup, WherePart(MaybeWhere(cs)) + Rest(g, limit, offset));
    var where_ := WherePart(MaybeWhere(cs));
    Regroup(t.Head() + t.Tables(g == ByGroup) + where_, GroupPart(g), OrderPart(g), LimitPart(limit, offset));
    Regroup(t.Head(), t.Tables(g == ByGroup), where_, Rest(g, limit, offset));
  }

  /* ---- the FROM clauses, join by join ---- */

  /** JOIN or LEFT JOIN of a table on equal columns. */
  datatype JoinOn = JoinOn(optional: bool, table: string, on: seq<(string, string)>)

  function Equalities(on: seq<(string, string)>): string {
    if on == [] then ""
    else if |on| == 1 then Same(on[0].0, on[0].1)
    else Same(on[0].0, on[0].1) + " AND " + Equalities(on[1..])
  }

  function JoinText(j: JoinOn): string {
    (if j.optional then " LEFT " else " ") + ("JOIN " + j.table + " ON " + Equalities(j.on))
  }

  function FromText(first: string, joins: seq<JoinOn>): string {
    if joins == [] then first else FromText(first, joins[..|joins| - 1]) + JoinText(Last(joins))
  }

  /** The joins that both kinds of query end with. */
  function Partners(): seq<JoinOn> {
    [JoinOn(false, "EventTypes", [("Events.event_type_id", "EventTypes.id")]),
     JoinOn(true, "Remotes", [("Events.remote_uid", "Remotes.remote_uid"), ("Events.local_uid", "Remotes.local_uid")]),
     JoinOn(true, "Headers", [("Headers.event_id", "Events.id"), ("Headers.name", "'message-token'")])]
  }

  lemma TwoEqualities(a: string, b: string, c: string, d: string)
    ensures Equalities([(a, b), (c, d)]) == Same(a, b) + " AND " + Same(c, d)
  {
    assert [(a, b), (c, d)][1..] == [(c, d)];
  }

  lemma {:induction false} FromStep(first: string, joins: seq<JoinOn>, j: JoinOn)
    ensures FromText(first, joins + [j]) == FromText(first, joins) + JoinText(j)
  {
    assert (joins + [j])[..|joins|] == joins;
  }

  lemma JoinWords(optional: bool, table: string, a: string, b: string)
    ensures JoinText(JoinOn(optional, table, [(a, b)])) == (if optional then " LEFT " else " ") + Join(table, a, b)
  {
  }

  lemma TwoJoinWords(table: string, a: string, b: string, c: string, d: string)
    ensures JoinText(JoinOn(true, table, [(a, b), (c, d)])) == " LEFT " + (Join(table, a, b) + " AND " + Same(c, d))
  {
    TwoEqualities(a, b, c, d);
    Regroup("JOIN " + table + " ON ", Same(a, b), " AND ", Same(c, d));
  }

  lemma {:induction false} ThreeMore(first: string, joins: seq<JoinOn>, a: JoinOn, b: JoinOn, c: JoinOn)
    ensures FromText(first, joins + [a, b, c]) == FromText(first, joins) + JoinText(a) + JoinText(b) + JoinText(c)
  {
    FromStep(first, joins, a);
    FromStep(first, joins + [a], b);
    FromStep(first, joins + [a, b], c);
    assert joins + [a] + [b] == joins + [a, b] && joins + [a, b] + [c] == joins + [a, b, c];
  }

  lemma Pieces(e: string, t: string, r: string, r2: string, h: string, h2: string)
    ensures e + " " + (t + " LEFT " + r + " AND " + r2 + " LEFT " + h + " AND " + h2) ==
            e + (" " + t) + (" LEFT " + (r + " AND " + r2)) + (" LEFT " + (h + " AND " + h2))
  {
  }

  lemma {:induction false} PartnersRead(first: string, joins: seq<JoinOn>)
    ensures FromText(first, joins + Partners()) == FromText(first, joins) + " " + Joins()
  {
    var p := Partners();
    ThreeMore(first, joins, p[0], p[1], p[2]);
    JoinWords(false, "EventTypes", "Events.event_type_id", "EventTypes.id");
    TwoJoinWords("Remotes", "Events.remote_uid", "Remotes.remote_uid", "Events.local_uid", "Remotes.local_uid");
    TwoJoinWords("Headers", "Headers.event_id", "Events.id", "Headers.name", "'message-token'");
    Pieces(FromText(first, joins), Join("EventTypes", "Events.event_type_id", "EventTypes.id"),
           Join("Remotes", "Events.remote_uid", "Remotes.remote_uid"), Same("Events.local_uid", "Remotes.local_uid"),
           Join("Headers", "Headers.event_id", "Events.id"), Same("Headers.name", "'message-token'"));
  }

  /** The FROM clause over Events joins services and types, and, where there are any, the contact with both uids and the
      message-token header. */
  lemma EventTablesRead()
    ensures EventTables() == FromText("Events", [JoinOn(false, "Services", [("Events.service_id", "Services.id")])] +
            Partners())
  {
    var services := JoinOn(false, "Services", [("Events.service_id", "Services.id")]);
    PartnersRead("Events", [services]);
    FromStep("Events", [], services);
    assert [] + [services] == [services];
    JoinWords(false, "Services", "Events.service_id", "Services.id");
    Regroup("Events", " ", Join("Services", "Events.service_id", "Services.id"), "");
  }

  /** The one over GroupCache first joins the newest event of each group, and takes the service from the cache. */
  lemma CacheTablesRead()
    ensures CacheTables() ==
            FromText("GroupCache", [JoinOn(false, "Events", [("GroupCache.event_id", "Events.id")]),
                                    JoinOn(false, "Services", [("GroupCache.service_id", "Services.id")])] + Partners())
  {
    var events := JoinOn(false, "Events", [("GroupCache.event_id", "Events.id")]);
    var services := JoinOn(false, "Services", [("GroupCache.service_id", "Services.id")]);
    PartnersRead("GroupCache", [events, services]);
    FromStep("GroupCache", [], events);
    FromStep("GroupCache", [events], services);
    assert [] + [events] == [events] && [events] + [services] == [events, services];
    JoinWords(false, "Events", "GroupCache.event_id", "Events.id");
    JoinWords(false, "Services", "GroupCache.service_id", "Services.id");
    Regroup("GroupCache", " ", Join("Events", "GroupCache.event_id", "Events.id"), "");
    Regroup("GroupCache" + " " + Join("Events", "GroupCache.event_id", "Events.id"), " ",
            Join("Services", "GroupCache.service_id", "Services.id"), "");
  }
}
