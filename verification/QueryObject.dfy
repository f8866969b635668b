/** RTComElQuery: the object that compiles criteria to SQL. */
module QueryObject {
  import opened Seqs
  import opened Text
  import opened Criteria
  import opened Select
  import opened QueryText

  class RTComElQuery {
    /** The fixed parts of the text. */
    const template: TwoTables
    var limit: int
    var offset: int
    var groupBy: Grouping
    var whereClause: Option<string>
    var sql: Option<string>

    constructor ()
      ensures template == LibraryTemplate()
      ensures limit == -1 && offset == 0 && groupBy == ByNone
      ensures whereClause == None && sql == None
    {
      template := LibraryTemplate();
      limit, offset, groupBy := -1, 0, ByNone;
      whereClause, sql := None, None;
    }

    /** SQLite reads the text as the query with the current properties and these criteria. */
    ghost predicate Asks(cs: seq<Criterion>)
      requires AllAccepted(cs)
      reads this
    {
      sql.Some? && ReadSelect(template, sql.value) == Some(Query.Query(groupBy, ToPreds(cs), limit, offset))
    }

    /** refresh, also after the properties changed: the text asks for the criteria prepared last under the properties of
        now. */
    method Refresh(ghost cs: seq<Criterion>) returns (ok: bool)
      requires AllAccepted(cs) && whereClause == MaybeWhere(cs)
      modifies this`sql
      ensures ok && Asks(cs)
    {
      var text := UpToGrouping();
      if groupBy == ByContact || groupBy == ByUids {
        text := text + (" ORDER BY " + "MAX(Events.id) DESC LIMIT ");
      } else {
        text := text + (" ORDER BY " + "Events.id DESC LIMIT ");
      }
      text := text + (PrintInt(limit) + (" OFFSET " + (PrintInt(offset) + ";")));
      sql := Some(text);
      ok := true;
      SelectRead(template, groupBy, cs, limit, offset);
    }

    /** The first part of the text: conversations are read from the cache, everything else from Events. */
    method UpToGrouping() returns (text: string)
      ensures text == template.Head() + template.Tables(groupBy == ByGroup) + WherePart(whereClause) +
              GroupPart(groupBy)
    {
      text := template.Head();
      if groupBy == ByGroup {
        text := text + template.cacheTables;
      } else {
        text := text + template.eventTables;
      }
      if whereClause.Some? {
        text := text + (" WHERE " + whereClause.value);
      }
      NothingMore(text);
      if groupBy == ByContact {
        text := text + (" GROUP BY " + "unique_remote");
      } else if groupBy == ByUids {
        text := text + (" GROUP BY " + "Remotes.local_uid, Remotes.remote_uid");
      }
    }

    /** prepare: succeeds exactly when every criterion is acceptable, and then SQLite reads the text as exactly the
        query asked for; on failure both texts are gone. */
    method Prepare(cs: seq<Criterion>) returns (ok: bool)
      requires AllTyped(cs)
      modifies this`sql, this`whereClause
      ensures ok <==> AllAccepted(cs)
      ensures ok ==> whereClause == MaybeWhere(cs) && Asks(cs)
      ensures !ok ==> whereClause == None && sql == None
    {
      whereClause := None;
      if cs != [] {
        whereClause := BuildWhere(cs);
        if whereClause == None {
          sql := None;
          return false;
        }
      }
      ok := Refresh(cs);
    }
  }

  /** The loop of prepare: one clause at a time into a buffer, giving up at the first refused criterion. */
  method BuildWhere(cs: seq<Criterion>) returns (text: Option<string>)
    requires cs != [] && AllTyped(cs)
    ensures text.Some? <==> AllAccepted(cs)
    ensures text.Some? ==> text == WhereText(cs)
  {
    var buf, i := "", 0;
    while i < |cs|
      invariant 0 <= i <= |cs|
      invariant AcceptedUpTo(cs, i)
      invariant buf == Buffered(cs, i)
    {
      var clause := ClauseText(cs[i]);
      if clause == None {
        Refused(cs, i);
        return None;
      }
      BufferedStep(cs, i);
      buf := buf + clause.value;
      i := i + 1;
      if i < |cs| {
        buf := buf + " AND ";
      }
    }
    BufferedWhole(cs);
    text := Some(buf);
  }

  ghost predicate HoldsUpTo<T>(s: seq<T>, p: T -> bool, i: nat)
    requires i <= |s|
  {
    i == 0 || (p(s[i - 1]) && HoldsUpTo(s, p, i - 1))
  }

  lemma {:induction false} HoldsAll<T>(s: seq<T>, p: T -> bool, i: nat)
    requires i <= |s|
    ensures HoldsUpTo(s, p, i) <==> forall j :: 0 <= j < i ==> p(s[j])
  {
    if i > 0 {
      HoldsAll(s, p, i - 1);
    }
  }

  ghost predicate AcceptedUpTo(cs: seq<Criterion>, i: nat)
    requires i <= |cs|
  {
    HoldsUpTo(cs, Accepted, i)
  }

  lemma AcceptedAll(cs: seq<Criterion>, i: nat)
    requires i <= |cs|
    ensures AcceptedUpTo(cs, i) <==> forall j :: 0 <= j < i ==> Accepted(cs[j])
  {
    HoldsAll(cs, Accepted, i);
  }

  lemma Refused(cs: seq<Criterion>, i: nat)
    requires i < |cs| && WellTyped(cs[i]) && ClauseText(cs[i]).None?
    ensures !AllAccepted(cs)
  {
    assert !Accepted(cs[i]);
  }

  lemma BufferedStep(cs: seq<Criterion>, i: nat)
    requires i < |cs| && AcceptedUpTo(cs, i) && WellTyped(cs[i]) && ClauseText(cs[i]).Some?
    ensures AcceptedUpTo(cs, i + 1)
    ensures Buffered(cs, i + 1) == Buffered(cs, i) + ClauseText(cs[i]).value + if i + 1 < |cs| then " AND " else ""
  {
  }

  /** The buffer after i clauses, with a separator behind each that has a successor. */
  ghost function Buffered(cs: seq<Criterion>, i: nat): string
    requires i <= |cs| && AcceptedUpTo(cs, i)
  {
    if i == 0 then ""
    else
      var withClause := Buffered(cs, i - 1) + ClauseText(cs[i - 1]).value;
      if i < |cs| then withClause + " AND " else withClause
  }

  lemma {:induction false} BufferedPrefix(cs: seq<Criterion>, i: nat)
    requires i < |cs| && AllAccepted(cs)
    ensures AcceptedUpTo(cs, i) && WhereText(cs).Some? && WhereText(cs[i..]).Some?
    ensures WhereText(cs).value == Buffered(cs, i) + WhereText(cs[i..]).value
  {
    WhereTextExists(cs);
    WhereTextExists(cs[i..]);
    AcceptedAll(cs, i);
    if i == 0 {
      assert cs[0..] == cs;
    } else {
      BufferedPrefix(cs, i - 1);
      NextClause(cs, i);
      Regroup(Buffered(cs, i - 1), ClauseText(cs[i - 1]).value, " AND ", WhereText(cs[i..]).value);
    }
  }

  lemma NextClause(cs: seq<Criterion>, i: nat)
    requires 0 < i < |cs| && AllAccepted(cs)
    ensures WhereText(cs[i - 1..]).Some? && WhereText(cs[i..]).Some?
    ensures WhereText(cs[i - 1..]).value == ClauseText(cs[i - 1]).value + (" AND " + WhereText(cs[i..]).value)
  {
    var rest := cs[i - 1..];
    assert rest[0] == cs[i - 1] && rest[1..] == cs[i..];
    WhereCons(rest, "");
    assert forall a: string :: a + "" == a;
  }

  lemma {:induction false} BufferedWhole(cs: seq<Criterion>)
    requires cs != []
    ensures AcceptedUpTo(cs, |cs|) <==> AllAccepted(cs)
    ensures AllAccepted(cs) ==> WhereText(cs) == Some(Buffered(cs, |cs|))
  {
    AcceptedAll(cs, |cs|);
    if AllAccepted(cs) {
      var n := |cs| - 1;
      BufferedPrefix(cs, n);
      assert cs[n..] == [cs[n]];
      WhereSingle(cs[n..]);
    }
  }
}
