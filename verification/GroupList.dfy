/** The list of conversations that update_group_cache pastes into its SQL. */
module GroupList {
  import opened Seqs
  import opened Text
  import Criteria

  type Uid = Option<string>

  /** The list-building loop: each non-NULL uid is quoted without escaping, and followed by a comma unless it is
      the last element of the list. */
  function ListText(li: seq<Uid>): string {
    if li == [] then ""
    else
      (match li[0]
       case None => ""
       case Some(u) => "'" + u + "'" + if |li| > 1 then "," else "") + ListText(li[1..])
  }

  function RebuildTail(): string {
    ") GROUP BY " + "group_uid;"
  }

  /** What must follow the list for one summary per group. */
  function ByGroupUid(): string {
    " GROUP BY " + "group_uid" + ";"
  }

  lemma TailIs()
    ensures RebuildTail() == ")" + ByGroupUid()
  {
  }

  /** SQLite's reading of the statement, from the opening parenthesis of IN on: the uids, if it is well formed. */
  function ReadRebuild(s: string): Option<seq<string>> {
    match ParseList(s)
    case Fail => None
    case Got(uids, rest) => if rest == ByGroupUid() then Some(uids) else None
  }

  function NonNull(li: seq<Uid>): seq<string> {
    if li == [] then []
    else (match li[0] case None => [] case Some(u) => [u]) + NonNull(li[1..])
  }

  /** The library's own assumption: no group uid contains a quote. */
  predicate QuoteFree(li: seq<Uid>) {
    forall u :: u in li && u.Some? ==> '\'' !in u.value
  }

  predicate AllNull(li: seq<Uid>) {
    forall u :: u in li ==> u.None?
  }

  lemma {:induction false} AllNullText(li: seq<Uid>)
    requires AllNull(li)
    ensures ListText(li) == "" && NonNull(li) == []
  {
    if li != [] {
      assert li[0] in li;
      AllNullText(li[1..]);
    }
  }

  lemma UidRead(u: string, rest: string)
    requires '\'' !in u && !StartsWith(rest, '\'')
    ensures var s := "'" + u + "'" + rest; StartsWith(s, '\'') && Unquote(s[1..]) == Got(u, rest)
  {
    Criteria.EscapePlain(u);
    UnquoteEscape(u, rest);
    var body := u + "'" + rest;
    assert "'" + u + "'" + rest == "'" + body && ("'" + body)[1..] == body;
  }

  /** One uid and the closing parenthesis. */
  lemma {:induction false} LastUid(u: string, t: string)
    requires '\'' !in u
    ensures ParseItems("'" + u + "'" + (")" + t)) == Got([u], t)
  {
    UidRead(u, ")" + t);
    assert SkipSpaces(")" + t) == ")" + t && (")" + t)[1..] == t;
  }

  /** One uid, a comma, and more. */
  lemma {:induction false} NextUid(u: string, more: string)
    requires '\'' !in u
    ensures ParseItems("'" + u + "'" + ("," + more)) ==
            match ParseItems(more) case Fail => Fail case Got(vs, rest) => Got([u] + vs, rest)
  {
    UidRead(u, "," + more);
    assert SkipSpaces("," + more) == "," + more && ("," + more)[1..] == more;
  }

  lemma {:induction false} SingleRead(u: string, t: string)
    requires '\'' !in u
    ensures ParseItems(ListText([Some(u)]) + (")" + t)) == Got([u], t) && NonNull([Some(u)]) == [u]
  {
    var li := [Some(u)];
    assert ListText(li[1..]) == "" && NonNull(li[1..]) == [];
    assert ListText(li) == "'" + u + "'";
    LastUid(u, t);
  }

  lemma {:induction false} ItemsRead(li: seq<Uid>, t: string)
    requires QuoteFree(li) && !AllNull(li)
    ensures ParseItems(ListText(li) + (")" + t)) == if Last(li).Some? then Got(NonNull(li), t) else Fail
  {
    var end := ")" + t;
    var tail := li[1..];
    assert li == [li[0]] + tail;
    if li[0] == None {
      assert ListText(li) == ListText(tail) && NonNull(li) == NonNull(tail);
      ItemsRead(tail, t);
    } else if |li| == 1 {
      assert li == [Some(li[0].value)];
      SingleRead(li[0].value, t);
    } else {
      var u := li[0].value;
      var more := ListText(tail) + end;
      Regroup("'" + u + "'", ",", ListText(tail), end);
      NextUid(u, more);
      if AllNull(tail) {
        AllNullText(tail);
        assert Last(li) in tail;
        assert more == end;
      } else {
        ItemsRead(tail, t);
      }
    }
  }

  /** The statement is well formed, and lists exactly the non-NULL uids, if and only if the last element of the list is
      non-NULL or every element is NULL. */
  lemma {:induction false} RebuildRead(li: seq<Uid>)
    requires QuoteFree(li) && li != []
    ensures ReadRebuild(ListText(li) + RebuildTail()) ==
            if Last(li).Some? || AllNull(li) then Some(NonNull(li)) else None
  {
    var t := ByGroupUid();
    TailIs();
    var s := ListText(li) + RebuildTail();
    if AllNull(li) {
      AllNullText(li);
      assert s == ")" + t && s[1..] == t;
    } else {
      ItemsRead(li, t);
      ListStart(li);
      assert s[0] == '\'';
    }
  }

  lemma {:induction false} ListStart(li: seq<Uid>)
    requires !AllNull(li)
    ensures ListText(li) != "" && ListText(li)[0] == '\''
  {
    assert li == [li[0]] + li[1..];
    if li[0] == None { ListStart(li[1..]); }
  }

  lemma {:induction false} NonNullIn(li: seq<Uid>, u: string)
    ensures u in NonNull(li) <==> Some(u) in li
  {
    if li != [] {
      assert li == [li[0]] + li[1..];
      NonNullIn(li[1..], u);
    }
  }
}
