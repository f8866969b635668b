/** Query criteria, the WHERE text the library builds from them, and what that text means to SQLite. */
module Criteria {
  import opened Seqs
  import opened Text
  import opened Fields

  /** RTComElOp; Other stands for any integer outside the enumeration. */
  datatype Op = Equal | NotEqual | Greater | GreaterEqual | Less | LessEqual | InStrv | EndsWith | StrLike | Other

  /** The untyped pointer of a criterion: an integer, a C string or NULL, or a NULL-terminated string array. */
  datatype Operand = VInt(n: int) | VStr(s: Option<string>) | VStrv(ss: seq<string>)

  datatype Criterion = Criterion(key: string, operand: Operand, op: Op)

  /** What C demands of the caller: the pointer has the type that field and operator read it with. */
  predicate WellTyped(c: Criterion) {
    FieldOf(c.key).Some? ==> Suits(FieldOf(c.key).value, c.operand, c.op)
  }

  predicate AllTyped(cs: seq<Criterion>) {
    forall i :: 0 <= i < |cs| ==> WellTyped(cs[i])
  }

  predicate Suits(col: Col, operand: Operand, op: Op) {
    if KindOf(col) != TextKind then operand.VInt? else if op == InStrv then operand.VStrv? else operand.VStr?
  }

  /** _build_operator. */
  function OperatorText(op: Op): Option<string> {
    match op
    case Equal => Some("=")
    case NotEqual => Some("<>")
    case Greater => Some(">")
    case GreaterEqual => Some(">=")
    case Less => Some("<")
    case LessEqual => Some("<=")
    case _ => None
  }

  /** %q of a C string: sqlite3_mprintf prints NULL as (NULL). */
  function Shown(v: Option<string>): string {
    match v case None => "(NULL)" case Some(s) => s
  }

  /** The items of IN ( ... ), each followed by ',' or, for the last, ' '. */
  function ItemsText(vs: seq<string>): string {
    if vs == [] then ""
    else Quote(Some(vs[0])) + (if |vs| > 1 then "," else " ") + ItemsText(vs[1..])
  }

  /** _build_where_clause, once the field is known. */
  function ClauseFor(col: Col, operand: Operand, op: Op): Option<string>
    requires Suits(col, operand, op)
  {
    var name := ColumnText(col);
    match KindOf(col)
    case IntKind | BoolKind =>
      (match OperatorText(op)
       case None => None
       case Some(o) => Some(name + " " + o + " " + PrintInt(Signed32(operand.n))))
    case TextKind =>
      if op == StrLike then Some(name + " LIKE '%" + Escape(Shown(operand.s)) + "%'")
      else if op == InStrv then Some(name + " IN (" + ItemsText(operand.ss) + ")")
      else if op == EndsWith then Some(name + " LIKE '%" + Escape(Shown(operand.s)) + "'")
      else
        match OperatorText(op)
        case None => None
        case Some(o) => Some(name + " " + o + " " + Quote(operand.s))
  }

  /** _build_where_clause: the text appended for one criterion, or None when it is refused. */
  function ClauseText(c: Criterion): Option<string>
    requires WellTyped(c)
  {
    match FieldOf(c.key)
    case None => None
    case Some(col) => ClauseFor(col, c.operand, c.op)
  }

  /** The WHERE text of a non-empty list of criteria. */
  function WhereText(cs: seq<Criterion>): Option<string>
    requires cs != [] && AllTyped(cs)
  {
    match ClauseText(cs[0])
    case None => None
    case Some(t) =>
      if |cs| == 1 then Some(t)
      else
        match WhereText(cs[1..])
        case None => None
        case Some(rest) => Some(t + " AND " + rest)
  }

  lemma {:induction false} EscapePlain(v: string)
    requires '\'' !in v
    ensures Escape(v) == v
  {
    if v != [] {
      EscapePlain(v[1..]);
      assert [v[0]] + v[1..] == v;
    }
  }

  /* ---- SQLite's side: expressions, their parser and their value ---- */

  datatype Literal = LNull | LInt(n: int) | LText(s: string)

  datatype Pred =
    | Compare(col: Col, op: Op, lit: Literal)
    | IsIn(col: Col, items: seq<string>)
    | IsLike(col: Col, pattern: string)

  /** The text up to the next space. */
  function ParseWord(s: string): (r: Parsed<string>)
    ensures r.Got? ==> |r.rest| < |s|
  {
    if s == [] then Fail
    else if s[0] == ' ' then Got([], s[1..])
    else
      match ParseWord(s[1..])
      case Fail => Fail
      case Got(w, rest) => Got([s[0]] + w, rest)
  }

  function ParseLiteral(s: string): (r: Parsed<Literal>)
    ensures r.Got? ==> |r.rest| < |s|
  {
    if StartsWith(s, '\'') then
      match Unquote(s[1..]) case Fail => Fail case Got(v, rest) => Got(LText(v), rest)
    else if "NULL" <= s then Got(LNull, s[4..])
    else
      match ParseInt(s) case Fail => Fail case Got(n, rest) => Got(LInt(n), rest)
  }

  function OperatorNamed(w: string): Option<Op> {
    if w == "=" then Some(Equal)
    else if w == "<>" then Some(NotEqual)
    else if w == ">" then Some(Greater)
    else if w == ">=" then Some(GreaterEqual)
    else if w == "<" then Some(Less)
    else if w == "<=" then Some(LessEqual)
    else None
  }

  function ParsePred(s: string): (r: Parsed<Pred>)
    ensures r.Got? ==> |r.rest| < |s|
  {
    match ParseWord(s)
    case Fail => Fail
    case Got(name, s1) =>
      match ColumnNamed(name)
      case None => Fail
      case Some(col) =>
        match ParseWord(s1)
        case Fail => Fail
        case Got(w, s2) =>
          if w == "LIKE" then
            if !StartsWith(s2, '\'') then Fail
            else match Unquote(s2[1..]) case Fail => Fail case Got(p, rest) => Got(IsLike(col, p), rest)
          else if w == "IN" then
            if !StartsWith(s2, '(') then Fail
            else match ParseList(s2[1..]) case Fail => Fail case Got(vs, rest) => Got(IsIn(col, vs), rest)
          else
            match OperatorNamed(w)
            case None => Fail
            case Some(op) =>
              match ParseLiteral(s2) case Fail => Fail case Got(lit, rest) => Got(Compare(col, op, lit), rest)
  }

  const AND := " AND "

  /** A conjunction of one or more predicates, as far as it goes. */
  function ParseWhere(s: string): (r: Parsed<seq<Pred>>)
    ensures r.Got? ==> |r.rest| < |s|
    decreases |s|
  {
    match ParsePred(s)
    case Fail => Fail
    case Got(p, rest) =>
      if !(AND <= rest) then Got([p], rest)
      else
        match ParseWhere(rest[|AND|..])
        case Fail => Fail
        case Got(ps, rest') => Got([p] + ps, rest')
  }

  /** The predicate a criterion stands for. */
  function PredFor(col: Col, operand: Operand, op: Op): Pred
    requires Suits(col, operand, op)
  {
    if KindOf(col) != TextKind then Compare(col, op, LInt(Signed32(operand.n)))
    else if op == StrLike then IsLike(col, "%" + Shown(operand.s) + "%")
    else if op == InStrv then IsIn(col, operand.ss)
    else if op == EndsWith then IsLike(col, "%" + Shown(operand.s))
    else Compare(col, op, if operand.s.None? then LNull else LText(operand.s.value))
  }

  /** A NULL pattern is looked for as the text (NULL). */
  lemma NullPattern(col: Col)
    ensures KindOf(col) == TextKind ==> PredFor(col, VStr(None), StrLike) == IsLike(col, "%" + "(NULL)" + "%")
  {
  }

  function ToPred(c: Criterion): Pred
    requires WellTyped(c) && FieldOf(c.key).Some?
  {
    PredFor(FieldOf(c.key).value, c.operand, c.op)
  }

  /** Text that may follow a predicate. */
  predicate Follows(t: string) {
    t == [] || t[0] in {' ', ')', ';'}
  }

  lemma {:induction false} WordOf(w: string, rest: string)
    requires ' ' !in w
    ensures ParseWord(w + " " + rest) == Got(w, rest)
  {
    var s := w + " " + rest;
    if w == [] {
      assert s == " " + rest && s[1..] == rest;
    } else {
      WordOf(w[1..], rest);
      assert s[1..] == w[1..] + " " + rest;
      assert [w[0]] + w[1..] == w;
    }
  }

  /** A quoted value, seen from its opening quote. */
  lemma QuotedRead(v: string, rest: string)
    requires !StartsWith(rest, '\'')
    ensures var s := Quote(Some(v)) + rest; StartsWith(s, '\'') && Unquote(s[1..]) == Got(v, rest)
  {
    var body := Escape(v) + "'" + rest;
    UnquoteEscape(v, rest);
    Regroup("'", Escape(v), "'", rest);
    Regroup(Escape(v), "'", rest, "");
    assert ("'" + body)[1..] == body;
  }

  lemma {:induction false} LastItemRead(v: string, t: string)
    ensures ParseItems(Quote(Some(v)) + (" )" + t)) == Got([v], t)
  {
    var end := " )" + t;
    QuotedRead(v, end);
    assert end[1..] == ")" + t && end[1..][1..] == t;
    assert SkipSpaces(end[1..]) == end[1..];
  }

  lemma {:induction false} ItemRead(v: string, more: string, vs: seq<string>, t: string)
    requires ParseItems(more) == Got(vs, t)
    ensures ParseItems(Quote(Some(v)) + ("," + more)) == Got([v] + vs, t)
  {
    QuotedRead(v, "," + more);
    assert SkipSpaces("," + more) == "," + more && ("," + more)[1..] == more;
  }

  lemma {:induction false} ItemsCons(vs: seq<string>)
    requires vs != []
    ensures ItemsText(vs) == Quote(Some(vs[0])) + (if |vs| > 1 then "," else " ") + ItemsText(vs[1..])
  {
  }

  lemma OneItemRead(v: string, t: string)
    ensures ParseItems(ItemsText([v]) + (")" + t)) == Got([v], t)
  {
    LastItemRead(v, t);
    assert ItemsText([v]) == Quote(Some(v)) + " " by {
      ItemsCons([v]);
      NothingMore(Quote(Some(v)) + " ");
    }
    Regroup(Quote(Some(v)), " ", ")" + t, "");
    assert " " + (")" + t) == " )" + t;
  }

  lemma {:induction false} ItemsRead(vs: seq<string>, t: string)
    requires vs != []
    ensures ParseItems(ItemsText(vs) + (")" + t)) == Got(vs, t)
  {
    if |vs| > 1 {
      var q := Quote(Some(vs[0]));
      ItemsCons(vs);
      ItemsRead(vs[1..], t);
      ItemRead(vs[0], ItemsText(vs[1..]) + (")" + t), vs[1..], t);
      Regroup(q, ",", ItemsText(vs[1..]), ")" + t);
      assert [vs[0]] + vs[1..] == vs;
    } else {
      OneItemRead(vs[0], t);
      assert vs == [vs[0]];
    }
  }

  lemma {:induction false} ListRead(vs: seq<string>, t: string)
    ensures ParseList(ItemsText(vs) + ")" + t) == Got(vs, t)
  {
    var s := ItemsText(vs) + ")" + t;
    assert s == ItemsText(vs) + (")" + t);
    if vs == [] {
      assert s == ")" + t && s[1..] == t;
    } else {
      ItemsRead(vs, t);
      ItemsCons(vs);
      assert s[0] == '\'';
    }
  }

  lemma {:induction false} EscapeConcat(a: string, b: string)
    ensures Escape(a + b) == Escape(a) + Escape(b)
  {
    if a == [] {
      assert a + b == b;
    } else {
      assert (a + b)[1..] == a[1..] + b;
      EscapeConcat(a[1..], b);
    }
  }

  lemma OperatorWord(op: Op)
    requires OperatorText(op).Some?
    ensures var o := OperatorText(op).value; ' ' !in o && OperatorNamed(o) == Some(op) && o != "LIKE" && o != "IN"
  {
  }

  function LiteralText(lit: Literal): string {
    match lit
    case LNull => "NULL"
    case LInt(n) => PrintInt(n)
    case LText(s) => Quote(Some(s))
  }

  lemma LiteralRead(lit: Literal, t: string)
    requires Follows(t)
    ensures ParseLiteral(LiteralText(lit) + t) == Got(lit, t)
  {
    match lit
    case LNull => NullRead(t);
    case LInt(n) =>
      ParsePrinted(n, t);
      NotNull(PrintInt(n) + t);
    case LText(s) => QuotedRead(s, t);
  }

  lemma NullRead(t: string)
    ensures ParseLiteral("NULL" + t) == Got(LNull, t)
  {
    var s := "NULL" + t;
    assert s[0] == 'N' && "NULL" <= s && s[4..] == t;
  }

  lemma NotNull(s: string)
    requires s != [] && s[0] != 'N'
    ensures !("NULL" <= s)
  {
  }

  /** Column and operator words in front of an operand. */
  lemma {:induction false} HeadRead(col: Col, w: string, s: string)
    requires ' ' !in w
    ensures var text := ColumnText(col) + " " + w + " " + s;
            ParseWord(text) == Got(ColumnText(col), w + " " + s) && ParseWord(w + " " + s) == Got(w, s)
            && ColumnNamed(ColumnText(col)) == Some(col)
  {
    ColumnSignature(col);
    ColumnNamedText(col);
    WordOf(ColumnText(col), w + " " + s);
    assert ColumnText(col) + " " + w + " " + s == ColumnText(col) + " " + (w + " " + s);
    WordOf(w, s);
  }

  lemma CompareRead(col: Col, op: Op, lit: Literal, text: string, t: string)
    requires OperatorText(op).Some? && Follows(t)
    requires text == LiteralText(lit)
    ensures ParsePred(ColumnText(col) + " " + OperatorText(op).value + " " + text + t) == Got(Compare(col, op, lit), t)
  {
    var o := OperatorText(op).value;
    OperatorWord(op);
    HeadRead(col, o, text + t);
    LiteralRead(lit, t);
    assert ColumnText(col) + " " + o + " " + text + t == ColumnText(col) + " " + o + " " + (text + t);
  }

  /** A predicate's text up to its operand, whatever operator word introduces it. */
  lemma LikeWordRead(col: Col, p: string, t: string)
    requires Follows(t)
    ensures ParsePred(ColumnText(col) + " " + "LIKE" + " " + (Quote(Some(p)) + t)) == Got(IsLike(col, p), t)
  {
    HeadRead(col, "LIKE", Quote(Some(p)) + t);
    QuotedRead(p, t);
  }

  lemma {:induction false} EscapePattern(v: string, tail: string)
    requires tail == "" || tail == "%"
    ensures Escape("%" + v + tail) == "%" + Escape(v) + tail
  {
    EscapeConcat("%" + v, tail);
    EscapeConcat("%", v);
    assert Escape("") == "" && Escape("%") == "%" by { assert "%"[1..] == ""; }
  }

  lemma {:induction false} LikeRead(col: Col, v: string, tail: string, t: string)
    requires Follows(t) && (tail == "" || tail == "%")
    ensures ParsePred(ColumnText(col) + " LIKE '%" + Escape(v) + tail + "'" + t) == Got(IsLike(col, "%" + v + tail), t)
  {
    EscapePattern(v, tail);
    LikeWordRead(col, "%" + v + tail, t);
    LikeShape(ColumnText(col), Escape(v), tail, t);
  }

  /** The same text, cut at the operand. */
  lemma LikeShape(name: string, e: string, tail: string, t: string)
    ensures name + " LIKE '%" + e + tail + "'" + t == name + " " + "LIKE" + " " + ("'" + ("%" + e + tail) + "'" + t)
  {
  }

  lemma InShape(name: string, items: string, t: string)
    ensures name + " IN (" + items + ")" + t == name + " " + "IN" + " " + ("(" + items + ")" + t)
    ensures ("(" + items + ")" + t)[1..] == items + ")" + t
  {
  }

  lemma {:induction false} InRead(col: Col, vs: seq<string>, t: string)
    ensures ParsePred(ColumnText(col) + " IN (" + ItemsText(vs) + ")" + t) == Got(IsIn(col, vs), t)
  {
    InShape(ColumnText(col), ItemsText(vs), t);
    HeadRead(col, "IN", "(" + ItemsText(vs) + ")" + t);
    ListRead(vs, t);
  }

  lemma PatternClauseRead(col: Col, operand: Operand, op: Op, t: string)
    requires Suits(col, operand, op) && KindOf(col) == TextKind && op in {EndsWith, StrLike} && Follows(t)
    ensures ParsePred(ClauseFor(col, operand, op).value + t) == Got(PredFor(col, operand, op), t)
  {
    var v := Shown(operand.s);
    var head := ColumnText(col) + " LIKE '%" + Escape(v);
    if op == StrLike {
      LikeRead(col, v, "%", t);
      assert head + "%" + "'" == head + "%'";
    } else {
      LikeRead(col, v, "", t);
      assert head + "" == head && "%" + v + "" == "%" + v;
    }
  }

  lemma TextClauseRead(col: Col, operand: Operand, op: Op, t: string)
    requires Suits(col, operand, op) && KindOf(col) == TextKind && ClauseFor(col, operand, op).Some? && Follows(t)
    ensures ParsePred(ClauseFor(col, operand, op).value + t) == Got(PredFor(col, operand, op), t)
  {
    if op in {EndsWith, StrLike} {
      PatternClauseRead(col, operand, op, t);
    } else if op == InStrv {
      InRead(col, operand.ss, t);
    } else {
      CompareRead(col, op, if operand.s.None? then LNull else LText(operand.s.value), Quote(operand.s), t);
    }
  }

  /** One criterion's text reads back as the predicate it stands for. */
  lemma ClauseRead(col: Col, operand: Operand, op: Op, t: string)
    requires Suits(col, operand, op) && ClauseFor(col, operand, op).Some? && Follows(t)
    ensures ParsePred(ClauseFor(col, operand, op).value + t) == Got(PredFor(col, operand, op), t)
  {
    if KindOf(col) == TextKind {
      TextClauseRead(col, operand, op, t);
    } else {
      var n := Signed32(operand.n);
      CompareRead(col, op, LInt(n), PrintInt(n), t);
    }
  }

  /** A criterion that prepare accepts. */
  predicate Accepted(c: Criterion) {
    FieldOf(c.key).Some? && WellTyped(c) && ClauseText(c).Some?
  }

  predicate AllAccepted(cs: seq<Criterion>) {
    forall i :: 0 <= i < |cs| ==> Accepted(cs[i])
  }

  function ToPreds(cs: seq<Criterion>): seq<Pred>
    requires AllAccepted(cs)
  {
    if cs == [] then [] else [ToPred(cs[0])] + ToPreds(cs[1..])
  }

  /** prepare succeeds exactly when no criterion is refused. */
  lemma {:induction false} WhereTextExists(cs: seq<Criterion>)
    requires cs != [] && AllTyped(cs)
    ensures WhereText(cs).Some? <==> AllAccepted(cs)
  {
    assert AllAccepted(cs) <==> Accepted(cs[0]) && AllAccepted(cs[1..]) by {
      assert forall i :: 1 <= i < |cs| ==> cs[i] == cs[1..][i - 1];
    }
    if |cs| > 1 { WhereTextExists(cs[1..]); }
  }

  lemma {:induction false} WhereCons(cs: seq<Criterion>, t: string)
    requires |cs| > 1 && AllAccepted(cs)
    ensures WhereText(cs).Some? && WhereText(cs[1..]).Some?
    ensures WhereText(cs).value + t == ClauseText(cs[0]).value + (AND + (WhereText(cs[1..]).value + t))
    ensures ToPreds(cs) == [ToPred(cs[0])] + ToPreds(cs[1..])
  {
    WhereTextExists(cs);
    WhereTextExists(cs[1..]);
    Regroup(ClauseText(cs[0]).value, AND, WhereText(cs[1..]).value, t);
  }

  lemma AcceptedRead(c: Criterion, t: string)
    requires Accepted(c) && Follows(t)
    ensures ParsePred(ClauseText(c).value + t) == Got(ToPred(c), t)
  {
    ClauseRead(FieldOf(c.key).value, c.operand, c.op, t);
  }

  lemma {:induction false} WhereSingle(cs: seq<Criterion>)
    requires |cs| == 1 && AllAccepted(cs)
    ensures WhereText(cs) == ClauseText(cs[0]) && ToPreds(cs) == [ToPred(cs[0])]
  {
    assert ToPreds(cs[1..]) == [];
  }

  lemma {:induction false} SingleRead(c: Criterion, t: string)
    requires Accepted(c) && Follows(t) && !(AND <= t)
    ensures ParseWhere(ClauseText(c).value + t) == Got([ToPred(c)], t)
  {
    AcceptedRead(c, t);
    LastRead(ClauseText(c).value + t, ToPred(c), t);
  }

  /** The WHERE text of any list of criteria, whatever the strings in it, reads back as the conjunction of exactly the
      predicates the criteria stand for, in order. */
  lemma {:induction false} WhereRead(cs: seq<Criterion>, t: string)
    requires cs != [] && AllAccepted(cs)
    requires Follows(t) && !(AND <= t)
    ensures WhereText(cs).Some? && ParseWhere(WhereText(cs).value + t) == Got(ToPreds(cs), t)
  {
    if |cs| == 1 {
      WhereSingle(cs);
      SingleRead(cs[0], t);
    } else {
      WhereCons(cs, t);
      WhereRead(cs[1..], t);
      var more := WhereText(cs[1..]).value + t;
      AcceptedRead(cs[0], AND + more);
      ConjunctionRead(ClauseText(cs[0]).value + (AND + more), ToPred(cs[0]), more, ToPreds(cs[1..]), t);
    }
  }

  lemma {:induction false} LastRead(s: string, p: Pred, t: string)
    requires ParsePred(s) == Got(p, t) && !(AND <= t)
    ensures ParseWhere(s) == Got([p], t)
  {
  }

  lemma {:induction false} ConjunctionRead(s: string, p: Pred, more: string, ps: seq<Pred>, t: string)
    ensures ParsePred(s) == Got(p, AND + more) && ParseWhere(more) == Got(ps, t) ==> ParseWhere(s) == Got([p] + ps, t)
  {
    assert AND <= AND + more && (AND + more)[|AND|..] == more;
  }

  /* ---- what the text means ---- */

  /** Byte order of text, as SQLite's BINARY collation has it. */
  predicate TextLess(a: string, b: string) {
    b != [] && (a == [] || a[0] < b[0] || (a[0] == b[0] && TextLess(a[1..], b[1..])))
  }

  /** A comparison, given whether its operands are equal and whether the left one is less. */
  predicate Holds(op: Op, equal: bool, less: bool) {
    match op
    case Equal => equal
    case NotEqual => !equal
    case Greater => !equal && !less
    case GreaterEqual => !less
    case Less => less
    case LessEqual => equal || less
    case _ => false
  }

  /** SQL's three-valued logic; None is NULL. */
  type Truth = Option<bool>

  function Eval(p: Pred, row: Row): Truth {
    match p
    case Compare(col, op, lit) =>
      (match (Value(row, col), lit)
       case (Int(a), LInt(b)) => Some(Holds(op, a == b, a < b))
       case (Text(a), LText(b)) => Some(Holds(op, a == b, TextLess(a, b)))
       case _ => None)
    case IsIn(col, items) =>
      (match Value(row, col)
       case Text(a) => Some(a in items)
       case _ => if items == [] then Some(false) else None)
    case IsLike(col, pattern) =>
      match Value(row, col)
      case Text(a) => Some(Like(pattern, a))
      case _ => None
  }

  function And3(a: Truth, b: Truth): Truth {
    if a == Some(false) || b == Some(false) then Some(false)
    else if a == None || b == None then None
    else Some(true)
  }

  function EvalAll(ps: seq<Pred>, row: Row): Truth {
    if ps == [] then Some(true) else And3(Eval(ps[0], row), EvalAll(ps[1..], row))
  }

  /** WHERE keeps the rows on which the condition is true, neither false nor NULL. */
  function Passes(ps: seq<Pred>): Row -> bool {
    (row: Row) => EvalAll(ps, row) == Some(true)
  }

  /** At position k text a first falls behind text b: it ends there, or has a smaller character. */
  predicate FallsBehind(a: string, b: string, k: int) {
    0 <= k <= |a| && k < |b| && a[..k] == b[..k] && (k == |a| || a[k] < b[k])
  }

  /** Text a comes before text b. */
  predicate Before(a: string, b: string) {
    exists k :: 0 <= k <= |a| && FallsBehind(a, b, k)
  }

  lemma HeadsAgree(a: string, b: string, k: int)
    ensures FallsBehind(a, b, k) && k > 0 ==> a[0] == b[0]
  {
    if FallsBehind(a, b, k) && k > 0 { assert a[..k][0] == b[..k][0]; }
  }

  lemma {:induction false} TextLessIsBefore(a: string, b: string)
    ensures TextLess(a, b) <==> Before(a, b)
  {
    if a == [] || b == [] || a[0] != b[0] {
      if TextLess(a, b) { assert FallsBehind(a, b, 0); }
      if k :| FallsBehind(a, b, k) { HeadsAgree(a, b, k); }
    } else {
      TextLessIsBefore(a[1..], b[1..]);
      if k :| FallsBehind(a[1..], b[1..], k) {
        assert a[..k + 1] == [a[0]] + a[1..][..k] && b[..k + 1] == [b[0]] + b[1..][..k];
        assert FallsBehind(a, b, k + 1);
      }
      if k :| FallsBehind(a, b, k) {
        assert k > 0 && a[1..][..k - 1] == a[..k][1..] && b[1..][..k - 1] == b[..k][1..];
        assert FallsBehind(a[1..], b[1..], k - 1);
      }
    }
  }

  lemma {:induction false} TextLessTotal(a: string, b: string)
    ensures !TextLess(a, a)
    ensures a != b ==> (TextLess(a, b) <==> !TextLess(b, a))
    ensures a == b ==> !TextLess(a, b)
  {
    if a != [] { TextLessTotal(a[1..], if b == [] then [] else b[1..]); }
    if a != [] && b != [] && a[0] == b[0] && a[1..] == b[1..] {
      assert a == [a[0]] + a[1..] && b == [b[0]] + b[1..];
    }
  }

  lemma {:induction false} TextLessTransitive(a: string, b: string, c: string)
    requires TextLess(a, b) && TextLess(b, c)
    ensures TextLess(a, c)
  {
    if a != [] && a[0] == b[0] == c[0] { TextLessTransitive(a[1..], b[1..], c[1..]); }
  }

  /** The order of texts is a strict total order in which the beginning of a text comes before the text. */
  lemma TextOrder(a: string, b: string, c: string)
    ensures !Before(a, a)
    ensures a != b ==> (Before(a, b) <==> !Before(b, a))
    ensures Before(a, b) && Before(b, c) ==> Before(a, c)
    ensures a <= b && a != b ==> Before(a, b)
  {
    TextLessIsBefore(a, a);
    TextLessIsBefore(a, b);
    TextLessIsBefore(b, a);
    TextLessIsBefore(b, c);
    TextLessIsBefore(a, c);
    TextLessTotal(a, b);
    if TextLess(a, b) && TextLess(b, c) { TextLessTransitive(a, b, c); }
    if a <= b && a != b { assert FallsBehind(a, b, |a|); }
  }

  /** What the comparison operators ask of an integer. */
  predicate IntMeets(op: Op, a: int, n: int) {
    match op
    case Equal => a == n
    case NotEqual => a != n
    case Greater => a > n
    case GreaterEqual => a >= n
    case Less => a < n
    case LessEqual => a <= n
    case _ => false
  }

  /** What they ask of a text. */
  predicate TextMeets(op: Op, a: string, v: string) {
    match op
    case Equal => a == v
    case NotEqual => a != v
    case Greater => Before(v, a)
    case GreaterEqual => a == v || Before(v, a)
    case Less => Before(a, v)
    case LessEqual => a == v || Before(a, v)
    case _ => false
  }

  lemma {:induction false} TextHolds(op: Op, a: string, v: string)
    ensures Holds(op, a == v, TextLess(a, v)) <==> TextMeets(op, a, v)
  {
    TextLessIsBefore(a, v);
    TextLessIsBefore(v, a);
    TextLessTotal(a, v);
  }

  /** What a criterion asks of an event, in the terms of the query interface.  A missing value meets nothing. */
  predicate Meets(c: Criterion, row: Row)
    requires FieldOf(c.key).Some? && WellTyped(c)
  {
    match (Value(row, FieldOf(c.key).value), c.operand)
    case (Int(a), VInt(n)) => IntMeets(c.op, a, Signed32(n))
    case (Text(a), VStrv(ss)) => a in ss
    case (Text(a), VStr(v)) =>
      if c.op == EndsWith then HasSuffix(a, Shown(v))
      else if c.op == StrLike then Contains(a, Shown(v))
      else v.Some? && TextMeets(c.op, a, v.value)
    case _ => false
  }

  /** A pattern operand has no LIKE wildcard in it. */
  predicate NoWildcards(c: Criterion) {
    c.operand.VStr? && c.op in {EndsWith, StrLike} ==> Plain(Shown(c.operand.s))
  }

  lemma EvalMeets(c: Criterion, row: Row)
    requires Accepted(c) && NoWildcards(c)
    ensures Eval(ToPred(c), row) == Some(true) <==> Meets(c, row)
  {
    var col := FieldOf(c.key).value;
    if KindOf(col) == TextKind && Value(row, col).Text? && c.operand.VStr? {
      var a, v := Value(row, col).s, Shown(c.operand.s);
      if c.op == EndsWith { LikeSuffix(v, a); }
      if c.op == StrLike { LikeContains(v, a); }
      TextHolds(c.op, a, v);
    }
  }

  /** The six operators on an integer column, one by one, for operands of 32 bits. */
  lemma OperatorsMean(c: Criterion, row: Row, a: int)
    requires Accepted(c) && Value(row, FieldOf(c.key).value) == Int(a)
    requires c.operand.VInt? && -0x8000_0000 <= c.operand.n < 0x8000_0000
    ensures var shown, n := Eval(ToPred(c), row) == Some(true), c.operand.n;
            && (c.op == Equal ==> (shown <==> a == n)) && (c.op == NotEqual ==> (shown <==> a != n))
            && (c.op == Greater ==> (shown <==> a > n)) && (c.op == GreaterEqual ==> (shown <==> a >= n))
            && (c.op == Less ==> (shown <==> a < n)) && (c.op == LessEqual ==> (shown <==> a <= n))
  {
    EvalMeets(c, row);
  }

  predicate MeetsAll(cs: seq<Criterion>, row: Row)
    requires AllAccepted(cs)
  {
    cs == [] || (Meets(cs[0], row) && MeetsAll(cs[1..], row))
  }

  /** Reading a compiled list and evaluating it on a row is the conjunction of the criteria. */
  lemma {:induction false} WhereMeans(cs: seq<Criterion>, row: Row)
    requires AllAccepted(cs) && forall i :: 0 <= i < |cs| ==> NoWildcards(cs[i])
    ensures EvalAll(ToPreds(cs), row) == Some(true) <==> MeetsAll(cs, row)
  {
    if cs != [] {
      EvalMeets(cs[0], row);
      WhereMeans(cs[1..], row);
    }
  }

  /** The criterion a predicate is most simply the text of. */
  function Recover(p: Pred): (Col, Operand, Op) {
    match p
    case Compare(col, op, LInt(n)) => (col, VInt(n), op)
    case Compare(col, op, LText(s)) => (col, VStr(Some(s)), op)
    case Compare(col, op, LNull) => (col, VStr(None), op)
    case IsIn(col, vs) => (col, VStrv(vs), InStrv)
    case IsLike(col, p) =>
      if |p| >= 2 && Last(p) == '%' then (col, VStr(Some(p[1..|p| - 1])), StrLike)
      else (col, VStr(Some(if p == [] then [] else p[1..])), EndsWith)
  }

  /** A compiled criterion can be told from its text, except: an integer outside 32 bits, a NULL pattern, and an
      ENDS_WITH value that itself ends in %, whose text is that of a LIKE. */
  lemma RecoverExactly(col: Col, operand: Operand, op: Op)
    requires Suits(col, operand, op) && ClauseFor(col, operand, op).Some?
    ensures Recover(PredFor(col, operand, op)) == (col, operand, op) <==>
            && (operand.VInt? ==> -0x8000_0000 <= operand.n < 0x8000_0000)
            && (op in {EndsWith, StrLike} ==> operand.s.Some?)
            && (op == EndsWith ==> operand.s.value == [] || Last(operand.s.value) != '%')
  {
    if KindOf(col) != TextKind {
      NumberRecovered(col, operand.n, op);
    } else if op == EndsWith {
      PatternRecovered(col, Shown(operand.s));
    } else if op == StrLike {
      PatternRecovered(col, Shown(operand.s));
    } else {
      TextRecovered(col, operand, op);
    }
  }

  lemma TextRecovered(col: Col, operand: Operand, op: Op)
    requires KindOf(col) == TextKind && op != EndsWith && op != StrLike && Suits(col, operand, op)
    ensures Recover(PredFor(col, operand, op)) == (col, operand, op)
  {
  }

  lemma NumberRecovered(col: Col, n: int, op: Op)
    requires KindOf(col) != TextKind && OperatorText(op).Some?
    ensures Recover(PredFor(col, VInt(n), op)) == (col, VInt(n), op) <==> -0x8000_0000 <= n < 0x8000_0000
  {
  }

  lemma PatternRecovered(col: Col, v: string)
    ensures Recover(IsLike(col, "%" + v + "%")) == (col, VStr(Some(v)), StrLike)
    ensures Recover(IsLike(col, "%" + v)) == (col, VStr(Some(v)), EndsWith) <==> v == [] || Last(v) != '%'
  {
    assert ("%" + v + "%")[1..|v| + 1] == v;
    assert ("%" + v)[1..] == v;
    assert v != [] ==> Last("%" + v) == Last(v);
  }
}
