/** SQL text, at the level of single tokens: quoting, integers, literal lists and LIKE patterns.  Printers follow the
    library and the sqlite3_mprintf conversions it uses; parsers follow SQLite's lexical rules. */
module Text {
  import opened Seqs

  /** A parse either fails or yields a value and the text after it. */
  datatype Parsed<+T> = Fail | Got(value: T, rest: string)

  /** sqlite3_mprintf's %q: every quote is doubled. */
  function Escape(v: string): string {
    if v == [] then [] else (if v[0] == '\'' then "''" else [v[0]]) + Escape(v[1..])
  }

  /** sqlite3_mprintf's %Q: quoted and escaped, or NULL. */
  function Quote(v: Option<string>): string {
    match v
    case None => "NULL"
    case Some(s) => "'" + Escape(s) + "'"
  }

  /** A string literal, read from just after its opening quote. */
  function Unquote(s: string): (r: Parsed<string>)
    ensures r.Got? ==> |r.rest| < |s|
  {
    if s == [] then Fail
    else if s[0] != '\'' then
      match Unquote(s[1..])
      case Fail => Fail
      case Got(v, rest) => Got([s[0]] + v, rest)
    else if |s| > 1 && s[1] == '\'' then
      match Unquote(s[2..])
      case Fail => Fail
      case Got(v, rest) => Got(['\''] + v, rest)
    else Got([], s[1..])
  }

  predicate StartsWith(s: string, c: char) {
    s != [] && s[0] == c
  }

  /** Whatever the value, its quoted form reads back as that value. */
  lemma {:induction false} UnquoteEscape(v: string, rest: string)
    requires !StartsWith(rest, '\'')
    ensures Unquote(Escape(v) + "'" + rest) == Got(v, rest)
  {
    var s := Escape(v) + "'" + rest;
    if v == [] {
      assert s == "'" + rest && s[1..] == rest;
    } else {
      var t := Escape(v[1..]) + "'" + rest;
      UnquoteEscape(v[1..], rest);
      if v[0] == '\'' {
        assert s == "''" + t && s[2..] == t;
      } else {
        assert s == [v[0]] + t && s[1..] == t;
      }
      assert [v[0]] + v[1..] == v;
    }
  }

  predicate IsDigit(c: char) {
    '0' <= c <= '9'
  }

  function PrintNat(n: nat): (s: string)
    ensures s != [] && IsDigit(s[0])
  {
    var d := ['0' + (n % 10) as char];
    if n < 10 then d else PrintNat(n / 10) + d
  }

  /** %d. */
  function PrintInt(n: int): string {
    if n < 0 then "-" + PrintNat(-n) else PrintNat(n)
  }

  /** The digits at the front of s, continuing the number read so far. */
  function ScanDigits(s: string, acc: nat): (r: Parsed<nat>)
    ensures r.Got? && |r.rest| <= |s|
    ensures s != [] && IsDigit(s[0]) ==> |r.rest| < |s|
  {
    if s != [] && IsDigit(s[0]) then ScanDigits(s[1..], acc * 10 + (s[0] - '0') as nat) else Got(acc, s)
  }

  function ParseNat(s: string): (r: Parsed<nat>)
    ensures r.Got? ==> |r.rest| < |s|
  {
    if s == [] || !IsDigit(s[0]) then Fail else ScanDigits(s, 0)
  }

  function ParseInt(s: string): (r: Parsed<int>)
    ensures r.Got? ==> |r.rest| < |s|
  {
    match ParseNat(if StartsWith(s, '-') then s[1..] else s)
    case Fail => Fail
    case Got(m, rest) =>
      var n: int := m;
      Got(if StartsWith(s, '-') then -n else n, rest)
  }

  lemma {:induction false} ScanOne(c: char, rest: string, acc: nat)
    requires IsDigit(c)
    ensures ScanDigits([c] + rest, acc) == ScanDigits(rest, acc * 10 + (c - '0') as nat)
  {
    assert ([c] + rest)[1..] == rest;
  }

  lemma {:induction false} LastDigit(n: nat, rest: string)
    requires n >= 10
    ensures PrintNat(n) + rest == PrintNat(n / 10) + (['0' + (n % 10) as char] + rest)
  {
  }

  lemma {:induction false} ScanPrinted(n: nat, rest: string)
    ensures ScanDigits(PrintNat(n) + rest, 0) == ScanDigits(rest, n)
  {
    var c := '0' + (n % 10) as char;
    if n < 10 {
      ScanOne(c, rest, 0);
    } else {
      ScanPrinted(n / 10, [c] + rest);
      ScanOne(c, rest, n / 10);
      LastDigit(n, rest);
    }
  }

  lemma {:induction false} ParseNatPrinted(n: nat, rest: string)
    requires rest == [] || !IsDigit(rest[0])
    ensures ParseNat(PrintNat(n) + rest) == Got(n, rest)
    ensures !StartsWith(PrintNat(n) + rest, '-')
  {
    ScanPrinted(n, rest);
  }

  /** The sign in front of a natural number. */
  lemma SignRead(s: string, n: nat, minus: int, rest: string)
    requires minus + n == 0
    ensures ParseNat(s) == Got(n, rest) && !StartsWith(s, '-') ==>
              ParseInt(s) == Got(n, rest) && ParseInt("-" + s) == Got(minus, rest)
  {
    assert ("-" + s)[1..] == s;
  }

  lemma ParsePrinted(n: int, rest: string)
    requires rest == [] || !IsDigit(rest[0])
    ensures ParseInt(PrintInt(n) + rest) == Got(n, rest)
  {
    var m := if n < 0 then -n else n;
    ParseNatPrinted(m, rest);
    SignRead(PrintNat(m) + rest, m, -m, rest);
    Regroup("-", PrintNat(m), rest, "");
  }

  /** An integer as the C library prints it with %d after a trip through a 32-bit unsigned pointer value. */
  function Signed32(n: int): (r: int)
    ensures -0x8000_0000 <= r < 0x8000_0000
    ensures -0x8000_0000 <= n < 0x8000_0000 ==> r == n
  {
    var u := n % 0x1_0000_0000;
    if u < 0x8000_0000 then u else u - 0x1_0000_0000
  }

  function SkipSpaces(s: string): (r: string)
    ensures |r| <= |s|
  {
    if StartsWith(s, ' ') then SkipSpaces(s[1..]) else s
  }

  /** One or more string literals up to ')'. */
  function ParseItems(s: string): (r: Parsed<seq<string>>)
    ensures r.Got? ==> |r.rest| < |s|
    decreases |s|
  {
    if !StartsWith(s, '\'') then Fail
    else
      match Unquote(s[1..])
      case Fail => Fail
      case Got(v, after) =>
        var t := SkipSpaces(after);
        if StartsWith(t, ')') then Got([v], t[1..])
        else if !StartsWith(t, ',') then Fail
        else
          match ParseItems(t[1..])
          case Fail => Fail
          case Got(vs, rest) => Got([v] + vs, rest)
  }

  /** The inside of IN ( ... ), read from just after '('; SQLite allows the empty list. */
  function ParseList(s: string): (r: Parsed<seq<string>>)
    ensures r.Got? ==> |r.rest| < |s|
  {
    if StartsWith(s, ')') then Got([], s[1..]) else ParseItems(s)
  }

  /** ASCII case folding, the only folding LIKE does. */
  function Fold(c: char): char {
    if 'A' <= c <= 'Z' then c - 'A' + 'a' else c
  }

  /** Two characters fold alike exactly when they are the same, or the two cases of one ASCII letter. */
  lemma FoldsAlike(c: char, d: char)
    ensures Fold(c) == Fold(d) <==>
            || c == d
            || ('A' <= c <= 'Z' && d as int == c as int + 32)
            || ('A' <= d <= 'Z' && c as int == d as int + 32)
  {
  }

  /** SQLite's LIKE without an escape character. */
  predicate Like(p: string, s: string)
    decreases |p| + |s|
  {
    if p == [] then s == []
    else if p[0] == '%' then Like(p[1..], s) || (s != [] && Like(p, s[1..]))
    else s != [] && (p[0] == '_' || Fold(p[0]) == Fold(s[0])) && Like(p[1..], s[1..])
  }

  /** No LIKE wildcard in v. */
  predicate Plain(v: string) {
    '%' !in v && '_' !in v
  }

  /** Equal up to ASCII case. */
  predicate SameFolded(a: string, b: string) {
    |a| == |b| && forall i :: 0 <= i < |a| ==> Fold(a[i]) == Fold(b[i])
  }

  predicate HasSuffix(s: string, v: string) {
    |v| <= |s| && SameFolded(s[|s| - |v|..], v)
  }

  predicate Contains(s: string, v: string) {
    exists k :: 0 <= k <= |s| - |v| && SameFolded(s[k..][..|v|], v)
  }

  lemma {:induction false} LikePlain(v: string, s: string)
    requires Plain(v)
    ensures Like(v, s) <==> SameFolded(s, v)
  {
    if v != [] && s != [] {
      LikePlain(v[1..], s[1..]);
      if |v| == |s| { FoldedStep(s, v); }
    }
  }

  /** A plain value followed by %: the value is a prefix. */
  lemma {:induction false} LikePrefix(v: string, s: string)
    requires Plain(v)
    ensures Like(v + "%", s) <==> |v| <= |s| && SameFolded(s[..|v|], v)
  {
    var p := v + "%";
    if v == [] {
      assert p == "%";
      LikeAnything(s);
    } else if s != [] {
      assert p[1..] == v[1..] + "%" && p[0] == v[0];
      LikePrefix(v[1..], s[1..]);
      if |v| <= |s| {
        assert s[1..][..|v[1..]|] == s[..|v|][1..];
        FoldedStep(s[..|v|], v);
      }
    }
  }

  lemma FoldedStep(s: string, v: string)
    requires |s| == |v| > 0
    ensures SameFolded(s, v) <==> Fold(s[0]) == Fold(v[0]) && SameFolded(s[1..], v[1..])
  {
    if Fold(s[0]) == Fold(v[0]) && SameFolded(s[1..], v[1..]) {
      forall i | 0 <= i < |s| ensures Fold(s[i]) == Fold(v[i]) {
        if i > 0 { assert Fold(s[1..][i - 1]) == Fold(v[1..][i - 1]); }
      }
    }
  }

  lemma {:induction false} LikeAnything(s: string)
    ensures Like("%", s)
  {
    assert "%"[1..] == "";
    if s != [] { LikeAnything(s[1..]); }
  }

  /** STR_ENDS_WITH: '%v' matches exactly the strings that end with v, up to ASCII case. */
  lemma {:induction false} LikeSuffix(v: string, s: string)
    requires Plain(v)
    ensures Like("%" + v, s) <==> HasSuffix(s, v)
  {
    assert ("%" + v)[1..] == v;
    LikePlain(v, s);
    if s != [] {
      LikeSuffix(v, s[1..]);
      if |v| < |s| {
        assert s[1..][|s| - 1 - |v|..] == s[|s| - |v|..];
      } else if |v| == |s| {
        assert s[0..] == s;
      }
    }
  }

  /** STR_LIKE: '%v%' matches exactly the strings that contain v, up to ASCII case. */
  lemma {:induction false} LikeContains(v: string, s: string)
    requires Plain(v)
    ensures Like("%" + v + "%", s) <==> Contains(s, v)
  {
    var p := "%" + v + "%";
    assert p[1..] == v + "%";
    LikePrefix(v, s);
    assert s[0..] == s;
    if s != [] {
      LikeContains(v, s[1..]);
      if k :| 0 <= k <= |s| - |v| && SameFolded(s[k..][..|v|], v) {
        if k > 0 { assert s[1..][k - 1..] == s[k..]; }
      }
      if k :| 0 <= k <= |s| - 1 - |v| && SameFolded(s[1..][k..][..|v|], v) {
        assert s[1..][k..] == s[k + 1..];
      }
    }
  }

  /** A text that value v matches as a pattern, without holding it: nothing for each %, and an x for each _. */
  function Impostor(v: string): string {
    if v == [] then [] else (if v[0] == '%' then [] else if v[0] == '_' then ['x'] else [v[0]]) + Impostor(v[1..])
  }

  lemma {:induction false} ImpostorMatches(v: string)
    ensures Like(v, Impostor(v)) && Like(v + "%", Impostor(v)) && |Impostor(v)| <= |v|
    ensures !Plain(v) ==> !SameFolded(Impostor(v), v)
  {
    var p := v + "%";
    if v == [] {
      assert p == "%";
      LikeAnything([]);
    } else {
      var rest := Impostor(v[1..]);
      ImpostorMatches(v[1..]);
      assert p[0] == v[0] && p[1..] == v[1..] + "%";
      assert v == [v[0]] + v[1..];
      if v[0] == '%' {
        assert Impostor(v) == rest;
      } else {
        var s := Impostor(v);
        assert s[1..] == rest;
        if |s| == |v| { FoldedStep(s, v); }
      }
    }
  }

  /** A text no longer than v and not v itself neither ends with v nor holds it. */
  lemma TooShort(s: string, v: string)
    requires |s| <= |v| && !SameFolded(s, v)
    ensures !HasSuffix(s, v) && !Contains(s, v)
  {
    assert s[0..] == s;
    if |s| == |v| { assert s[0..][..|v|] == s; }
  }

  /** STR_ENDS_WITH and STR_LIKE mean what they say for all texts if and only if the value has no wildcard in it: the
      library does not escape them. */
  lemma {:induction false} PatternsMeanExactly(v: string)
    ensures Plain(v) <==> forall s :: Like("%" + v, s) <==> HasSuffix(s, v)
    ensures Plain(v) <==> forall s :: Like("%" + v + "%", s) <==> Contains(s, v)
  {
    if Plain(v) {
      forall s ensures (Like("%" + v, s) <==> HasSuffix(s, v)) && (Like("%" + v + "%", s) <==> Contains(s, v)) {
        LikeSuffix(v, s);
        LikeContains(v, s);
      }
    } else {
      var s := Impostor(v);
      ImpostorMatches(v);
      TooShort(s, v);
      assert ("%" + v)[1..] == v && ("%" + v + "%")[1..] == v + "%";
      assert Like("%" + v, s) && Like("%" + v + "%", s);
    }
  }
}
