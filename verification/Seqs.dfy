/** Options and the few sequence facts the tables need. */
module Seqs {
  datatype Option<+T> = None | Some(value: T)

  function Last<T>(s: seq<T>): T
    requires s != []
  {
    s[|s| - 1]
  }

  /** Concatenation associates. */
  lemma Regroup<T>(a: seq<T>, b: seq<T>, c: seq<T>, d: seq<T>)
    ensures a + b + c == a + (b + c)
    ensures a + b + c + d == a + (b + (c + d))
  {
  }

  lemma NothingMore<T>(s: seq<T>)
    ensures s + [] == s
  {
  }

  /** The rows of a table that satisfy p, in table order. */
  function Filter<T>(s: seq<T>, p: T -> bool): seq<T> {
    if s == [] then []
    else if p(Last(s)) then Filter(s[..|s| - 1], p) + [Last(s)]
    else Filter(s[..|s| - 1], p)
  }

  lemma {:induction false} FilterIn<T>(s: seq<T>, p: T -> bool, x: T)
    ensures x in Filter(s, p) <==> x in s && p(x)
  {
    if s != [] {
      FilterIn(s[..|s| - 1], p, x);
      assert s == s[..|s| - 1] + [Last(s)];
    }
  }

  lemma {:induction false} FilterAll<T(!new)>(s: seq<T>, p: T -> bool)
    ensures forall x :: x in Filter(s, p) <==> x in s && p(x)
  {
    forall x ensures x in Filter(s, p) <==> x in s && p(x) {
      FilterIn(s, p, x);
    }
  }

  lemma {:induction false} FilterPush<T>(s: seq<T>, x: T, p: T -> bool)
    ensures Filter(s + [x], p) == Filter(s, p) + if p(x) then [x] else []
  {
    assert (s + [x])[..|s|] == s;
  }

  /** Filters that agree on the rows present give the same table. */
  lemma {:induction false} FilterSame<T>(s: seq<T>, p: T -> bool, q: T -> bool)
    requires forall x | x in s :: p(x) == q(x)
    ensures Filter(s, p) == Filter(s, q)
  {
    if s != [] {
      var init := s[..|s| - 1];
      assert s == init + [Last(s)];
      FilterSame(init, p, q);
    }
  }

  lemma {:induction false} FilterKeepsAll<T>(s: seq<T>, p: T -> bool)
    requires forall x | x in s :: p(x)
    ensures Filter(s, p) == s
  {
    if s != [] {
      var init := s[..|s| - 1];
      assert s == init + [Last(s)];
      FilterKeepsAll(init, p);
    }
  }

  lemma {:induction false} FilterCommutes<T>(s: seq<T>, p: T -> bool, q: T -> bool)
    ensures Filter(Filter(s, p), q) == Filter(Filter(s, q), p)
  {
    if s != [] {
      var init := s[..|s| - 1];
      FilterCommutes(init, p, q);
      if p(Last(s)) { FilterPush(Filter(init, p), Last(s), q); }
      if q(Last(s)) { FilterPush(Filter(init, q), Last(s), p); }
    }
  }

  /** Every pair of rows, earlier one first, is related. */
  ghost predicate Pairwise<T(!new)>(s: seq<T>, r: (T, T) -> bool) {
    forall i, j :: 0 <= i < j < |s| ==> r(s[i], s[j])
  }

  lemma {:induction false} FilterPairwise<T(!new)>(s: seq<T>, p: T -> bool, r: (T, T) -> bool)
    requires Pairwise(s, r)
    ensures Pairwise(Filter(s, p), r)
  {
    if s != [] {
      var init := s[..|s| - 1];
      FilterPairwise(init, p, r);
      forall x | x in Filter(init, p) ensures r(x, Last(s)) {
        FilterIn(init, p, x);
      }
    }
  }

  /** `f` applied to each row in place, as an UPDATE without a constraint at stake does. */
  function Map<T, U>(s: seq<T>, f: T -> U): (r: seq<U>)
    ensures |r| == |s| && forall i :: 0 <= i < |s| ==> r[i] == f(s[i])
  {
    seq(|s|, i requires 0 <= i < |s| => f(s[i]))
  }
}
