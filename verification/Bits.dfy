/** Two's-complement bit operations on integers, as SQLite's `|`, `&` and `~`
    compute them.  A value is read bit by bit; `Bit(n, k)` is bit k of n, with
    the sign bit repeated for ever, so a negative C int keeps its meaning. */
module Bits {
  function Abs(n: int): nat {
    if n < 0 then -n else n
  }

  predicate Odd(n: int) {
    n % 2 == 1
  }

  predicate Bit(n: int, k: nat)
    decreases k
  {
    if k == 0 then Odd(n) else Bit(n / 2, k - 1)
  }

  /** All bits equal: 0 or -1. */
  predicate Flat(n: int) {
    n == 0 || n == -1
  }

  function Or(a: int, b: int): int
    decreases Abs(a) + Abs(b)
  {
    if Flat(a) && Flat(b) then if a == 0 && b == 0 then 0 else -1
    else 2 * Or(a / 2, b / 2) + if Odd(a) || Odd(b) then 1 else 0
  }

  function And(a: int, b: int): int
    decreases Abs(a) + Abs(b)
  {
    if Flat(a) && Flat(b) then if a == -1 && b == -1 then -1 else 0
    else 2 * And(a / 2, b / 2) + if Odd(a) && Odd(b) then 1 else 0
  }

  function Not(a: int): int {
    -a - 1
  }

  /** Both operations act on the last bit and on the rest separately. */
  lemma {:induction false} Halves(a: int, b: int)
    ensures Or(a, b) / 2 == Or(a / 2, b / 2) && Odd(Or(a, b)) == (Odd(a) || Odd(b))
    ensures And(a, b) / 2 == And(a / 2, b / 2) && Odd(And(a, b)) == (Odd(a) && Odd(b))
  {
    assert Flat(a) ==> a / 2 == a;
    assert Flat(b) ==> b / 2 == b;
  }

  lemma {:induction false} BitOr(a: int, b: int, k: nat)
    ensures Bit(Or(a, b), k) == (Bit(a, k) || Bit(b, k))
    decreases k
  {
    Halves(a, b);
    if k > 0 {
      BitOr(a / 2, b / 2, k - 1);
    }
  }

  lemma {:induction false} BitAnd(a: int, b: int, k: nat)
    ensures Bit(And(a, b), k) == (Bit(a, k) && Bit(b, k))
    decreases k
  {
    Halves(a, b);
    if k > 0 {
      BitAnd(a / 2, b / 2, k - 1);
    }
  }

  lemma {:induction false} BitNot(a: int, k: nat)
    ensures Bit(Not(a), k) == !Bit(a, k)
    decreases k
  {
    if k > 0 {
      assert Not(a) / 2 == Not(a / 2);
      BitNot(a / 2, k - 1);
    }
  }

  /** Integers with the same bits are the same integer. */
  lemma {:induction false} SameBits(a: int, b: int)
    requires forall k: nat :: Bit(a, k) == Bit(b, k)
    ensures a == b
    decreases Abs(a) + Abs(b)
  {
    assert Bit(a, 0) == Bit(b, 0);
    if !(Flat(a) && Flat(b)) {
      forall k: nat ensures Bit(a / 2, k) == Bit(b / 2, k) {
        assert Bit(a, k + 1) == Bit(b, k + 1);
      }
      SameBits(a / 2, b / 2);
    }
  }

  /** Carry-free addition: a sum is an OR plus the bits counted twice. */
  lemma {:induction false} SumIsOrPlusAnd(a: int, b: int)
    ensures a + b == Or(a, b) + And(a, b)
    decreases Abs(a) + Abs(b)
  {
    if !(Flat(a) && Flat(b)) {
      SumIsOrPlusAnd(a / 2, b / 2);
    }
  }

  lemma {:induction false} NonNegative(a: int, b: int)
    requires a >= 0 && b >= 0
    ensures Or(a, b) >= 0 && And(a, b) >= 0
    decreases Abs(a) + Abs(b)
  {
    if !(Flat(a) && Flat(b)) {
      NonNegative(a / 2, b / 2);
    }
  }

  /** Every bit of a is a bit of b. */
  ghost predicate Within(a: int, b: int) {
    forall k: nat :: Bit(a, k) ==> Bit(b, k)
  }

  /** `(cached & ~before) | after`: what the update trigger stores. */
  function Swap(cached: int, before: int, after: int): int {
    Or(And(cached, Not(before)), after)
  }

  lemma {:induction false} BitSwap(cached: int, before: int, after: int, k: nat)
    ensures Bit(Swap(cached, before, after), k) == ((Bit(cached, k) && !Bit(before, k)) || Bit(after, k))
  {
    BitOr(And(cached, Not(before)), after, k);
    BitAnd(cached, Not(before), k);
    BitNot(before, k);
  }

  lemma {:induction false} BitZero(k: nat)
    ensures !Bit(0, k)
  {
    if k > 0 { BitZero(k - 1); }
  }

  ghost predicate Disjoint(a: int, b: int) {
    forall k: nat :: Bit(a, k) ==> !Bit(b, k)
  }

  lemma {:induction false} AndZero(a: int, b: int)
    ensures And(a, b) == 0 <==> Disjoint(a, b)
  {
    if And(a, b) == 0 {
      forall k: nat ensures Bit(a, k) ==> !Bit(b, k) {
        BitAnd(a, b, k);
        BitZero(k);
      }
    } else if Disjoint(a, b) {
      forall k: nat ensures Bit(And(a, b), k) == Bit(0, k) {
        BitAnd(a, b, k);
        BitZero(k);
      }
      SameBits(And(a, b), 0);
    }
  }
}
