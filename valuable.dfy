/** Value-giving helpers of cedilla/valuable.h: the branch-prediction hints
    `likely`/`unlikely` (reduced to the 0/1 value they yield) and the
    `max`, `min`, `cmp` comparisons, over already-evaluated integers. */
module Valuable {

  /** C's logical negation `!x` on an integer: 1 for zero, 0 otherwise. */
  function Not(x: int): (r: int)
    ensures r == 0 || r == 1
    ensures r == 1 <==> x == 0
  {
    if x == 0 then 1 else 0
  }

  /** C's conversion of a comparison result (a truth value) to `int`. */
  function FromBool(b: bool): (r: int)
    ensures r == 0 || r == 1
    ensures r == 1 <==> b
  {
    if b then 1 else 0
  }

  /** `likely(x)`: `__builtin_expect(!!(x), 1)`; the hint leaves the value of
      `!!(x)` unchanged, so the macro normalises `x` to 0 or 1. */
  function Likely(x: int): (r: int)
    ensures r == 0 || r == 1
    ensures r == 1 <==> x != 0
  {
    Not(Not(x))
  }

  /** `unlikely(x)`: `__builtin_expect(!!(x), 0)`; the same value as `likely`,
      only the hint to the compiler differs. */
  function Unlikely(x: int): (r: int)
    ensures r == 0 || r == 1
    ensures r == 1 <==> x != 0
  {
    Not(Not(x))
  }

  /** `max(a,b)`: `(a) > (b) ? (a) : (b)`. */
  function Max(a: int, b: int): (r: int)
    ensures r >= a && r >= b
    ensures r == a || r == b
    ensures a <= b ==> r == b
  {
    if a > b then a else b
  }

  /** `min(a,b)`: `(a) < (b) ? (a) : (b)`. */
  function Min(a: int, b: int): (r: int)
    ensures r <= a && r <= b
    ensures r == a || r == b
    ensures b <= a ==> r == b
  {
    if a < b then a else b
  }

  /** `cmp(a,b)`: `(a) < (b) ? -1 : (a) > (b)`; the second comparison is a C
      truth value, 0 or 1. */
  function Cmp(a: int, b: int): (r: int)
    ensures r == -1 <==> a < b
    ensures r == 1 <==> a > b
    ensures r == 0 <==> a == b
  {
    if a < b then -1 else FromBool(a > b)
  }

  /** Swapping the operands of `cmp` negates the result. */
  lemma CmpAntisymmetric(a: int, b: int)
    ensures Cmp(a, b) == -Cmp(b, a)
  {
  }

  /** `min` and `max` split a pair between them: together they are the pair. */
  lemma MinPlusMax(a: int, b: int)
    ensures Min(a, b) + Max(a, b) == a + b
    ensures {Min(a, b), Max(a, b)} == {a, b}
  {
  }

  /** `max` and `min` agree with `cmp`: the larger operand is the one `cmp`
      ranks above, and a tie goes to the second operand in both. */
  lemma MaxMinAgreeWithCmp(a: int, b: int)
    ensures Max(a, b) == (if Cmp(a, b) == 1 then a else b)
    ensures Min(a, b) == (if Cmp(a, b) == -1 then a else b)
  {
  }

  /** The hints are idempotent: hinting an already hinted value changes nothing. */
  lemma LikelyIdempotent(x: int)
    ensures Likely(Likely(x)) == Likely(x)
    ensures Unlikely(Unlikely(x)) == Unlikely(x)
    ensures Likely(x) == Unlikely(x)
  {
  }
}
