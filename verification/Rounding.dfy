/** Rounding to multiples: FLOOR_ALIGN and CEILING_ALIGN (missing.h). */
module Rounding {

  function FloorAlign(x: nat, y: nat): nat
    requires y > 0
  {
    x / y * y
  }

  function CeilingAlign(x: nat, y: nat): nat
    requires y > 0
  {
    (x + y - 1) / y * y
  }

  ghost predicate Multiple(x: nat, y: nat) {
    exists q: nat :: x == q * y
  }

  lemma FloorIs(x: nat, y: nat)
    requires y > 0
    ensures FloorAlign(x, y) <= x < FloorAlign(x, y) + y && Multiple(FloorAlign(x, y), y)
  {
    assert x == x / y * y + x % y;
    assert FloorAlign(x, y) == (x / y) * y;
  }

  lemma CeilingIs(x: nat, y: nat)
    requires y > 0
    ensures x <= CeilingAlign(x, y) < x + y && Multiple(CeilingAlign(x, y), y)
  {
    FloorIs(x + y - 1, y);
  }

  /** Rounding down passes no multiple. */
  lemma FloorKeeps(x: nat, y: nat, m: nat)
    requires y > 0 && Multiple(m, y) && m <= x
    ensures m <= FloorAlign(x, y)
  {
    var q: nat :| m == q * y;
    FloorIs(x, y);
    Monotone(x / y + 1, q, y);
    Monotone(q, x / y, y);
  }

  lemma Monotone(a: nat, b: nat, y: nat)
    ensures a <= b ==> a * y <= b * y
  {}

  lemma MultipleOfSum(x: nat, z: nat, y: nat)
    requires Multiple(x, y) && Multiple(z, y)
    ensures Multiple(x + z, y)
  {
    var p: nat, q: nat :| x == p * y && z == q * y;
    assert x + z == (p + q) * y;
  }

  lemma MultipleOfMultiple(x: nat, y: nat, k: nat)
    requires Multiple(x, y)
    ensures Multiple(k * x, y)
  {
    var q: nat :| x == q * y;
    assert k * x == (k * q) * y;
  }

  /** No multiple from x on is below x rounded up. */
  lemma Least(x: nat, y: nat, m: nat)
    requires y > 0 && Multiple(m, y)
    ensures x <= m ==> CeilingAlign(x, y) <= m
  {
    var q: nat :| m == q * y;
    var p := (x + y - 1) / y;
    FloorIs(x + y - 1, y);
    Monotone(q + 1, p, y);
    Monotone(p, q, y);
  }

  predicate InSectors(n: nat, size: nat)
    requires size > 0
  {
    n % size == 0
  }

  lemma WholeNumber(n: nat, size: nat)
    requires size > 0 && InSectors(n, size)
    ensures Multiple(n, size) && (0 < n ==> size <= n)
  {
    assert n == (n / size) * size;
  }
}
