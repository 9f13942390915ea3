/** Symbol identifiers: 32-bit numbers that wrap, compared by the sign of their difference. */
module Ids {
  const MODULUS := 0x1_0000_0000
  const HALF := 0x8000_0000

  type uint32 = x: int | 0 <= x < MODULUS

  /** The identifier of an unbounded position. */
  function Wrap(p: int): uint32 { p % MODULUS }

  /** The difference of two identifiers, read as a signed 32-bit number. */
  function Diff(a: uint32, b: uint32): int {
    var d := (a - b) % MODULUS;
    if d < HALF then d else d - MODULUS
  }

  /** Near enough for the sign of an identifier difference to be the sign of the positions' one. */
  predicate Near(p: int, q: int) { -HALF <= p - q < HALF }

  lemma DiffOfWraps(p: int, q: int)
    requires Near(p, q)
    ensures Diff(Wrap(p), Wrap(q)) == p - q
  {
    assert (Wrap(p) - Wrap(q)) % MODULUS == (p - q) % MODULUS;
  }

  /** Identifier arithmetic, which wraps. */
  function Plus(a: uint32, d: int): uint32 { (a as int + d) % MODULUS }

  /** The unsigned distance from b up to a. */
  function Distance(a: uint32, b: uint32): uint32 { (a as int - b as int) % MODULUS }

  lemma DistanceOfWraps(p: int, q: int)
    requires 0 <= p - q < MODULUS
    ensures Distance(Wrap(p), Wrap(q)) == p - q
  {
    assert (Wrap(p) - Wrap(q)) % MODULUS == (p - q) % MODULUS;
  }

  lemma PlusOfWrap(p: int, d: int)
    ensures Plus(Wrap(p), d) == Wrap(p + d)
  {}

  lemma WrapInjective(p: int, q: int)
    requires Wrap(p) == Wrap(q) && -MODULUS < p - q < MODULUS
    ensures p == q
  {}

  /** Division with remainder is unique. */
  lemma DivisionUnique(a: int, m: int, q: int, r: int)
    requires m > 0 && a == m * q + r && 0 <= r < m
    ensures a % m == r && a / m == q
  {
    var k := a / m - q;
    assert m * k == r - a % m by {
      assert a == m * (a / m) + a % m;
      assert m * (a / m) - m * q == m * k;
    }
    assert k >= 1 ==> m * k >= m;
    assert k <= -1 ==> m * k <= -m;
  }

  lemma ModuloShift(a: int, m: int, k: int)
    requires m > 0
    ensures (m * k + a) % m == a % m
  {
    var q := a / m;
    assert m * k + a == m * (k + q) + a % m by {
      assert m * (k + q) == m * k + m * q;
    }
    DivisionUnique(m * k + a, m, k + q, a % m);
  }

  /** A width dividing 2^32 finds the same slot from the identifier as from the position. */
  lemma SlotOfWrap(p: int, width: nat)
    requires width > 0 && MODULUS % width == 0
    ensures Wrap(p) % width == p % width
  {
    var q, r := p / MODULUS, MODULUS / width;
    assert p == width * (r * q) + Wrap(p) by {
      assert MODULUS == width * r;
      assert (width * r) * q == width * (r * q);
    }
    ModuloShift(Wrap(p), width, r * q);
  }
}
