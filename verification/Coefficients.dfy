/** The coefficient row of a repair, which both ends generate and neither sends (window.go). */
module Coefficients {
  import opened Gf256
  import opened Vectors
  import opened Ids
  import opened LinearSystem
  import opened Knowledge

  /** The widest span one repair may cover. */
  const MAX_REPAIR_WINDOW := 256

  // A word multiplied by one of two odd numbers, and folded onto itself, all in thirty-two bits.
  function TimesFirst(x: bv32): bv32 { x * 2654435761 }

  function TimesSecond(x: bv32): bv32 { x * 2246822519 }

  function Together(a: bv32, b: bv32): bv32 { a + b }

  function Fold15(x: bv32): bv32 { x ^ (x >> 15) }

  function Fold13(x: bv32): bv32 { x ^ (x >> 13) }

  function Fold16(x: bv32): bv32 { x ^ (x >> 16) }

  /** The mix of a repair's identifier and the place of a symbol in its span. */
  function Mixed(rid: bv32, index: bv32): bv32 {
    Fold16(TimesSecond(Fold13(TimesFirst(Fold15(Together(TimesFirst(rid), TimesSecond(index)))))))
  }

  /** The multiplier repair rid applies to the index'th symbol of its span: never zero. */
  function WindowCoefficient(rid: uint32, index: nat): (c: byte)
    ensures c != ZERO
  {
    Mixed(rid as bv32, (index % MODULUS) as bv32) as int % 255 + 1
  }

  /** The coefficient row of count symbols, lowest index first. */
  method WindowCoefficients(rid: uint32, count: int) returns (row: seq<byte>)
    ensures |row| == if count <= 0 then 0 else count
    ensures forall i :: 0 <= i < |row| ==> row[i] == WindowCoefficient(rid, i)
  {
    hide WindowCoefficient;
    row := [];
    if count <= 0 { return; }
    for i := 0 to count
      invariant |row| == i && forall k :: 0 <= k < i ==> row[k] == WindowCoefficient(rid, k)
    {
      row := row + [WindowCoefficient(rid, i)];
    }
  }

  /** What a repair carries at one byte position: its coefficients times the symbols from p on. */
  function Combination(a: Assignment, rid: uint32, p: int, n: nat): byte {
    if n == 0 then ZERO
    else Xor(Combination(a, rid, p, n - 1), Mul(WindowCoefficient(rid, n - 1), a(p + n - 1)))
  }

  /** The repair's coefficients laid out over the window's slots. */
  function RepairRow(rid: uint32, p: int, n: nat): Line {
    if n == 0 then seq(WIDTH, _ => ZERO)
    else RepairRow(rid, p, n - 1)[(p + n - 1) % WIDTH := WindowCoefficient(rid, n - 1)]
  }

  lemma {:induction false} RepairRowSupport(at: int, rid: uint32, p: int, n: nat)
    requires at <= p && p + n <= at + WIDTH
    ensures forall k :: 0 <= k < WIDTH && Place(at, k) >= p + n ==> RepairRow(rid, p, n)[k] == ZERO
  {
    hide Place, WindowCoefficient;
    if n > 0 {
      RepairRowSupport(at, rid, p, n - 1);
      SlotOfPlace(at, p + n - 1);
    }
  }

  /** Laid out over the window, the repair's row computes the combination it was built from. */
  lemma {:induction false} RepairRowDot(at: int, rid: uint32, p: int, n: nat, a: Assignment)
    requires at <= p && p + n <= at + WIDTH
    ensures Dot(RepairRow(rid, p, n), Column(a, at)) == Combination(a, rid, p, n)
  {
    hide Place, WindowCoefficient, Xor, Mul, Dot;
    if n == 0 {
      DotZero(RepairRow(rid, p, 0), Column(a, at));
    } else {
      RepairRowDot(at, rid, p, n - 1, a);
      RepairRowSupport(at, rid, p, n - 1);
      SlotOfPlace(at, p + n - 1);
      var c, k := WindowCoefficient(rid, n - 1), (p + n - 1) % WIDTH;
      DotSet(RepairRow(rid, p, n - 1), Column(a, at), k, c);
      XorUnit(c);
      ColumnAt(a, at, p + n - 1);
    }
  }
}
