/** Bytes as the eight coefficients of a polynomial over GF(2). */
module Bits8 {
  /** A byte. */
  type byte = x: int | 0 <= x < 256

  /** The coefficients, the highest first. */
  datatype Bits = Bits(b7: bool, b6: bool, b5: bool, b4: bool, b3: bool, b2: bool, b1: bool, b0: bool)

  function Weight(b: bool, w: nat): nat { if b then w else 0 }

  function Pack(a: Bits): byte {
    var p0 := Weight(a.b0, 1);
    var p1 := Weight(a.b1, 2) + p0;
    var p2 := Weight(a.b2, 4) + p1;
    var p3 := Weight(a.b3, 8) + p2;
    var p4 := Weight(a.b4, 16) + p3;
    var p5 := Weight(a.b5, 32) + p4;
    var p6 := Weight(a.b6, 64) + p5;
    Weight(a.b7, 128) + p6
  }

  function Rest(a: nat, w: nat): nat { if a >= w then a - w else a }

  function Unpack(a: byte): Bits {
    var r6 := Rest(a, 128);
    var r5 := Rest(r6, 64);
    var r4 := Rest(r5, 32);
    var r3 := Rest(r4, 16);
    var r2 := Rest(r3, 8);
    var r1 := Rest(r2, 4);
    var r0 := Rest(r1, 2);
    Bits(a >= 128, r6 >= 64, r5 >= 32, r4 >= 16, r3 >= 8, r2 >= 4, r1 >= 2, r0 >= 1)
  }

  function Add(a: Bits, b: Bits): Bits {
    Bits(a.b7 != b.b7, a.b6 != b.b6, a.b5 != b.b5, a.b4 != b.b4,
         a.b3 != b.b3, a.b2 != b.b2, a.b1 != b.b1, a.b0 != b.b0)
  }

  /** Multiplication by x modulo x^8 + x^4 + x^3 + x^2 + 1. */
  function TimesX(a: Bits): Bits {
    Bits(a.b6, a.b5, a.b4, a.b3 != a.b7, a.b2 != a.b7, a.b1 != a.b7, a.b0, a.b7)
  }

  /** Squaring modulo the same polynomial; over GF(2) it is linear. */
  function Square(a: Bits): Bits {
    Bits(a.b6, (a.b6 != a.b5) != a.b3, a.b5, (a.b7 != a.b5) != (a.b4 != a.b2),
         a.b6 != a.b4, (a.b6 != a.b5) != (a.b4 != a.b1), a.b7, (a.b7 != a.b6) != (a.b4 != a.b0))
  }

  const Zero := Bits(false, false, false, false, false, false, false, false)
  const One := Bits(false, false, false, false, false, false, false, true)
  const Fold := Bits(false, false, false, true, true, true, false, true)

  lemma Weigh(a: nat, w: nat)
    requires a < 2 * w
    ensures Weight(a >= w, w) + Rest(a, w) == a && Rest(a, w) < w
  {}

  lemma Peel(b: bool, w: nat, rest: nat)
    requires rest < w
    ensures Weight(b, w) + rest < 2 * w
    ensures (Weight(b, w) + rest >= w) == b && Rest(Weight(b, w) + rest, w) == rest
  {}

  lemma PackOfUnpack(a: byte)
    ensures Pack(Unpack(a)) == a
  {
    hide Weight, Rest;
    Weigh(a, 128);
    var r6 := Rest(a, 128); Weigh(r6, 64);
    var r5 := Rest(r6, 64); Weigh(r5, 32);
    var r4 := Rest(r5, 32); Weigh(r4, 16);
    var r3 := Rest(r4, 16); Weigh(r3, 8);
    var r2 := Rest(r3, 8);  Weigh(r2, 4);
    var r1 := Rest(r2, 4);  Weigh(r1, 2);
    Weigh(Rest(r1, 2), 1);
  }

  lemma UnpackOfPack(a: Bits)
    ensures Unpack(Pack(a)) == a
  {
    hide Weight, Rest;
    Peel(a.b0, 1, 0);
    var p0 := Weight(a.b0, 1);      Peel(a.b1, 2, p0);
    var p1 := Weight(a.b1, 2) + p0;  Peel(a.b2, 4, p1);
    var p2 := Weight(a.b2, 4) + p1;  Peel(a.b3, 8, p2);
    var p3 := Weight(a.b3, 8) + p2;  Peel(a.b4, 16, p3);
    var p4 := Weight(a.b4, 16) + p3; Peel(a.b5, 32, p4);
    var p5 := Weight(a.b5, 32) + p4; Peel(a.b6, 64, p5);
    Peel(a.b7, 128, Weight(a.b6, 64) + p5);
  }

  lemma AddCommutes(a: Bits, b: Bits)
    ensures Add(a, b) == Add(b, a)
  {}

  lemma AddAssociates(a: Bits, b: Bits, c: Bits)
    ensures Add(Add(a, b), c) == Add(a, Add(b, c))
  {}

  lemma AddUnit(a: Bits)
    ensures Add(a, a) == Zero && Add(a, Zero) == a
  {}

  lemma TimesXLinear(a: Bits, b: Bits)
    ensures TimesX(Add(a, b)) == Add(TimesX(a), TimesX(b))
  {}

  lemma TimesXInjective(a: Bits, b: Bits)
    requires TimesX(a) == TimesX(b)
    ensures a == b
  {}

  lemma SquareTimesX(a: Bits)
    ensures Square(TimesX(a)) == TimesX(TimesX(Square(a))) && Square(One) == One
  {}

  /** The powers of x. */
  function PowerX(i: nat): Bits {
    if i == 0 then One else TimesX(PowerX(i - 1))
  }

  lemma {:induction false} PowerTwice(i: nat)
    ensures PowerX(2 * i) == Square(PowerX(i))
  {
    if i > 0 {
      PowerTwice(i - 1);
      SquareTimesX(PowerX(i - 1));
      hide Square, TimesX;
      assert PowerX(2 * i - 1) == TimesX(PowerX(2 * i - 2));
    } else {
      SquareTimesX(One);
    }
  }

  lemma PowerTwiceNext(i: nat)
    ensures PowerX(2 * i + 1) == TimesX(Square(PowerX(i)))
  {
    PowerTwice(i);
    hide Square, TimesX;
  }

  /** The powers at the maximal proper divisors of 255 differ from one; at 255 it is one. */
  lemma PowerAnchors()
    ensures PowerX(15) != One && PowerX(51) != One && PowerX(85) != One && PowerX(255) == One
  {
    hide PowerX;
    PowerTwiceNext(0); PowerTwiceNext(1); PowerTwiceNext(3); PowerTwiceNext(7);
    PowerTwice(3); PowerTwice(6); PowerTwiceNext(12); PowerTwiceNext(25);
    PowerTwice(1); PowerTwiceNext(2); PowerTwice(5); PowerTwiceNext(10); PowerTwice(21); PowerTwiceNext(42);
    PowerTwiceNext(15); PowerTwiceNext(31); PowerTwiceNext(63); PowerTwiceNext(127);
    PowerZero();
  }

  lemma PowerZero() ensures PowerX(0) == One {}
}
