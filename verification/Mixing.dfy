/** What the coefficients of repairs are (window.go): the rows both ends must agree on, and how a repair's
    identifier decides them. */
module Mixing {
  import opened Gf256
  import opened Ids
  import opened Coefficients

  // ---------------------------------------------------------------- undoing the mix

  function OverFirst(x: bv32): bv32 { x * 244002641 }

  function OverSecond(x: bv32): bv32 { x * 3066638151 }

  function Less(a: bv32, b: bv32): bv32 { a - b }

  function Unfold15(x: bv32): bv32 { x ^ (x >> 15) ^ (x >> 30) }

  function Unfold13(x: bv32): bv32 { x ^ (x >> 13) ^ (x >> 26) }

  /** The repair whose mix at an index is a given word. */
  function RepairFor(y: bv32, index: bv32): bv32 {
    OverFirst(Less(Unfold15(OverFirst(Unfold13(OverSecond(Fold16(y))))), TimesSecond(index)))
  }

  lemma TimesFirstUndoes(b: bv32)
    ensures (b * 244002641) * 2654435761 == b
  {}

  lemma TimesFirstOf(b: bv32)
    ensures TimesFirst(b * 244002641) == b
  {
    TimesFirstUndoes(b);
  }

  lemma OverFirstIs(b: bv32)
    ensures OverFirst(b) == b * 244002641
  {}

  lemma TimesFirstUndone(b: bv32)
    ensures TimesFirst(OverFirst(b)) == b
  {
    hide TimesFirst, OverFirst;
    TimesFirstOf(b); OverFirstIs(b);
  }

  lemma TimesSecondUndoes(b: bv32)
    ensures (b * 3066638151) * 2246822519 == b
  {}

  lemma TimesSecondOf(b: bv32)
    ensures TimesSecond(b * 3066638151) == b
  {
    TimesSecondUndoes(b);
  }

  lemma OverSecondIs(b: bv32)
    ensures OverSecond(b) == b * 3066638151
  {}

  lemma TimesSecondUndone(b: bv32)
    ensures TimesSecond(OverSecond(b)) == b
  {
    hide TimesSecond, OverSecond;
    TimesSecondOf(b); OverSecondIs(b);
  }

  lemma Fold15Undoes(b: bv32)
    ensures (b ^ (b >> 15) ^ (b >> 30)) ^ ((b ^ (b >> 15) ^ (b >> 30)) >> 15) == b
  {}

  lemma Fold15Of(b: bv32)
    ensures Fold15(b ^ (b >> 15) ^ (b >> 30)) == b
  {
    Fold15Undoes(b);
  }

  lemma Unfold15Is(b: bv32)
    ensures Unfold15(b) == b ^ (b >> 15) ^ (b >> 30)
  {}

  lemma Fold15Undone(b: bv32)
    ensures Fold15(Unfold15(b)) == b
  {
    hide Fold15, Unfold15;
    Fold15Of(b); Unfold15Is(b);
  }

  lemma Fold13Undoes(b: bv32)
    ensures (b ^ (b >> 13) ^ (b >> 26)) ^ ((b ^ (b >> 13) ^ (b >> 26)) >> 13) == b
  {}

  lemma Fold13Of(b: bv32)
    ensures Fold13(b ^ (b >> 13) ^ (b >> 26)) == b
  {
    Fold13Undoes(b);
  }

  lemma Unfold13Is(b: bv32)
    ensures Unfold13(b) == b ^ (b >> 13) ^ (b >> 26)
  {}

  lemma Fold13Undone(b: bv32)
    ensures Fold13(Unfold13(b)) == b
  {
    hide Fold13, Unfold13;
    Fold13Of(b); Unfold13Is(b);
  }

  lemma Fold16Undoes(b: bv32)
    ensures (b ^ (b >> 16)) ^ ((b ^ (b >> 16)) >> 16) == b
  {}

  lemma Fold16Of(b: bv32)
    ensures Fold16(b ^ (b >> 16)) == b
  {
    Fold16Undoes(b);
  }

  lemma Fold16Is(b: bv32)
    ensures Fold16(b) == b ^ (b >> 16)
  {}

  lemma Fold16Undone(b: bv32)
    ensures Fold16(Fold16(b)) == b
  {
    hide Fold16;
    Fold16Of(b); Fold16Is(b);
  }

  lemma PlusUndoes(a: bv32, b: bv32)
    ensures (a - b) + b == a
  {}

  lemma PlusOf(a: bv32, b: bv32)
    ensures Together(a - b, b) == a
  {
    PlusUndoes(a, b);
  }

  lemma LessIs(a: bv32, b: bv32)
    ensures Less(a, b) == a - b
  {}

  lemma PlusUndone(a: bv32, b: bv32)
    ensures Together(Less(a, b), b) == a
  {
    hide Together, Less;
    PlusOf(a, b); LessIs(a, b);
  }

  /** Each step of the mix can be undone: at every index every word is the mix of some repair. */
  lemma MixUndone(y: bv32, index: bv32)
    ensures Mixed(RepairFor(y, index), index) == y
  {
    hide TimesFirst, TimesSecond, OverFirst, OverSecond, Fold15, Fold13, Fold16, Unfold15, Unfold13, Together, Less;
    var b := OverSecond(Fold16(y));
    var a := OverFirst(Unfold13(b));
    var x := Unfold15(a);
    Fold16Undone(y); TimesSecondUndone(Fold16(y));
    Fold13Undone(b); TimesFirstUndone(Unfold13(b));
    Fold15Undone(a); TimesFirstUndone(Less(x, TimesSecond(index))); PlusUndone(x, TimesSecond(index));
  }

  lemma WordOf(b: bv32)
    ensures (b as int) as bv32 == b
  {}

  lemma NextWord(y: bv32)
    requires y < 255
    ensures y as int < 255 && (y + 1) as int == y as int + 1
  {}

  lemma {:induction false} LowWord(n: nat) returns (y: bv32)
    requires n < 256
    ensures y <= 255 && y as int == n
  {
    y := 0;
    if n > 0 {
      var before := LowWord(n - 1);
      LowWordOf(before, n - 1);
      NextWord(before);
      y := before + 1;
    }
  }

  lemma LowWordOf(y: bv32, n: nat)
    requires y <= 255 && y as int == n && n < 255
    ensures y < 255
  {}

  /** The identifier of a repair tells: at every index of a span every non-zero byte is the coefficient of
      some repair. */
  lemma EveryCoefficient(c: byte, index: nat) returns (rid: uint32)
    requires c != ZERO
    ensures WindowCoefficient(rid, index) == c
  {
    hide Mixed, RepairFor;
    var i: bv32 := (index % MODULUS) as bv32;
    var y := LowWord(c - 1);
    MixUndone(y, i);
    rid := RepairFor(y, i) as int;
    WordOf(RepairFor(y, i));
  }

  // ---------------------------------------------------------------- the rows both ends agree on

  lemma RowOfZero()
    ensures WindowCoefficient(0, 0) == 0x01 && WindowCoefficient(0, 1) == 0x28
    ensures WindowCoefficient(0, 2) == 0x7c && WindowCoefficient(0, 3) == 0xbd
  {}

  lemma RowOfOne()
    ensures WindowCoefficient(1, 0) == 0xd4 && WindowCoefficient(1, 1) == 0x28
    ensures WindowCoefficient(1, 2) == 0x0b && WindowCoefficient(1, 3) == 0x7a
  {}

  lemma RowOfTwo()
    ensures WindowCoefficient(2, 0) == 0xac && WindowCoefficient(2, 1) == 0xc6
    ensures WindowCoefficient(2, 2) == 0x33 && WindowCoefficient(2, 3) == 0xce
  {}

  lemma RowOfSeven()
    ensures WindowCoefficient(7, 0) == 0x6f && WindowCoefficient(7, 31) == 0x04
  {}

  /** The first coefficients of the rows that are frozen. */
  lemma FrozenRows()
    ensures WindowCoefficient(0, 0) == 0x01 && WindowCoefficient(0, 1) == 0x28
    ensures WindowCoefficient(0, 2) == 0x7c && WindowCoefficient(0, 3) == 0xbd
    ensures WindowCoefficient(1, 0) == 0xd4 && WindowCoefficient(1, 1) == 0x28
    ensures WindowCoefficient(1, 2) == 0x0b && WindowCoefficient(1, 3) == 0x7a
    ensures WindowCoefficient(2, 0) == 0xac && WindowCoefficient(2, 1) == 0xc6
    ensures WindowCoefficient(2, 2) == 0x33 && WindowCoefficient(2, 3) == 0xce
    ensures WindowCoefficient(7, 0) == 0x6f && WindowCoefficient(7, 31) == 0x04
  {
    hide WindowCoefficient;
    RowOfZero(); RowOfOne(); RowOfTwo(); RowOfSeven();
  }
}
