/** Late arrivals that report a wrong symbol only together (window.go). */
module Reordering {
  import opened Gf256
  import opened Vectors
  import opened Ids
  import opened LinearSystem
  import opened Echelon
  import opened Knowledge
  import opened Coefficients
  import opened Mixing
  import opened DecoderSteps
  import opened LateArrival
  import opened Truth
  import opened Decoder
  import opened Link

  const AT := 3 - WIDTH

  lemma Sums()
    ensures Xor(1, 40) == 41 && Xor(41, 124) == 85 && Xor(85, 1) == 84 && Xor(84, 40) == 124
  {}

  /** Repair zero over three symbols, each the single byte one. */
  lemma ThreeCombination(stream: int -> seq<byte>)
    requires forall p :: stream(p) == [ONE]
    ensures IsCombination(RepairSymbol(0, 0, 3, [85]), 0, TruthOf(stream))
  {
    hide Xor, Mul, WindowCoefficient;
    RowOfZero();
    Sums();
    forall j: nat ensures At([85], j) == Combination(TruthOf(stream)(j), 0, 0, 3) {
      var b := if j == 0 then ONE else ZERO;
      var a := TruthOf(stream)(j);
      assert a(0) == b && a(1) == b && a(2) == b;
      assert Combination(a, 0, 0, 1) == Xor(ZERO, Mul(1, b));
      assert Combination(a, 0, 0, 2) == Xor(Combination(a, 0, 0, 1), Mul(40, b));
      assert Combination(a, 0, 0, 3) == Xor(Combination(a, 0, 0, 2), Mul(124, b));
      MulOne(b);
      TimesOne(40); TimesOne(124);
      MulZero(40); MulZero(124);
      XorUnit(b); XorUnit(ZERO);
    }
  }

  lemma TimesOne(c: byte)
    ensures Mul(c, ONE) == c
  {
    hide Mul;
    MulCommutes(c, ONE); MulOne(c);
  }

  /** The row mentions the first three slots and no other. */
  ghost predicate Triple(c: Line) {
    c[0] == 1 && c[1] == 40 && c[2] == 124 && forall k :: 3 <= k < WIDTH ==> c[k] == ZERO
  }

  lemma ThreeRow()
    ensures Triple(RepairRow(0, 0, 3)) && Waiting(RepairRow(0, 0, 3))
  {
    hide WindowCoefficient;
    RowOfZero();
    var c := RepairRow(0, 0, 3);
    assert RepairRow(0, 0, 1) == RepairRow(0, 0, 0)[0 := 1];
    assert RepairRow(0, 0, 2) == RepairRow(0, 0, 1)[1 := 40];
    assert c == RepairRow(0, 0, 2)[2 := 124];
    assert c[0] == 1 && c[1] == 40;
  }

  /** Held alone, that repair has symbol 0 as its pivot. */
  lemma ThreeHeld(rows: seq<Row>)
    requires OneRow(AT, rows, RepairRow(0, 0, 3), [85])
    ensures rows == [Row(0, RepairRow(0, 0, 3), [85])]
  {
    hide Inv, Mul, RepairRow, Place, Scale, Wrap, Triple, Age;
    ThreeRow();
    var c := RepairRow(0, 0, 3);
    var k: nat :| k < WIDTH && Leads(AT, c, k)
      && rows == [Row(Wrap(Place(AT, k)), Scale(Inv(c[k]), c), Scale(Inv(c[k]), [85]))];
    ThreeLeads(c, k);
    InverseOfOne();
    ScaleByOne(c); ScaleByOne([85]);
  }

  lemma ThreeLeads(c: Line, k: nat)
    requires Triple(c) && Leads(AT, c, k)
    ensures k == 0 && c[0] == ONE && Wrap(Place(AT, 0)) == 0
  {
    assert Age(AT, 0) == 509 && Age(AT, 1) == 510 && Age(AT, 2) == 511;
  }

  /** The first late arrival leaves the row with two unknowns, neither of which is its pivot. */
  lemma FirstLate(c: Line)
    requires Triple(c)
    ensures SubstituteRows([Row(0, c, [85])], 0, [ONE]) == [Row(0, c[0 := ZERO], [84])] && Waiting(c[0 := ZERO])
    ensures !Corrupts([Row(0, c, [85])], 0, [ONE])
  {
    hide Mul, Xor;
    Sums(); TimesOne(ONE);
    assert Combine(ONE, [ONE], [85]) == [84];
    var d := c[0 := ZERO];
    assert d[1] != ZERO && d[2] != ZERO;
    hide SameSymbol;
    forall u ensures !OnlyPair(c, 0, u) { assert c[1] != ZERO && c[2] != ZERO; }
  }

  /** The second leaves one, whose coefficient is not one and which something remains for. */
  lemma SecondLate(c: Line, slots: seq<Slot>, f: Fates)
    requires Triple(c) && |slots| == WIDTH && !slots[2].live
    ensures !TakesRightly(AT, Recorded(slots, [Row(0, c[0 := ZERO], [84])], f, 1, [ONE]), 0, false)
    ensures !Corrupts([Row(0, c[0 := ZERO], [84])], 1, [ONE])
  {
    hide Mul, Xor, Wrap, Place, TakeRow, SameSymbol;
    Sums(); TimesOne(40);
    assert Combine(40, [ONE], [84]) == [124];
    var e := c[0 := ZERO][1 := ZERO];
    var h := Recorded(slots, [Row(0, c[0 := ZERO], [84])], f, 1, [ONE]);
    assert h.rows == [Row(0, e, [124])];
    assert OnlyAt(e, 2) && !h.slots[2].live;
    assert At([124], 0) != ZERO;
    TakesOn(AT, h, 0, false, 2);
  }

  lemma SlotTwo(slots: seq<Slot>, f: Fates)
    requires OneFate(AT, slots, f) && 2 !in f.known
    ensures !slots[2].live
  {
    assert Place(AT, 2) == 2;
  }

  /** Neither late arrival is one of the failing inputs of a reduced state, and yet the second makes
      the decoder report a symbol never sent: the first has left a row whose pivot is known, so that
      the coefficient of what remains of it was never made one. */
  method LateTwiceFails() returns (
    d: WindowDecoder, out: Delivery,
    ghost c: Line, ghost before: seq<Row>, ghost between: seq<Row>, ghost base: nat)
    ensures forall p :: d.stream(p) == [ONE]
    ensures Triple(c) && before == [Row(0, c, [85])] && !Corrupts(before, 0, [ONE])
    ensures between == [Row(0, c[0 := ZERO], [84])] && !Corrupts(between, 1, [ONE])
    ensures |d.fates.recovered| == base + |out.recovered| && !Original(d.fates, out, base, d.stream)
  {
    hide Original, Corrupts, Xor, Mul, Inv, WindowCoefficient, Solved, Satisfies, OneFate, Placed, IsCombination;
    hide OneRow, Waiting, RepairRow;
    hide SameSymbol, Wrap, Truthful, Roomy, TakesRightly, Triple, SubstituteRows;
    d := new WindowDecoder(_ => [ONE], 0);
    ThreeCombination(d.stream);
    ThreeRow();
    assert Wrap(0) == 0 && Wrap(1) == 1 by { FirstWraps(); }
    assert SameSymbol([ONE], d.stream(0)) && SameSymbol([ONE], d.stream(1)) by { SameAsItself([ONE]); }
    c := RepairRow(0, 0, 3);
    var _ := d.Repair(RepairSymbol(0, 0, 3, [85]), 0);
    ThreeHeld(d.rows);
    FirstLate(c);
    before := d.rows;
    var _ := d.Source(0, [ONE], 0);
    between := d.rows;
    SlotTwo(d.slots, d.fates);
    SecondLate(c, d.slots, Settle(d.fates, 1, false));
    base := |d.fates.recovered|;
    out := d.Source(1, [ONE], 1);
  }

  lemma FirstWraps()
    ensures Wrap(0) == 0 && Wrap(1) == 1
  {}
}
