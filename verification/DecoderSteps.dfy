/** The steps of the sliding-window decoder on values: what each does to the rows, the known
    symbols, the fates of positions and the delivery being assembled. */
module DecoderSteps {
  import opened Gf256
  import opened Vectors
  import opened Ids
  import opened LinearSystem
  import opened Echelon
  import opened Knowledge
  import opened Determinacy
  import opened Coefficients

  /** A linear combination of the source symbols of one span. */
  datatype RepairSymbol = RepairSymbol(rid: uint32, first: uint32, count: int, vector: seq<byte>)

  datatype RecoveredSymbol = RecoveredSymbol(esi: uint32, vector: seq<byte>)

  /** What one arrival produced. */
  datatype Delivery = Delivery(recovered: seq<RecoveredSymbol>, lost: seq<uint32>)

  const Nothing := Delivery([], [])

  ghost predicate SameSolutions(slots: seq<Slot>, rows: seq<Row>, slots': seq<Slot>, rows': seq<Row>)
    requires |slots| == |slots'| == WIDTH
  {
    forall x: Line, j: nat :: Holds(slots', rows', x, j) <==> Holds(slots, rows, x, j)
  }

  /** Walking the window in identifier order meets one more slot at each step. */
  lemma OneMore(at: int, p: int)
    requires at <= p < at + WIDTH
    ensures Index(Wrap(p)) == p % WIDTH && Place(at, p % WIDTH) == p && Age(at, p % WIDTH) == p - at
    ensures forall k :: 0 <= k < WIDTH ==> (Age(at, k) == p - at <==> k == p % WIDTH)
  {
    SlotOfPlace(at, p);
    forall k | 0 <= k < WIDTH && Age(at, k) == p - at ensures k == p % WIDTH {
      PlaceOfSlot(at, k);
    }
  }

  /** In reduced form a row's oldest unknown is its pivot. */
  lemma LeadingIsPivot(at: int, slots: seq<Slot>, rows: seq<Row>, i: nat, pivot: uint32)
    requires |slots| == WIDTH && i < |rows| && Reduced(at, slots, rows)
    ensures !AllZero(rows[i].coef)
    ensures OnlyAt(rows[i].coef, Index(pivot)) ==> Index(pivot) == Index(rows[i].pivot)
    ensures Leads(at, rows[i].coef, Index(pivot)) ==> Index(pivot) == Index(rows[i].pivot)
  {
    assert Shaped(at, slots, rows[i]);
    hide Index;
    var k, m := Index(pivot), Index(rows[i].pivot);
    if Leads(at, rows[i].coef, k) {
      PlaceOfSlot(at, k); PlaceOfSlot(at, m);
    }
  }

  lemma HarvestStep(at: int, slots: seq<Slot>, rows: seq<Row>, i: nat, s: Slot)
    requires |slots| == WIDTH && i < |rows| && Reduced(at, slots, rows)
    requires OnlyAt(rows[i].coef, Index(rows[i].pivot)) && Known(s) && s.vector == rows[i].data
    ensures var k, rest := Index(rows[i].pivot), Without(rows, i);
            !Known(slots[k])
            && Reduced(at, slots[k := s], SubstituteRows(rest, k, s.vector))
            && SameSolutions(slots, rows, slots[k := s], SubstituteRows(rest, k, s.vector))
  {
    hide Index, Holds, Shaped, Apart, SubstituteRow;
    var k, rest := Index(rows[i].pivot), Without(rows, i);
    HarvestReduced(at, slots, rows, i);
    SubstitutionReduced(at, slots, rest, k, s);
    forall x: Line, j: nat
      ensures !Known(slots[k])
      ensures Holds(slots[k := s], SubstituteRows(rest, k, s.vector), x, j) <==> Holds(slots, rows, x, j)
    {
      HarvestHolds(at, slots, rows, i, s, x, j);
    }
    assert !Known(slots[k]) by { HarvestHolds(at, slots, rows, i, s, seq(WIDTH, _ => ZERO), 0); }
  }

  /** The solutions after a step are those before it that satisfy one more equation. */
  ghost predicate Learned(slots: seq<Slot>, rows: seq<Row>, slots': seq<Slot>, rows': seq<Row>, coef: Line,
                          data: seq<byte>)
    requires |slots| == |slots'| == WIDTH
  {
    forall x: Line, j: nat ::
      Holds(slots', rows', x, j) <==> Holds(slots, rows, x, j) && RowHolds(coef, data, x, j)
  }

  /** Some assignment satisfies the system and the equation together, at every byte. */
  ghost predicate Consistent(slots: seq<Slot>, rows: seq<Row>, coef: Line, data: seq<byte>)
    requires |slots| == WIDTH
  {
    forall j: nat :: Solvable(slots, rows, coef, data, j)
  }

  ghost predicate Solvable(slots: seq<Slot>, rows: seq<Row>, coef: Line, data: seq<byte>, j: nat)
    requires |slots| == WIDTH
  {
    exists x: Line :: Holds(slots, rows, x, j) && RowHolds(coef, data, x, j)
  }

  /** Two equations differ by the same amount under every solution of the system. */
  ghost predicate SameResidual(slots: seq<Slot>, rows: seq<Row>, coef: Line, data: seq<byte>, c: Line, d: seq<byte>)
    requires |slots| == WIDTH
  {
    forall x: Line, j: nat :: Holds(slots, rows, x, j) ==> Residual(c, d, x, j) == Residual(coef, data, x, j)
  }

  lemma HoldsParts(slots: seq<Slot>, rows: seq<Row>, x: Line, j: nat)
    requires |slots| == WIDTH && Holds(slots, rows, x, j)
    ensures KnownHold(slots, x, j) && RowsHold(rows, x, j)
  {}

  lemma LearnedThenSame(slots: seq<Slot>, rows: seq<Row>, slots1: seq<Slot>, rows1: seq<Row>,
                        slots2: seq<Slot>, rows2: seq<Row>, coef: Line, data: seq<byte>)
    requires |slots| == |slots1| == |slots2| == WIDTH
    requires Learned(slots, rows, slots1, rows1, coef, data) && SameSolutions(slots1, rows1, slots2, rows2)
    ensures Learned(slots, rows, slots2, rows2, coef, data)
  {
    hide Holds, RowHolds;
  }

  lemma EliminationKeeps(r: Row, f: byte, c: Line, d: seq<byte>, x: Line, j: nat)
    requires RowHolds(r.coef, r.data, x, j)
    ensures Residual(AddScaled(f, r.coef, c), Combine(f, r.data, d), x, j) == Residual(c, d, x, j)
  {
    hide Residual, Combine, AddScaled, RowHolds, Xor, Mul;
    ResidualZero(r.coef, r.data, x, j);
    ResidualCombine(f, r.coef, r.data, c, d, x, j);
    MulZero(f); XorUnit(Residual(c, d, x, j));
  }

  /** Eliminating with row i clears its pivot and touches no other pivot and no known symbol. */
  lemma EliminationClears(at: int, slots: seq<Slot>, rows: seq<Row>, i: nat, c: Line)
    requires |slots| == WIDTH && Reduced(at, slots, rows) && i < |rows|
    ensures var s := AddScaled(c[Index(rows[i].pivot)], rows[i].coef, c);
            && s[Index(rows[i].pivot)] == ZERO
            && (forall m :: 0 <= m < |rows| && m != i ==> s[Index(rows[m].pivot)] == c[Index(rows[m].pivot)])
            && (forall k :: 0 <= k < WIDTH && Known(slots[k]) ==> s[k] == c[k])
  {
    hide Index, Leads, Place, Xor, Mul;
    var k, r := Index(rows[i].pivot), rows[i].coef;
    var f := c[k];
    assert Shaped(at, slots, rows[i]);
    MulCommutes(f, ONE); MulOne(f); XorUnit(f);
    forall m | 0 <= m < WIDTH && r[m] == ZERO ensures AddScaled(f, r, c)[m] == c[m] {
      MulZero(f); XorUnit(c[m]);
    }
  }

  lemma ScaledZero(f: byte, c: Line, k: nat)
    requires k < WIDTH && c[k] == ZERO
    ensures Scale(f, c)[k] == ZERO
  {
    hide Mul;
    MulZero(f);
  }

  /** Scaling by the inverse of the leading coefficient gives a row of reduced shape. */
  lemma ScaledShape(at: int, slots: seq<Slot>, c: Line, pivot: uint32, row: Row)
    requires |slots| == WIDTH && Leads(at, c, Index(pivot)) && pivot == Wrap(Place(at, Index(pivot)))
    requires forall k :: 0 <= k < WIDTH && Known(slots[k]) ==> c[k] == ZERO
    requires row.pivot == pivot && row.coef == Scale(Inv(c[Index(pivot)]), c)
    ensures Shaped(at, slots, row)
  {
    hide Index, Mul, Inv, Place, Age;
    var f := Inv(c[Index(pivot)]);
    MulInverse(c[Index(pivot)]);
    forall k | 0 <= k < WIDTH && c[k] == ZERO ensures row.coef[k] == ZERO { ScaledZero(f, c, k); }
    assert row.coef[Index(pivot)] == ONE;
  }

  /** A combination that mentions nothing unknown is implied by what is held. */
  lemma NothingLearned(slots: seq<Slot>, rows: seq<Row>, coef: Line, data: seq<byte>, c: Line, d: seq<byte>)
    requires |slots| == WIDTH && AllZero(c) && SameResidual(slots, rows, coef, data, c, d)
    requires Consistent(slots, rows, coef, data)
    ensures Learned(slots, rows, slots, rows, coef, data)
  {
    hide Holds, Residual, RowHolds, Xor, Dot, At;
    forall x: Line, j: nat | Holds(slots, rows, x, j) ensures RowHolds(coef, data, x, j) {
      assert Solvable(slots, rows, coef, data, j);
      var y: Line :| Holds(slots, rows, y, j) && RowHolds(coef, data, y, j);
      ResidualZero(coef, data, y, j); ResidualZero(coef, data, x, j);
      EmptyResidual(c, d, x, j); EmptyResidual(c, d, y, j);
    }
  }

  lemma EmptyResidual(c: Line, d: seq<byte>, x: Line, j: nat)
    requires AllZero(c)
    ensures Residual(c, d, x, j) == At(d, j)
  {
    hide Xor, Dot, At;
    DotZero(c, x);
    XorUnit(At(d, j));
  }

  /** Inserting the reduced and scaled equation learns exactly the equation that came in. */
  lemma InsertionLearned(slots: seq<Slot>, rows: seq<Row>, coef: Line, data: seq<byte>, c: Line, d: seq<byte>, f: byte,
                         row: Row)
    requires |slots| == WIDTH && SameResidual(slots, rows, coef, data, c, d) && f != ZERO
    requires row.coef == Scale(f, c) && row.data == Scale(f, d)
    ensures Learned(slots, rows, slots, ClearRows(rows, row) + [row], coef, data)
  {
    hide Holds, Residual, RowHolds, Scale, ClearRow, Mul;
    var rows' := ClearRows(rows, row) + [row];
    forall x: Line, j: nat
      ensures Holds(slots, rows', x, j) <==> Holds(slots, rows, x, j) && RowHolds(coef, data, x, j)
    {
      InsertionHolds(slots, rows, row, x, j);
      if Holds(slots, rows, x, j) {
        ResidualScale(f, c, d, x, j);
        ResidualZero(row.coef, row.data, x, j); ResidualZero(coef, data, x, j);
        NoZeroDivisor(f, Residual(c, d, x, j));
      }
    }
  }

  lemma ScaleByOne(v: seq<byte>)
    ensures Scale(ONE, v) == v
  {
    hide Mul;
    forall k | 0 <= k < |v| ensures Scale(ONE, v)[k] == v[k] { MulOne(v[k]); }
  }

  lemma NoZeroDivisor(f: byte, r: byte)
    requires f != ZERO
    ensures Mul(f, r) == ZERO <==> r == ZERO
  {
    if r == ZERO { MulZero(f); } else { MulNonZero(f, r); }
  }

  /** The positions whose fate is settled: known to the decoder, reported lost, reported recovered. */
  datatype Fates = Fates(known: set<int>, lost: seq<int>, recovered: seq<int>)

  const NoFates := Fates({}, [], [])

  /** A live slot is known and is the window's symbol of its slot. */
  ghost predicate Placed(at: int, slots: seq<Slot>) {
    |slots| == WIDTH &&
    forall k :: 0 <= k < WIDTH && slots[k].live ==> slots[k].known && slots[k].esi == Wrap(Place(at, k))
  }

  /** Every position has at most one fate, and a window position is known when its slot is live. */
  ghost predicate OneFate(at: int, slots: seq<Slot>, f: Fates) {
    && |slots| == WIDTH
    && (forall k :: 0 <= k < WIDTH ==> (slots[k].live <==> Place(at, k) in f.known))
    && (forall p :: p in f.known ==> p < at + WIDTH)
    && (forall i :: 0 <= i < |f.lost| ==> f.lost[i] < at && f.lost[i] !in f.known)
    && (forall i, m :: 0 <= i < m < |f.lost| ==> f.lost[i] < f.lost[m])
    && (forall i :: 0 <= i < |f.recovered| ==> f.recovered[i] in f.known)
    && (forall i, m :: 0 <= i < m < |f.recovered| ==> f.recovered[i] != f.recovered[m])
  }

  /** Position p becomes known, by recovery or by arrival. */
  function Settle(f: Fates, p: int, asRecovered: bool): Fates {
    f.(known := f.known + {p}, recovered := if asRecovered then f.recovered + [p] else f.recovered)
  }

  /** What becomes of the fates: what was reported stays reported, and of what was known before
      nothing is reported recovered. */
  ghost predicate More(f: Fates, f': Fates) {
    && f.known <= f'.known && f.lost <= f'.lost && f.recovered <= f'.recovered
    && forall i :: |f.recovered| <= i < |f'.recovered| ==> f'.recovered[i] !in f.known
  }

  lemma MoreChain(f: Fates, f': Fates, f'': Fates)
    requires More(f, f') && More(f', f'')
    ensures More(f, f'')
  {
    forall i | |f.recovered| <= i < |f''.recovered| ensures f''.recovered[i] !in f.known {
      if i < |f'.recovered| { assert f''.recovered[i] == f'.recovered[i]; }
    }
  }

  /** As More, and nothing became known but what was recovered and the positions named. */
  ghost predicate Gains(f: Fates, f': Fates, also: set<int>) {
    && More(f, f')
    && forall q :: q in f'.known <==> q in f.known || q in also || q in f'.recovered[|f.recovered|..]
  }

  lemma GainsOn(f: Fates, f': Fates, f'': Fates, also: set<int>)
    requires Gains(f, f', also) && Gains(f', f'', {})
    ensures Gains(f, f'', also)
  {
    MoreChain(f, f', f'');
    var m, n := |f.recovered|, |f'.recovered|;
    assert f''.recovered[m..] == f'.recovered[m..] + f''.recovered[n..];
    hide More;
  }

  lemma GainsSame(f: Fates)
    ensures Gains(f, f, {})
  {}

  lemma SettleOneFate(at: int, slots: seq<Slot>, f: Fates, p: int, v: seq<byte>, asRecovered: bool)
    requires Placed(at, slots) && OneFate(at, slots, f) && at <= p < at + WIDTH && !slots[p % WIDTH].live
    ensures var slots' := slots[p % WIDTH := Slot(Wrap(p), v, true, true)];
            Placed(at, slots') && OneFate(at, slots', Settle(f, p, asRecovered))
    ensures p !in f.known && Gains(f, Settle(f, p, asRecovered), if asRecovered then {} else {p})
  {
    hide Index, Wrap, Age;
    OneMore(at, p);
    forall k | 0 <= k < WIDTH && k != p % WIDTH ensures Place(at, k) != p {
      PlaceOfSlot(at, k);
    }
    var f' := Settle(f, p, asRecovered);
    assert f'.recovered[|f.recovered|..] == if asRecovered then [p] else [];
  }

  /** A delivery lists what was recovered and lost since the logs had the given lengths. */
  ghost predicate Logged(at: int, slots: seq<Slot>, f: Fates, out: Delivery, recoveredBase: nat, lostBase: nat) {
    && |slots| == WIDTH
    && |f.recovered| == recoveredBase + |out.recovered|
    && |f.lost| == lostBase + |out.lost|
    && (forall i :: 0 <= i < |out.recovered| ==> Reported(at, slots, f.recovered[recoveredBase + i], out.recovered[i]))
    && (forall i :: 0 <= i < |out.lost| ==> out.lost[i] == Wrap(f.lost[lostBase + i]))
  }

  /** The report names a window position and carries the vector its slot holds. */
  ghost predicate Reported(at: int, slots: seq<Slot>, p: int, r: RecoveredSymbol)
    requires |slots| == WIDTH
  {
    at <= p < at + WIDTH && r.esi == Wrap(p) && slots[p % WIDTH] == Slot(Wrap(p), r.vector, true, true)
  }

  lemma SettleLogged(at: int, slots: seq<Slot>, f: Fates, out: Delivery, recoveredBase: nat, lostBase: nat, p: int,
                     v: seq<byte>)
    requires Placed(at, slots) && OneFate(at, slots, f) && at <= p < at + WIDTH && !slots[p % WIDTH].live
    requires Logged(at, slots, f, out, recoveredBase, lostBase)
    ensures Logged(at, slots[p % WIDTH := Slot(Wrap(p), v, true, true)], Settle(f, p, true),
                   out.(recovered := out.recovered + [RecoveredSymbol(Wrap(p), v)]), recoveredBase, lostBase)
  {
    hide Index, Wrap, Age, OneFate, Placed;
    var out' := out.(recovered := out.recovered + [RecoveredSymbol(Wrap(p), v)]);
    var f' := Settle(f, p, true);
    var slots' := slots[p % WIDTH := Slot(Wrap(p), v, true, true)];
    forall i | 0 <= i < |out'.recovered|
      ensures Reported(at, slots', f'.recovered[recoveredBase + i], out'.recovered[i])
    {
      if i < |out.recovered| {
        assert Reported(at, slots, f.recovered[recoveredBase + i], out.recovered[i]);
      }
    }
  }

  /** The oldest position leaves the window: lost if it was not known and is known to exist. */
  function Leave(f: Fates, p: int, lostNow: bool): Fates {
    if lostNow then f.(lost := f.lost + [p]) else f
  }

  lemma EvictOneFate(at: int, slots: seq<Slot>, f: Fates, lostNow: bool)
    requires Placed(at, slots) && OneFate(at, slots, f)
    requires lostNow ==> !slots[at % WIDTH].live
    ensures var slots' := slots[at % WIDTH := EmptySlot];
            Placed(at + 1, slots') && OneFate(at + 1, slots', Leave(f, at, lostNow))
    ensures slots[at % WIDTH].live <==> at in f.known
  {
    hide Index, Wrap, Age;
    OneMore(at, at);
    forall k | 0 <= k < WIDTH
      ensures k != at % WIDTH ==> Place(at + 1, k) == Place(at, k)
      ensures k == at % WIDTH ==> Place(at + 1, k) == at + WIDTH
    {
      PlaceSlides(at, k);
    }
  }

  lemma EvictLogged(at: int, slots: seq<Slot>, f: Fates, out: Delivery, recoveredBase: nat, lostBase: nat,
                    lostNow: bool)
    requires |slots| == WIDTH && out.recovered == [] && Logged(at, slots, f, out, recoveredBase, lostBase)
    ensures var out' := if lostNow then out.(lost := out.lost + [Wrap(at)]) else out;
            Logged(at + 1, slots[at % WIDTH := EmptySlot], Leave(f, at, lostNow), out', recoveredBase, lostBase)
  {}

  /** The first arrival places an empty window just below itself. */
  lemma FirstWindow(p: int, slots: seq<Slot>)
    requires |slots| == WIDTH && forall k :: 0 <= k < WIDTH ==> !slots[k].live
    ensures Placed(p + 1 - WIDTH, slots) && OneFate(p + 1 - WIDTH, slots, NoFates)
  {}

  lemma EmptyLog(at: int, slots: seq<Slot>, f: Fates)
    requires |slots| == WIDTH
    ensures Logged(at, slots, f, Nothing, |f.recovered|, |f.lost|)
  {}

  /** The slots walked so far hold nothing and no row mentions them. */
  ghost predicate Vacated(at0: int, at: int, slots: seq<Slot>, rows: seq<Row>) {
    && |slots| == WIDTH
    && forall k :: 0 <= k < WIDTH && Age(at0, k) < at - at0 ==>
         !slots[k].live && forall i :: 0 <= i < |rows| ==> rows[i].coef[k] == ZERO
  }

  lemma VacateOne(at0: int, at: int, slots: seq<Slot>, rows: seq<Row>)
    requires Vacated(at0, at, slots, rows) && at0 <= at < at0 + WIDTH
    ensures Vacated(at0, at + 1, slots[at % WIDTH := EmptySlot], Unmentioned(rows, at % WIDTH))
    ensures forall r :: r in Unmentioned(rows, at % WIDTH) ==> r in rows
  {
    hide Unmentioned, Origins, Index, Age, Place;
    OneMore(at0, at);
    UnmentionedOrigins(rows, at % WIDTH);
  }

  /** A whole window of evictions empties a system in reduced form. */
  lemma VacatedEmpty(at0: int, slots: seq<Slot>, rows: seq<Row>)
    requires Vacated(at0, at0 + WIDTH, slots, rows) && Reduced(at0 + WIDTH, slots, rows)
    ensures rows == [] && forall k :: 0 <= k < WIDTH ==> !slots[k].live
  {
    hide Index, Reduced;
    var pivot := if |rows| > 0 then Index(rows[0].pivot) else 0;
    assert |rows| > 0 ==> rows[0].coef[pivot] == ZERO by { assert Age(at0, pivot) < WIDTH; }
    RowsHaveUnits(at0 + WIDTH, slots, rows);
    forall k | 0 <= k < WIDTH ensures !slots[k].live { assert Age(at0, k) < WIDTH; }
  }

  lemma SlidingReduced(at: int, slots: seq<Slot>, rows: seq<Row>)
    requires |slots| == WIDTH && Reduced(at, slots, rows) && Tight(rows)
    ensures var slots', rows' := slots[at % WIDTH := EmptySlot], Unmentioned(rows, at % WIDTH);
            Reduced(at + 1, slots', rows') && Tight(rows')
  {
    hide Index, Unmentioned, Origins;
    var k := at % WIDTH;
    var slots', rows' := slots[k := EmptySlot], Unmentioned(rows, k);
    UnmentionedReduced(at, slots, rows, k);
    UnmentionedOrigins(rows, k);
    forall i | 0 <= i < |rows'| ensures Shaped(at + 1, slots', rows'[i]) {
      assert Shaped(at, slots, rows'[i]);
      ShapeSlides(at, slots, rows'[i]);
    }
  }

  lemma ShapeSlides(at: int, slots: seq<Slot>, r: Row)
    requires |slots| == WIDTH && Shaped(at, slots, r) && r.coef[at % WIDTH] == ZERO
    ensures Shaped(at + 1, slots[at % WIDTH := EmptySlot], r)
  {
    hide Index, Age, Place;
    forall i | 0 <= i < WIDTH
      ensures i != at % WIDTH ==> Place(at + 1, i) == Place(at, i) && Age(at + 1, i) == Age(at, i) - 1
    {
      PlaceSlides(at, i);
    }
  }

  lemma JumpOneFate(at0: int, at: int, at': int, slots: seq<Slot>, rows: seq<Row>, f: Fates)
    requires Vacated(at0, at, slots, rows) && at == at0 + WIDTH && at <= at' && OneFate(at, slots, f)
    requires forall p :: p in f.known ==> p < at0 + WIDTH
    ensures Placed(at', slots) && OneFate(at', slots, f)
  {
    hide Wrap;
  }

  lemma VacateNone(at: int, slots: seq<Slot>, rows: seq<Row>)
    requires |slots| == WIDTH
    ensures Vacated(at, at, slots, rows)
  {}

  /** Past a whole window of evictions nothing is left to lose by moving on in one step. */
  lemma SolvedJumps(at0: int, at': int, slots: seq<Slot>, rows: seq<Row>, told: seq<Equation>, truth: nat -> Assignment)
    requires Vacated(at0, at0 + WIDTH, slots, rows) && Solved(at0 + WIDTH, slots, rows, told)
    requires at0 + WIDTH <= at' && forall i :: 0 <= i < |told| ==> told[i].at <= at0
    requires forall j: nat :: Satisfies(truth(j), told, j)
    ensures Solved(at', slots, rows, told)
  {
    hide Reduced, Tight, Exact, Satisfies;
    VacatedEmpty(at0, slots, rows);
    SolvedEmpty(at', slots, told, truth);
  }

  lemma AccountOne(origin: int, at: int, f: Fates, f': Fates)
    requires AccountedFor(origin, at, f) && f'.known == f.known
    requires f'.lost == f.lost || f'.lost == f.lost + [at]
    requires f'.lost == f.lost + [at] <==> origin <= at && at !in f.known
    ensures AccountedFor(origin, at + 1, f')
  {
    if f'.lost == f.lost + [at] { assert f'.lost[|f.lost|] == at; }
  }

  lemma JumpLogged(at: int, at': int, slots: seq<Slot>, f: Fates, out: Delivery, recoveredBase: nat, lostBase: nat)
    requires out.recovered == [] && Logged(at, slots, f, out, recoveredBase, lostBase)
    ensures Logged(at', slots, f, out, recoveredBase, lostBase)
  {}

  /** The rows are reduced, each with two unknowns, and hold exactly what was told. */
  ghost predicate Solved(at: int, slots: seq<Slot>, rows: seq<Row>, told: seq<Equation>)
    requires |slots| == WIDTH
  {
    Reduced(at, slots, rows) && Tight(rows) && Exact(at, slots, rows, told) && Within(at, told)
  }

  /** Every position from the origin up to the window is known or lost, and only those are lost. */
  ghost predicate AccountedFor(origin: int, at: int, f: Fates) {
    && (forall p :: origin <= p < at ==> p in f.known || p in f.lost)
    && (forall p :: p in f.lost ==> origin <= p)
  }

  lemma SolvedSlides(at: int, slots: seq<Slot>, rows: seq<Row>, told: seq<Equation>)
    requires |slots| == WIDTH && Solved(at, slots, rows, told)
    ensures Solved(at + 1, slots[at % WIDTH := EmptySlot], Unmentioned(rows, at % WIDTH), told)
  {
    hide Reduced, Tight, Exact, Within, Unmentioned;
    SlidingExact(at, slots, rows, told);
    SlidingReduced(at, slots, rows);
  }

  lemma SolvedEmpty(at: int, slots: seq<Slot>, told: seq<Equation>, truth: nat -> Assignment)
    requires |slots| == WIDTH && forall k :: 0 <= k < WIDTH ==> !slots[k].live
    requires forall i :: 0 <= i < |told| ==> told[i].at + WIDTH <= at
    requires forall j: nat :: Satisfies(truth(j), told, j)
    ensures Solved(at, slots, [], told)
  {
    EmptyExact(at, slots, told, truth);
  }

  lemma SolvedWithin(at: int, slots: seq<Slot>, rows: seq<Row>, told: seq<Equation>)
    requires |slots| == WIDTH && Solved(at, slots, rows, told)
    ensures forall i :: 0 <= i < |told| ==> told[i].at <= at
  {}

  lemma KnownBelow(at: int, slots: seq<Slot>, f: Fates)
    requires OneFate(at, slots, f)
    ensures forall p :: p in f.known ==> p < at + WIDTH
  {}

  lemma RowsHaveUnits(at: int, slots: seq<Slot>, rows: seq<Row>)
    requires |slots| == WIDTH && Reduced(at, slots, rows)
    ensures forall i :: 0 <= i < |rows| ==> rows[i].coef[Index(rows[i].pivot)] == ONE
  {}

  /** The row that mentions one symbol, once. */
  function UnitLine(k: nat): Line
    requires k < WIDTH
  {
    seq(WIDTH, i => if i == k then ONE else ZERO)
  }

  /** A repair is the combination of the stream's symbols from position p on. */
  ghost predicate IsCombination(r: RepairSymbol, p: int, truth: nat -> Assignment) {
    r.count >= 0 && forall j: nat :: At(r.vector, j) == Combination(truth(j), r.rid, p, r.count)
  }

  /** Everything the delivery reports as recovered is the stream's own symbol. */
  ghost predicate Original(f: Fates, out: Delivery, base: nat, stream: int -> seq<byte>) {
    && |f.recovered| == base + |out.recovered|
    && forall i :: 0 <= i < |out.recovered| ==> SameSymbol(out.recovered[i].vector, stream(f.recovered[base + i]))
  }

  /** What the stream says, as assignments of bytes. */
  ghost function TruthOf(stream: int -> seq<byte>): nat -> Assignment
  {
    j => p => At(stream(p), j)
  }

  lemma LearnedByArrival(at: int, slots: seq<Slot>, rows: seq<Row>, k: nat, s: Slot, slots': seq<Slot>, rows': seq<Row>)
    requires |slots| == |slots'| == WIDTH && k < WIDTH && Known(s) && !Known(slots[k])
    requires SameSolutions(slots[k := s], SubstituteRows(rows, k, s.vector), slots', rows')
    ensures Learned(slots, rows, slots', rows', UnitLine(k), s.vector)
  {
    hide Holds, RowHolds, SubstituteRow;
    var slots1, rows1 := slots[k := s], SubstituteRows(rows, k, s.vector);
    forall x: Line, j: nat
      ensures Holds(slots1, rows1, x, j) <==> Holds(slots, rows, x, j) && RowHolds(UnitLine(k), s.vector, x, j)
    {
      SubstitutionHolds(slots, rows, k, s, x, j);
      SingleRowHolds(UnitLine(k), s.vector, k, x, j);
    }
    LearnedThenSame(slots, rows, slots1, rows1, slots', rows', UnitLine(k), s.vector);
  }

  /** A step that learns a true equation keeps what is held exact and true. */
  lemma LearnedSolved(at: int, slots: seq<Slot>, rows: seq<Row>, told: seq<Equation>, slots': seq<Slot>,
                      rows': seq<Row>, coef: Line, data: seq<byte>, truth: nat -> Assignment)
    requires |slots| == |slots'| == WIDTH && Solved(at, slots, rows, told)
    requires Learned(slots, rows, slots', rows', coef, data) && Reduced(at, slots', rows') && Tight(rows')
    requires forall j: nat :: Satisfies(truth(j), told, j) && RowHolds(coef, data, Column(truth(j), at), j)
    ensures Solved(at, slots', rows', told + [Equation(at, coef, data)])
    ensures forall j: nat :: Satisfies(truth(j), told + [Equation(at, coef, data)], j)
  {
    hide Reduced, Tight, Holds, RowHolds, Column;
    LearnedExact(at, slots, rows, told, slots', rows', coef, data, truth);
  }

  lemma LearnedExact(at: int, slots: seq<Slot>, rows: seq<Row>, told: seq<Equation>, slots': seq<Slot>, rows': seq<Row>,
                     coef: Line, data: seq<byte>, truth: nat -> Assignment)
    requires |slots| == |slots'| == WIDTH && Exact(at, slots, rows, told)
    requires Learned(slots, rows, slots', rows', coef, data)
    requires forall j: nat :: Satisfies(truth(j), told, j) && RowHolds(coef, data, Column(truth(j), at), j)
    ensures Exact(at, slots', rows', told + [Equation(at, coef, data)])
    ensures forall j: nat :: Satisfies(truth(j), told + [Equation(at, coef, data)], j)
  {
    hide Holds, RowHolds, Column;
    LearningExact(at, slots, rows, slots', rows', told, coef, data);
  }

  /** The truth is among the solutions, so any true equation is consistent with what is held. */
  lemma TruthConsistent(at: int, slots: seq<Slot>, rows: seq<Row>, told: seq<Equation>, coef: Line, data: seq<byte>,
                        truth: nat -> Assignment)
    requires |slots| == WIDTH && Solved(at, slots, rows, told)
    requires forall j: nat :: Satisfies(truth(j), told, j) && RowHolds(coef, data, Column(truth(j), at), j)
    ensures Consistent(slots, rows, coef, data)
  {
    hide Reduced, Tight, Holds, RowHolds, Column, Satisfies;
    forall j: nat ensures Solvable(slots, rows, coef, data, j) {
      var x := Column(truth(j), at);
      assert Extends(told, at, x, j);
      assert Holds(slots, rows, x, j);
    }
  }

  /** Soundness of a delivery: recovered symbols sit in known slots, and those hold the truth. */
  lemma DeliveryOriginal(at: int, slots: seq<Slot>, rows: seq<Row>, told: seq<Equation>, f: Fates, out: Delivery,
                         recoveredBase: nat, lostBase: nat, stream: int -> seq<byte>)
    requires |slots| == WIDTH && Exact(at, slots, rows, told)
    requires forall j: nat :: Satisfies(TruthOf(stream)(j), told, j)
    requires Logged(at, slots, f, out, recoveredBase, lostBase)
    ensures Original(f, out, recoveredBase, stream)
  {
    hide Reduced, Tight, Exact, Satisfies, Wrap, At;
    forall i, j: nat | 0 <= i < |out.recovered|
      ensures At(out.recovered[i].vector, j) == At(stream(f.recovered[recoveredBase + i]), j)
    {
      var p := f.recovered[recoveredBase + i];
      assert Reported(at, slots, p, out.recovered[i]);
      assert Satisfies(TruthOf(stream)(j), told, j);
      KnownIsDetermined(at, slots, rows, told, p, TruthOf(stream)(j), j);
    }
  }

  lemma ArrivalTrue(at: int, p: int, v: seq<byte>, stream: int -> seq<byte>)
    requires at <= p < at + WIDTH && SameSymbol(v, stream(p))
    ensures forall j: nat :: RowHolds(UnitLine(p % WIDTH), v, Column(TruthOf(stream)(j), at), j)
  {
    hide Dot, At, Column;
    forall j: nat ensures RowHolds(UnitLine(p % WIDTH), v, Column(TruthOf(stream)(j), at), j) {
      SingleRowHolds(UnitLine(p % WIDTH), v, p % WIDTH, Column(TruthOf(stream)(j), at), j);
      ColumnAt(TruthOf(stream)(j), at, p);
      assert At(v, j) == At(stream(p), j);
    }
  }

  lemma RepairTrue(at: int, r: RepairSymbol, p: int, truth: nat -> Assignment)
    requires IsCombination(r, p, truth) && at <= p && p + r.count <= at + WIDTH
    ensures forall j: nat :: RowHolds(RepairRow(r.rid, p, r.count), r.vector, Column(truth(j), at), j)
  {
    hide Dot, At, Column, Combination, RepairRow;
    forall j: nat ensures RowHolds(RepairRow(r.rid, p, r.count), r.vector, Column(truth(j), at), j) {
      RepairRowDot(at, r.rid, p, r.count, truth(j));
    }
  }

  lemma NoneOriginal(f: Fates, out: Delivery, base: nat, stream: int -> seq<byte>)
    requires |f.recovered| == base && out.recovered == []
    ensures Original(f, out, base, stream)
  {}

  lemma KnownWhenLive(at: int, slots: seq<Slot>, f: Fates, p: int)
    requires Placed(at, slots) && OneFate(at, slots, f) && at <= p < at + WIDTH
    ensures slots[p % WIDTH].live <==> p in f.known
    ensures slots[p % WIDTH].live ==> slots[p % WIDTH].known && slots[p % WIDTH].esi == Wrap(p)
  {
    hide Index, Wrap, Age;
    OneMore(at, p);
  }

  /** A row whose pivot is slot p's carries p's identifier as its pivot. */
  lemma NoPivotAt(at: int, slots: seq<Slot>, rows: seq<Row>, p: int)
    requires |slots| == WIDTH && Reduced(at, slots, rows) && at <= p < at + WIDTH
    requires forall r :: r in rows ==> r.pivot != Wrap(p)
    ensures !IsPivot(rows, p % WIDTH)
  {
    hide Index, Wrap, Age, Leads;
    OneMore(at, p);
    forall i | 0 <= i < |rows| ensures Index(rows[i].pivot) != p % WIDTH {
      assert rows[i] in rows;
      assert Shaped(at, slots, rows[i]);
    }
  }

  lemma SettleArrivalLogged(at: int, slots: seq<Slot>, f: Fates, out: Delivery, recoveredBase: nat, lostBase: nat,
                            p: int, v: seq<byte>)
    requires Placed(at, slots) && OneFate(at, slots, f) && at <= p < at + WIDTH && !slots[p % WIDTH].live
    requires Logged(at, slots, f, out, recoveredBase, lostBase)
    ensures Logged(at, slots[p % WIDTH := Slot(Wrap(p), v, true, true)], Settle(f, p, false), out, recoveredBase,
                   lostBase)
  {
    hide Index, Wrap, Age, OneFate, Placed;
    var slots' := slots[p % WIDTH := Slot(Wrap(p), v, true, true)];
    forall i | 0 <= i < |out.recovered|
      ensures Reported(at, slots', f.recovered[recoveredBase + i], out.recovered[i])
    {
      assert Reported(at, slots, f.recovered[recoveredBase + i], out.recovered[i]);
    }
  }

  lemma AccountedMore(origin: int, at: int, f: Fates, f': Fates)
    requires f.known <= f'.known && f'.lost == f.lost
    ensures AccountedFor(origin, at, f) ==> AccountedFor(origin, at, f')
  {}

  // ---------------------------------------------------------------- a late source symbol

  /** The row still depends on two symbols or more. */
  ghost predicate Waiting(c: Line) {
    !AllZero(c) && forall k :: !OnlyAt(c, k)
  }

  lemma EmptyNotWaiting(c: Line)
    requires AllZero(c)
    ensures !Waiting(c)
  {}

  /** Row i is the first that does not wait: it depends on symbol k alone. */
  ghost predicate FirstSingle(rows: seq<Row>, i: nat, k: nat) {
    i < |rows| && OnlyAt(rows[i].coef, k) && forall m :: 0 <= m < i ==> Waiting(rows[m].coef)
  }

  /** The row mentions k and u and nothing else. */
  ghost predicate OnlyPair(c: Line, k: nat, u: nat) {
    k < WIDTH && u < WIDTH && k != u && c[k] != ZERO && c[u] != ZERO
    && forall m :: 0 <= m < WIDTH && m != k && m != u ==> c[m] == ZERO
  }

  /** The failing inputs of a reduced and exact state: a symbol arriving late, after a repair has made
      it the pivot of a row with exactly one other unknown, whose coefficient is not one, and whose
      remainder is not zero. The row is not scaled again, so its remainder is taken for the other
      symbol unscaled. A late arrival that is none of these still leaves its row without a pivot to
      scale by, so that from then on other arrivals can fail too. */
  ghost predicate Corrupts(rows: seq<Row>, esi: uint32, vector: seq<byte>) {
    exists i, u :: 0 <= i < |rows| && 0 <= u < WIDTH && rows[i].pivot == esi && OnlyPair(rows[i].coef, Index(esi), u)
      && rows[i].coef[u] != ONE && !SameSymbol(rows[i].data, vector)
  }

  /** What the decoder holds: known symbols, equations, and what has become of every position. */
  datatype Held = Held(slots: seq<Slot>, rows: seq<Row>, fates: Fates)

  /** Taking row i as the value of symbol k. */
  function TakeRow(at: int, h: Held, i: nat, k: nat): (h': Held)
    requires |h.slots| == WIDTH && i < |h.rows| && k < WIDTH
    ensures |h'.slots| == WIDTH
  {
    var rest := Without(h.rows, i);
    if h.slots[k].live then h.(rows := rest)
    else Held(h.slots[k := Slot(Wrap(Place(at, k)), h.rows[i].data, true, true)],
              SubstituteRows(rest, k, h.rows[i].data),
              Settle(h.fates, Place(at, k), true))
  }

  /** ... and what it reports. */
  function TakeOut(at: int, h: Held, i: nat, k: nat, out: Delivery): Delivery
    requires |h.slots| == WIDTH && i < |h.rows| && k < WIDTH
  {
    if h.slots[k].live then out
    else out.(recovered := out.recovered + [RecoveredSymbol(Wrap(Place(at, k)), h.rows[i].data)])
  }

  ghost predicate AllWaiting(rows: seq<Row>) {
    forall r :: r in rows ==> Waiting(r.coef)
  }

  ghost predicate IsFirst(h: Held, i: nat, k: nat) {
    FirstSingle(h.rows, i, k) && k < |h.slots| && !h.slots[k].live
  }

  /** The first row that does not wait was taken first, as it stood; the rest followed from there. */
  ghost predicate TookFirst(at: int, was: Held, i: nat, k: nat, out: Delivery, now: Held, out': Delivery)
    requires |was.slots| == |now.slots| == WIDTH && i < |was.rows| && k < WIDTH
  {
    var after := TakeRow(at, was, i, k);
    && TakeOut(at, was, i, k, out).recovered <= out'.recovered
    && (Reduced(at, after.slots, after.rows) ==>
          Reduced(at, now.slots, now.rows) && SameSolutions(after.slots, after.rows, now.slots, now.rows))
  }

  /** What a harvest has done so far. */
  ghost predicate Since(at: int, was: Held, out: Delivery, now: Held, out': Delivery, taken: bool, i0: nat, k0: nat)
    requires |was.slots| == |now.slots| == WIDTH
  {
    && (Reduced(at, was.slots, was.rows) ==>
          Reduced(at, now.slots, now.rows) && SameSolutions(was.slots, was.rows, now.slots, now.rows))
    && (!taken ==> now == was && out' == out)
    && (AllWaiting(was.rows) ==> !taken)
    && (IsFirst(was, i0, k0) && taken ==> TookFirst(at, was, i0, k0, out, now, out'))
  }

  lemma SinceStart(at: int, h: Held, out: Delivery, i0: nat, k0: nat)
    requires |h.slots| == WIDTH
    ensures Since(at, h, out, h, out, false, i0, k0)
    ensures IsFirst(h, i0, k0) ==> i0 < |h.rows|
  {}

  lemma TakeEffect(at: int, h: Held, i: nat, k: nat, out: Delivery)
    requires |h.slots| == WIDTH && i < |h.rows| && k < WIDTH
    ensures var h' := TakeRow(at, h, i, k);
            |h'.rows| == |h.rows| - 1 && h.fates.known <= h'.fates.known && h'.fates.lost == h.fates.lost
    ensures TakeOut(at, h, i, k, out).lost == out.lost
  {}

  /** A reduced row is not empty. */
  lemma ReducedNotZero(at: int, slots: seq<Slot>, rows: seq<Row>, i: nat)
    requires |slots| == WIDTH && i < |rows| && Reduced(at, slots, rows)
    ensures !AllZero(rows[i].coef)
  {
    assert Shaped(at, slots, rows[i]);
  }

  lemma SinceDrops(at: int, was: Held, out: Delivery, now: Held, out': Delivery, taken: bool, i0: nat, k0: nat, i: nat)
    requires |was.slots| == |now.slots| == WIDTH && Since(at, was, out, now, out', taken, i0, k0)
    requires i < |now.rows| && AllZero(now.rows[i].coef) && (!taken && IsFirst(was, i0, k0) ==> i <= i0)
    ensures Since(at, was, out, now.(rows := Without(now.rows, i)), out', true, i0, k0)
    ensures !Reduced(at, was.slots, was.rows)
  {
    hide Reduced, TakeRow, TakeOut, Holds;
    if Reduced(at, now.slots, now.rows) { ReducedNotZero(at, now.slots, now.rows, i); }
    assert !Waiting(now.rows[i].coef);
    assert now.rows[i] in now.rows;
  }

  lemma TakeStep(at: int, h: Held, i: nat, k: nat)
    requires |h.slots| == WIDTH && i < |h.rows| && OnlyAt(h.rows[i].coef, k) && Reduced(at, h.slots, h.rows)
    ensures var h' := TakeRow(at, h, i, k);
            !Known(h.slots[k]) && (!h.slots[k].live ==>
              Reduced(at, h'.slots, h'.rows) && SameSolutions(h.slots, h.rows, h'.slots, h'.rows))
  {
    hide Index, Holds, Shaped, Apart, SubstituteRow, Wrap, Place;
    OnlyAtPivot(at, h.slots, h.rows, i, k);
    HarvestStep(at, h.slots, h.rows, i, Slot(Wrap(Place(at, k)), h.rows[i].data, true, true));
  }

  lemma OnlyAtPivot(at: int, slots: seq<Slot>, rows: seq<Row>, i: nat, k: nat)
    requires |slots| == WIDTH && i < |rows| && OnlyAt(rows[i].coef, k) && Reduced(at, slots, rows)
    ensures Index(rows[i].pivot) == k
  {
    assert Shaped(at, slots, rows[i]);
  }

  lemma SinceTakes(at: int, was: Held, out: Delivery, now: Held, out': Delivery, taken: bool, i0: nat, k0: nat, i: nat,
                   k: nat)
    requires |was.slots| == |now.slots| == WIDTH && Since(at, was, out, now, out', taken, i0, k0)
    requires Placed(at, now.slots)
    requires i < |now.rows| && OnlyAt(now.rows[i].coef, k) && (!taken && IsFirst(was, i0, k0) ==> i <= i0)
    ensures Since(at, was, out, TakeRow(at, now, i, k), TakeOut(at, now, i, k, out'), true, i0, k0)
  {
    hide Reduced, TakeRow, Holds, Wrap, Place;
    if Reduced(at, now.slots, now.rows) { TakeStep(at, now, i, k); }
    assert !Waiting(now.rows[i].coef);
    assert now.rows[i] in now.rows;
    if !taken && IsFirst(was, i0, k0) {
      assert i == i0 && k == k0;
    }
  }

  /** Passing over a row: it is not the first that does not wait, and in reduced form not single. */
  lemma SinceSkips(at: int, was: Held, out: Delivery, now: Held, out': Delivery, taken: bool, i0: nat, k0: nat, i: nat,
                   pivot: uint32)
    requires |was.slots| == |now.slots| == WIDTH && Since(at, was, out, now, out', taken, i0, k0) && i < |now.rows|
    ensures (Reduced(at, was.slots, was.rows) && Leads(at, now.rows[i].coef, Index(pivot))
             && !OnlyAt(now.rows[i].coef, Index(pivot))) ==>
      !OnlyAt(now.rows[i].coef, Index(now.rows[i].pivot))
    ensures !taken && IsFirst(was, i0, k0) && i == i0 ==> OnlyAt(now.rows[i].coef, k0)
    ensures !taken && IsFirst(was, i0, k0) && i == i0 && Leads(at, now.rows[i].coef, Index(pivot)) ==>
      OnlyAt(now.rows[i].coef, Index(pivot))
  {
    hide Index, Holds, Reduced;
    if Reduced(at, now.slots, now.rows) { LeadingIsPivot(at, now.slots, now.rows, i, pivot); }
  }

  lemma SinceEnds(at: int, was: Held, out: Delivery, now: Held, out': Delivery, taken: bool, i0: nat, k0: nat)
    requires |was.slots| == |now.slots| == WIDTH && Since(at, was, out, now, out', taken, i0, k0)
    ensures Reduced(at, was.slots, was.rows) ==>
      Reduced(at, now.slots, now.rows) && SameSolutions(was.slots, was.rows, now.slots, now.rows)
    ensures AllWaiting(was.rows) ==> now == was && out' == out
    ensures IsFirst(was, i0, k0) && taken ==> TookFirst(at, was, i0, k0, out, now, out')
  {}
}
