/** What stays true of a decoder whatever order its arrivals come in (window.go): as long as nothing
    wrong was reported every equation held is true of the stream, and each vector held is as long as
    the symbols it stands for. */
module Truth {
  import opened Gf256
  import opened Vectors
  import opened Ids
  import opened LinearSystem
  import opened Echelon
  import opened Knowledge
  import opened Coefficients
  import opened DecoderSteps
  import opened LateArrival

  // ---------------------------------------------------------------- true equations

  /** Every value and every equation held is true of the stream. */
  ghost predicate Truthful(at: int, slots: seq<Slot>, rows: seq<Row>, stream: int -> seq<byte>)
    requires |slots| == WIDTH
  {
    forall j: nat :: Holds(slots, rows, Column(TruthOf(stream)(j), at), j)
  }

  /** The equation is true of the stream. */
  ghost predicate TrueRow(at: int, coef: Line, data: seq<byte>, stream: int -> seq<byte>) {
    forall j: nat :: RowHolds(coef, data, Column(TruthOf(stream)(j), at), j)
  }

  lemma SolvedTruthful(at: int, slots: seq<Slot>, rows: seq<Row>, told: seq<Equation>, stream: int -> seq<byte>)
    requires |slots| == WIDTH && Exact(at, slots, rows, told) && forall j: nat :: Satisfies(TruthOf(stream)(j), told, j)
    ensures Truthful(at, slots, rows, stream)
  {
    hide Holds, Satisfies, Column;
    forall j: nat ensures Holds(slots, rows, Column(TruthOf(stream)(j), at), j) {
      assert Satisfies(TruthOf(stream)(j), told, j);
      assert Extends(told, at, Column(TruthOf(stream)(j), at), j);
    }
  }

  /** A row with one unknown is taken rightly when its coefficient is one or nothing remains in it. */
  ghost predicate TakenRightly(h: Held, i: nat, k: nat)
    requires i < |h.rows| && k < |h.slots| == WIDTH
  {
    h.slots[k].live || h.rows[i].coef[k] == ONE || forall j: nat :: At(h.rows[i].data, j) == ZERO
  }

  /** Taken from a state true of the stream, a row with one unknown gives the stream's own symbol
      exactly when its coefficient is one or its remainder is zero, and then the state stays true. */
  lemma TakenRight(at: int, h: Held, i: nat, k: nat, stream: int -> seq<byte>)
    requires |h.slots| == WIDTH && Truthful(at, h.slots, h.rows, stream)
    requires i < |h.rows| && k < WIDTH && OnlyAt(h.rows[i].coef, k)
    ensures !h.slots[k].live ==> (SameSymbol(h.rows[i].data, stream(Place(at, k))) <==> TakenRightly(h, i, k))
    ensures TakenRightly(h, i, k) ==> var h' := TakeRow(at, h, i, k); Truthful(at, h'.slots, h'.rows, stream)
  {
    hide Holds, RowHolds, At, Mul, Column, TakeRow, SubstituteRow, Place, Wrap;
    var c, d, rest := h.rows[i].coef[k], h.rows[i].data, Without(h.rows, i);
    forall j: nat
      ensures Holds(h.slots, rest, Column(TruthOf(stream)(j), at), j)
      ensures At(d, j) == At(stream(Place(at, k)), j) <==> c == ONE || At(d, j) == ZERO
    {
      var x := Column(TruthOf(stream)(j), at);
      HoldsWithout(h.slots, h.rows, i, x, j);
      SingleRowSays(h.rows[i], k, x, j);
      UnscaledRight(c, x[k], At(d, j));
      ColumnSays(stream, at, k, j);
    }
    if TakenRightly(h, i, k) {
      TookIs(at, h, i, k);
      if !h.slots[k].live {
        var s := Slot(Wrap(Place(at, k)), d, true, true);
        forall j: nat ensures Holds(h.slots[k := s], SubstituteRows(rest, k, d), Column(TruthOf(stream)(j), at), j) {
          ColumnSays(stream, at, k, j);
          SubstitutionHolds(h.slots, rest, k, s, Column(TruthOf(stream)(j), at), j);
        }
      }
    }
  }

  lemma TookIs(at: int, h: Held, i: nat, k: nat)
    requires |h.slots| == WIDTH && i < |h.rows| && k < WIDTH
    ensures var rest, d := Without(h.rows, i), h.rows[i].data;
            TakeRow(at, h, i, k) ==
              if h.slots[k].live then h.(rows := rest)
              else Held(h.slots[k := Slot(Wrap(Place(at, k)), d, true, true)], SubstituteRows(rest, k, d),
                        Settle(h.fates, Place(at, k), true))
  {}

  lemma ColumnSays(stream: int -> seq<byte>, at: int, k: nat, j: nat)
    requires k < WIDTH
    ensures Column(TruthOf(stream)(j), at)[k] == At(stream(Place(at, k)), j)
  {}

  lemma SingleRowSays(r: Row, k: nat, x: Line, j: nat)
    requires OnlyAt(r.coef, k)
    ensures k < WIDTH && r.coef[k] != ZERO
    ensures RowHolds(r.coef, r.data, x, j) <==> Mul(r.coef[k], x[k]) == At(r.data, j)
  {
    hide Mul, Dot, At;
    DotOnlyAt(r.coef, x, k);
  }

  /** Dropping a row leaves the rest as true as they were. */
  lemma DroppedTruthful(at: int, slots: seq<Slot>, rows: seq<Row>, i: nat, stream: int -> seq<byte>)
    requires |slots| == WIDTH && Truthful(at, slots, rows, stream) && i < |rows|
    ensures Truthful(at, slots, Without(rows, i), stream)
  {
    hide Holds, RowHolds, Column;
    forall j: nat ensures Holds(slots, Without(rows, i), Column(TruthOf(stream)(j), at), j) {
      HoldsWithout(slots, rows, i, Column(TruthOf(stream)(j), at), j);
    }
  }

  lemma RepairTrueRow(at: int, r: RepairSymbol, p: int, stream: int -> seq<byte>)
    requires IsCombination(r, p, TruthOf(stream)) && at <= p && p + r.count <= at + WIDTH
    ensures TrueRow(at, RepairRow(r.rid, p, r.count), r.vector, stream)
  {
    hide RowHolds, IsCombination;
    RepairTrue(at, r, p, TruthOf(stream));
  }

  lemma LoggedRecovered(at: int, slots: seq<Slot>, f: Fates, out: Delivery, base: nat, lostBase: nat)
    requires Logged(at, slots, f, out, base, lostBase)
    ensures |f.recovered| == base + |out.recovered|
  {}

  /** Recording a true symbol keeps the state true. */
  lemma RecordedTruthful(at: int, slots: seq<Slot>, rows: seq<Row>, p: int, v: seq<byte>, stream: int -> seq<byte>)
    requires |slots| == WIDTH && Truthful(at, slots, rows, stream) && at <= p < at + WIDTH && !slots[p % WIDTH].live
    requires SameSymbol(v, stream(p))
    ensures Truthful(at, slots[p % WIDTH := Slot(Wrap(p), v, true, true)], SubstituteRows(rows, p % WIDTH, v), stream)
  {
    hide Holds, SubstituteRow, Column, Wrap, At;
    var k, s := p % WIDTH, Slot(Wrap(p), v, true, true);
    forall j: nat ensures Holds(slots[k := s], SubstituteRows(rows, k, v), Column(TruthOf(stream)(j), at), j) {
      ColumnAt(TruthOf(stream)(j), at, p);
      assert At(v, j) == At(stream(p), j);
      SubstitutionHolds(slots, rows, k, s, Column(TruthOf(stream)(j), at), j);
    }
  }

  /** Adding a true equation, reduced by what is held and scaled, keeps the state true. */
  lemma InsertedTruthful(at: int, slots: seq<Slot>, rows: seq<Row>, coef: Line, data: seq<byte>, c: Line, d: seq<byte>,
                         f: byte, row: Row, stream: int -> seq<byte>)
    requires |slots| == WIDTH && Truthful(at, slots, rows, stream) && TrueRow(at, coef, data, stream)
    requires SameResidual(slots, rows, coef, data, c, d) && row.coef == Scale(f, c) && row.data == Scale(f, d)
    ensures Truthful(at, slots, ClearRows(rows, row) + [row], stream)
  {
    hide Holds, RowHolds, Column, Residual, Scale, ClearRow, Mul;
    forall j: nat ensures Holds(slots, ClearRows(rows, row) + [row], Column(TruthOf(stream)(j), at), j) {
      var x := Column(TruthOf(stream)(j), at);
      assert Holds(slots, rows, x, j) && RowHolds(coef, data, x, j);
      ResidualZero(coef, data, x, j);
      ResidualScale(f, c, d, x, j);
      MulZero(f);
      ResidualZero(row.coef, row.data, x, j);
      InsertionHolds(slots, rows, row, x, j);
    }
  }

  /** Eviction keeps what remains true. */
  lemma EvictedTruthful(at: int, slots: seq<Slot>, rows: seq<Row>, stream: int -> seq<byte>)
    requires |slots| == WIDTH && Truthful(at, slots, rows, stream)
    ensures Truthful(at + 1, slots[at % WIDTH := EmptySlot], Unmentioned(rows, at % WIDTH), stream)
  {
    hide Holds, Column, Unmentioned;
    forall j: nat
      ensures Holds(slots[at % WIDTH := EmptySlot], Unmentioned(rows, at % WIDTH), Column(TruthOf(stream)(j), at + 1),
                    j)
    {
      var a := TruthOf(stream)(j);
      SlideColumn(a, a, at, Column(a, at + 1));
      EvictionWeakens(slots, rows, at % WIDTH, Column(a, at + 1), Column(a, at), j);
    }
  }

  lemma VacatedZero(at0: int, slots: seq<Slot>, rows: seq<Row>)
    requires Vacated(at0, at0 + WIDTH, slots, rows)
    ensures forall k :: 0 <= k < WIDTH ==> !slots[k].live
    ensures forall i :: 0 <= i < |rows| ==> AllZero(rows[i].coef)
  {
    hide Age;
    forall k | 0 <= k < WIDTH ensures !slots[k].live && forall i :: 0 <= i < |rows| ==> rows[i].coef[k] == ZERO {
      assert Age(at0, k) < WIDTH;
    }
    forall i | 0 <= i < |rows| ensures AllZero(rows[i].coef) {
      forall k | 0 <= k < WIDTH ensures rows[i].coef[k] == ZERO { assert !slots[k].live; }
    }
  }

  /** Rows that mention nothing are true wherever the window stands. */
  lemma VacatedTruthful(at0: int, at: int, slots: seq<Slot>, rows: seq<Row>, stream: int -> seq<byte>)
    requires Vacated(at0, at0 + WIDTH, slots, rows) && Truthful(at0 + WIDTH, slots, rows, stream)
    ensures Truthful(at, slots, rows, stream)
  {
    hide Dot, At, Column, Age;
    VacatedZero(at0, slots, rows);
    forall j: nat ensures Holds(slots, rows, Column(TruthOf(stream)(j), at), j) {
      var x, y := Column(TruthOf(stream)(j), at), Column(TruthOf(stream)(j), at0 + WIDTH);
      assert Holds(slots, rows, y, j);
      forall i | 0 <= i < |rows| ensures RowHolds(rows[i].coef, rows[i].data, x, j) {
        DotZero(rows[i].coef, x); DotZero(rows[i].coef, y);
        assert RowHolds(rows[i].coef, rows[i].data, y, j);
      }
    }
  }

  lemma NothingTruthful(at: int, slots: seq<Slot>, stream: int -> seq<byte>)
    requires |slots| == WIDTH && forall k :: 0 <= k < WIDTH ==> !slots[k].live
    ensures Truthful(at, slots, [], stream)
  {}

  // ---------------------------------------------------------------- a whole harvest

  /** Harvesting on from row i takes every row it takes rightly. */
  ghost predicate TakesRightly(at: int, h: Held, i: nat, progress: bool)
    requires |h.slots| == WIDTH && i <= |h.rows|
    decreases |h.rows|, if progress then 1 else 0, |h.rows| - i
  {
    if i == |h.rows| then progress ==> TakesRightly(at, h, 0, false)
    else if AllZero(h.rows[i].coef) then TakesRightly(at, h.(rows := Without(h.rows, i)), i, progress)
    else if Waiting(h.rows[i].coef) then TakesRightly(at, h, i + 1, progress)
    else
      var k :| OnlyAt(h.rows[i].coef, k);
      TakeShrinks(at, h, i, k);
      TakenRightly(h, i, k) && TakesRightly(at, TakeRow(at, h, i, k), i, true)
  }

  lemma TakeShrinks(at: int, h: Held, i: nat, k: nat)
    requires |h.slots| == WIDTH && i < |h.rows| && k < WIDTH
    ensures |TakeRow(at, h, i, k).rows| == |h.rows| - 1
  {}

  /** How a harvest stands: right so far, and what is still to be taken. */
  ghost predicate Judged(at: int, was: Held, out: Delivery, now: Held, out': Delivery, base: nat,
                         stream: int -> seq<byte>, right: bool, i: nat, progress: bool)
    requires |was.slots| == |now.slots| == WIDTH && i <= |now.rows|
  {
    && (TakesRightly(at, was, 0, false) <==> right && TakesRightly(at, now, i, progress))
    && (Truthful(at, was.slots, was.rows, stream) && Original(was.fates, out, base, stream) ==>
          (right <==> Original(now.fates, out', base, stream)) && (right ==> Truthful(at, now.slots, now.rows, stream)))
  }

  /** What a harvest from a true state reports is the stream's own exactly when it takes every row
      rightly, and then the state stays true. */
  ghost predicate Outcome(at: int, was: Held, out: Delivery, now: Held, out': Delivery, base: nat,
                          stream: int -> seq<byte>)
    requires |was.slots| == |now.slots| == WIDTH
  {
    Truthful(at, was.slots, was.rows, stream) && Original(was.fates, out, base, stream) ==>
      (Original(now.fates, out', base, stream) <==> TakesRightly(at, was, 0, false))
      && (Original(now.fates, out', base, stream) ==> Truthful(at, now.slots, now.rows, stream))
  }

  lemma JudgedStart(at: int, h: Held, out: Delivery, base: nat, stream: int -> seq<byte>)
    requires |h.slots| == WIDTH
    ensures Judged(at, h, out, h, out, base, stream, true, 0, false)
  {
    hide Truthful, Original, TakesRightly;
  }

  lemma JudgedTurn(at: int, was: Held, out: Delivery, now: Held, out': Delivery, base: nat, stream: int -> seq<byte>,
                   right: bool)
    requires |was.slots| == |now.slots| == WIDTH
    requires Judged(at, was, out, now, out', base, stream, right, |now.rows|, true)
    ensures Judged(at, was, out, now, out', base, stream, right, 0, false)
  {
    hide Truthful, Original;
  }

  lemma JudgedEnd(at: int, was: Held, out: Delivery, now: Held, out': Delivery, base: nat, stream: int -> seq<byte>,
                  right: bool)
    requires |was.slots| == |now.slots| == WIDTH
    requires Judged(at, was, out, now, out', base, stream, right, |now.rows|, false)
    ensures Outcome(at, was, out, now, out', base, stream)
  {
    hide Truthful, Original;
  }

  lemma OutcomeFrom(at: int, was: Held, out: Delivery, now: Held, out': Delivery, base: nat, stream: int -> seq<byte>)
    requires |was.slots| == |now.slots| == WIDTH && Outcome(at, was, out, now, out', base, stream)
    requires Truthful(at, was.slots, was.rows, stream) && Original(was.fates, out, base, stream)
    ensures Original(now.fates, out', base, stream) <==> TakesRightly(at, was, 0, false)
    ensures Original(now.fates, out', base, stream) ==> Truthful(at, now.slots, now.rows, stream)
  {}

  lemma JudgedSkip(at: int, was: Held, out: Delivery, now: Held, out': Delivery, base: nat, stream: int -> seq<byte>,
                   right: bool, i: nat, progress: bool, m: nat)
    requires |was.slots| == |now.slots| == WIDTH && i < |now.rows|
    requires Judged(at, was, out, now, out', base, stream, right, i, progress)
    requires m < WIDTH && now.rows[i].coef[m] != ZERO && !OnlyAt(now.rows[i].coef, m)
    ensures Judged(at, was, out, now, out', base, stream, right, i + 1, progress)
  {
    hide Truthful, Original;
    assert Waiting(now.rows[i].coef);
  }

  lemma JudgedDrop(at: int, was: Held, out: Delivery, now: Held, out': Delivery, base: nat, stream: int -> seq<byte>,
                   right: bool, i: nat, progress: bool)
    requires |was.slots| == |now.slots| == WIDTH && i < |now.rows|
    requires Judged(at, was, out, now, out', base, stream, right, i, progress)
    requires AllZero(now.rows[i].coef)
    ensures Judged(at, was, out, now.(rows := Without(now.rows, i)), out', base, stream, right, i, progress)
  {
    if Truthful(at, now.slots, now.rows, stream) { DroppedTruthful(at, now.slots, now.rows, i, stream); }
    hide Truthful, Original;
  }

  lemma JudgedTake(at: int, was: Held, out: Delivery, now: Held, out': Delivery, base: nat, stream: int -> seq<byte>,
                   right: bool, i: nat, progress: bool, k: nat)
    requires |was.slots| == |now.slots| == WIDTH && i < |now.rows|
    requires Judged(at, was, out, now, out', base, stream, right, i, progress)
    requires OnlyAt(now.rows[i].coef, k) && |now.fates.recovered| == base + |out'.recovered|
    ensures k < WIDTH && i <= |TakeRow(at, now, i, k).rows|
    ensures Judged(at, was, out, TakeRow(at, now, i, k), TakeOut(at, now, i, k, out'), base, stream,
                   right && TakenRightly(now, i, k), i, true)
  {
    TakeShrinks(at, now, i, k);
    TakesOn(at, now, i, progress, k);
    OriginalMore(at, now, i, k, out', base, stream);
    if Truthful(at, now.slots, now.rows, stream) { TakenRight(at, now, i, k, stream); }
    hide Truthful, Original, TakeRow, TakeOut, TakesRightly, TakenRightly, SameSymbol, Place;
  }

  lemma TakesOn(at: int, h: Held, i: nat, progress: bool, k: nat)
    requires |h.slots| == WIDTH && i < |h.rows| && OnlyAt(h.rows[i].coef, k)
    ensures k < WIDTH && i <= |TakeRow(at, h, i, k).rows|
    ensures TakesRightly(at, h, i, progress) <==>
      TakenRightly(h, i, k) && TakesRightly(at, TakeRow(at, h, i, k), i, true)
  {
    hide TakeRow, TakenRightly;
    TakeShrinks(at, h, i, k);
    assert h.rows[i].coef[k] != ZERO;
    forall m | OnlyAt(h.rows[i].coef, m) ensures m == k {}
  }

  lemma OriginalMore(at: int, h: Held, i: nat, k: nat, out: Delivery, base: nat, stream: int -> seq<byte>)
    requires |h.slots| == WIDTH && i < |h.rows| && k < WIDTH && |h.fates.recovered| == base + |out.recovered|
    ensures Original(TakeRow(at, h, i, k).fates, TakeOut(at, h, i, k, out), base, stream) <==>
      Original(h.fates, out, base, stream) && (h.slots[k].live || SameSymbol(h.rows[i].data, stream(Place(at, k))))
  {
    hide SameSymbol, Place, Wrap;
    var f, f', out' := h.fates, TakeRow(at, h, i, k).fates, TakeOut(at, h, i, k, out);
    if !h.slots[k].live {
      var n := |out.recovered|;
      assert f'.recovered[base + n] == Place(at, k) && out'.recovered[n].vector == h.rows[i].data;
      assert forall m ::
        0 <= m < n ==> f'.recovered[base + m] == f.recovered[base + m] && out'.recovered[m] == out.recovered[m];
    }
  }

  // ---------------------------------------------------------------- room for whole symbols

  /** The vector is long enough for the symbol at a position, which the stream does have. */
  predicate Reaches(stream: int -> seq<byte>, first: int, q: int, v: seq<byte>) {
    first <= q && |stream(q)| <= |v|
  }

  ghost predicate RoomyRow(at: int, coef: Line, data: seq<byte>, stream: int -> seq<byte>, first: int) {
    forall k :: 0 <= k < WIDTH && coef[k] != ZERO ==> Reaches(stream, first, Place(at, k), data)
  }

  ghost predicate RoomyRows(at: int, rows: seq<Row>, stream: int -> seq<byte>, first: int) {
    forall i :: 0 <= i < |rows| ==> RoomyRow(at, rows[i].coef, rows[i].data, stream, first)
  }

  ghost predicate RoomySlots(at: int, slots: seq<Slot>, stream: int -> seq<byte>, first: int)
    requires |slots| == WIDTH
  {
    forall k :: 0 <= k < WIDTH && slots[k].live ==> Reaches(stream, first, Place(at, k), slots[k].vector)
  }

  /** Every vector held is long enough for each symbol it stands for or says something of. */
  ghost predicate Roomy(at: int, slots: seq<Slot>, rows: seq<Row>, stream: int -> seq<byte>, first: int)
    requires |slots| == WIDTH
  {
    RoomySlots(at, slots, stream, first) && RoomyRows(at, rows, stream, first)
  }

  lemma RoomyCombined(at: int, f: byte, r: Line, rd: seq<byte>, c: Line, d: seq<byte>, stream: int -> seq<byte>,
                      first: int)
    requires RoomyRow(at, r, rd, stream, first) && RoomyRow(at, c, d, stream, first)
    ensures RoomyRow(at, AddScaled(f, r, c), Combine(f, rd, d), stream, first)
  {
    hide Place, Mul, Xor;
    MulZero(f); XorUnit(ZERO);
    forall k | 0 <= k < WIDTH && r[k] == ZERO && c[k] == ZERO ensures AddScaled(f, r, c)[k] == ZERO {}
    assert |Combine(f, rd, d)| >= |rd| && |Combine(f, rd, d)| >= |d|;
  }

  lemma RoomyScaled(at: int, f: byte, c: Line, d: seq<byte>, stream: int -> seq<byte>, first: int)
    requires RoomyRow(at, c, d, stream, first)
    ensures RoomyRow(at, Scale(f, c), Scale(f, d), stream, first)
  {
    hide Place, Mul;
    forall k | 0 <= k < WIDTH && c[k] == ZERO ensures Scale(f, c)[k] == ZERO { ScaledZero(f, c, k); }
  }

  lemma RoomyInserted(at: int, rows: seq<Row>, row: Row, stream: int -> seq<byte>, first: int)
    requires RoomyRows(at, rows, stream, first) && RoomyRow(at, row.coef, row.data, stream, first)
    ensures RoomyRows(at, ClearRows(rows, row) + [row], stream, first)
  {
    hide RoomyRow, AddScaled, Combine, Index;
    var all := ClearRows(rows, row) + [row];
    forall i | 0 <= i < |all| ensures RoomyRow(at, all[i].coef, all[i].data, stream, first) {
      if i < |rows| {
        RoomyCombined(at, rows[i].coef[Index(row.pivot)], row.coef, row.data, rows[i].coef, rows[i].data, stream,
                      first);
      }
    }
  }

  lemma RoomySubstituted(at: int, rows: seq<Row>, k: nat, v: seq<byte>, stream: int -> seq<byte>, first: int)
    requires RoomyRows(at, rows, stream, first) && k < WIDTH
    ensures RoomyRows(at, SubstituteRows(rows, k, v), stream, first)
  {
    hide Place, AddScaled;
    forall i | 0 <= i < |rows|
      ensures var s := SubstituteRow(rows[i], k, v); RoomyRow(at, s.coef, s.data, stream, first)
    {
      assert RoomyRow(at, rows[i].coef, rows[i].data, stream, first);
    }
  }

  lemma RoomyWithout(at: int, rows: seq<Row>, i: nat, stream: int -> seq<byte>, first: int)
    requires RoomyRows(at, rows, stream, first) && i < |rows|
    ensures RoomyRows(at, Without(rows, i), stream, first)
  {
    hide RoomyRow;
    var rest := Without(rows, i);
    assert forall m :: 0 <= m < |rest| ==> rest[m] == rows[if m < i then m else m + 1];
  }

  lemma RoomyDropped(at: int, slots: seq<Slot>, rows: seq<Row>, i: nat, stream: int -> seq<byte>, first: int)
    requires |slots| == WIDTH && Roomy(at, slots, rows, stream, first) && i < |rows|
    ensures Roomy(at, slots, Without(rows, i), stream, first)
  {
    hide RoomyRows;
    RoomyWithout(at, rows, i, stream, first);
  }

  lemma RoomyNothing(at: int, slots: seq<Slot>, stream: int -> seq<byte>, first: int)
    requires |slots| == WIDTH && forall k :: 0 <= k < WIDTH ==> !slots[k].live
    ensures Roomy(at, slots, [], stream, first)
  {}

  /** Mentioning fewer symbols in a longer vector leaves room enough. */
  lemma RoomyLess(at: int, coef: Line, data: seq<byte>, c: Line, d: seq<byte>, stream: int -> seq<byte>, first: int)
    requires RoomyRow(at, coef, data, stream, first) && |d| >= |data|
    requires forall k :: 0 <= k < WIDTH ==> c[k] == coef[k] || c[k] == ZERO
    ensures RoomyRow(at, c, d, stream, first)
  {
    hide Place;
  }

  lemma RoomyTaken(at: int, h: Held, i: nat, k: nat, stream: int -> seq<byte>, first: int)
    requires |h.slots| == WIDTH && i < |h.rows| && OnlyAt(h.rows[i].coef, k)
    requires Roomy(at, h.slots, h.rows, stream, first)
    ensures k < WIDTH && var h' := TakeRow(at, h, i, k); Roomy(at, h'.slots, h'.rows, stream, first)
  {
    assert RoomyRow(at, h.rows[i].coef, h.rows[i].data, stream, first);
    assert h.rows[i].coef[k] != ZERO;
    hide Place, SubstituteRow, RoomyRows, Wrap;
    RoomyWithout(at, h.rows, i, stream, first);
    RoomySubstituted(at, Without(h.rows, i), k, h.rows[i].data, stream, first);
  }

  lemma RoomyRecorded(at: int, slots: seq<Slot>, rows: seq<Row>, p: int, v: seq<byte>, stream: int -> seq<byte>,
                      first: int)
    requires |slots| == WIDTH && Roomy(at, slots, rows, stream, first) && at <= p < at + WIDTH
    requires Reaches(stream, first, p, v)
    ensures Roomy(at, slots[p % WIDTH := Slot(Wrap(p), v, true, true)], SubstituteRows(rows, p % WIDTH, v), stream,
                  first)
  {
    SlotOfPlace(at, p);
    hide Place, SubstituteRow, RoomyRows, Wrap, Reaches;
    RoomySubstituted(at, rows, p % WIDTH, v, stream, first);
  }

  lemma RoomyEvicted(at: int, slots: seq<Slot>, rows: seq<Row>, stream: int -> seq<byte>, first: int)
    requires |slots| == WIDTH && Roomy(at, slots, rows, stream, first)
    ensures Roomy(at + 1, slots[at % WIDTH := EmptySlot], Unmentioned(rows, at % WIDTH), stream, first)
  {
    hide Place, Reaches, Unmentioned, Origins, Age;
    var slots', rows' := slots[at % WIDTH := EmptySlot], Unmentioned(rows, at % WIDTH);
    UnmentionedOrigins(rows, at % WIDTH);
    forall k | 0 <= k < WIDTH && k != at % WIDTH ensures Place(at + 1, k) == Place(at, k) { PlaceSlides(at, k); }
    forall i | 0 <= i < |rows'| ensures RoomyRow(at + 1, rows'[i].coef, rows'[i].data, stream, first) {
      var o := Origins(rows, at % WIDTH)[i];
      assert RoomyRow(at, rows[o].coef, rows[o].data, stream, first);
    }
  }

  lemma RoomyVacated(at0: int, at: int, slots: seq<Slot>, rows: seq<Row>, stream: int -> seq<byte>, first: int)
    requires Vacated(at0, at0 + WIDTH, slots, rows)
    ensures Roomy(at, slots, rows, stream, first)
  {
    hide Place, Age, Vacated, Reaches;
    VacatedZero(at0, slots, rows);
    forall i | 0 <= i < |rows| ensures RoomyRow(at, rows[i].coef, rows[i].data, stream, first) {
      assert AllZero(rows[i].coef);
    }
  }

  /** The repair's row mentions only symbols of its span, each no longer than the repair. */
  lemma {:induction false} RoomyRepair(at: int, rid: uint32, p: int, n: nat, data: seq<byte>, stream: int -> seq<byte>,
                                       first: int)
    requires at <= p && p + n <= at + WIDTH && forall q :: p <= q < p + n ==> Reaches(stream, first, q, data)
    ensures RoomyRow(at, RepairRow(rid, p, n), data, stream, first)
  {
    hide Place, Reaches, WindowCoefficient;
    if n > 0 {
      RoomyRepair(at, rid, p, n - 1, data, stream, first);
      SlotOfPlace(at, p + n - 1);
    }
  }

  /** From a state true and roomy, what is reported is the stream's symbol with zeros behind it. */
  lemma ReportedWhole(at: int, slots: seq<Slot>, rows: seq<Row>, f: Fates, out: Delivery, base: nat, lostBase: nat,
                      stream: int -> seq<byte>, first: int, i: nat)
    requires |slots| == WIDTH && Roomy(at, slots, rows, stream, first) && Logged(at, slots, f, out, base, lostBase)
    requires Original(f, out, base, stream) && i < |out.recovered|
    ensures var p, v := f.recovered[base + i], out.recovered[i].vector;
            first <= p && stream(p) <= v && forall j :: |stream(p)| <= j < |v| ==> v[j] == ZERO
    ensures out.recovered[i].esi == Wrap(f.recovered[base + i]) && f.recovered[base + i] < at + WIDTH
  {
    hide Wrap, Place, RoomyRows;
    var p, v := f.recovered[base + i], out.recovered[i].vector;
    assert Reported(at, slots, p, out.recovered[i]);
    SlotOfPlace(at, p);
    assert RoomySlots(at, slots, stream, first);
    assert |stream(p)| <= |v|;
    forall j | 0 <= j < |v| ensures v[j] == (if j < |stream(p)| then stream(p)[j] else ZERO) {
      assert At(v, j) == At(stream(p), j);
    }
  }
}
