/** Source symbols that arrive after a repair has made them a pivot: exactly when what they
    complete is wrong. */
module LateArrival {
  import opened Gf256
  import opened Vectors
  import opened Ids
  import opened LinearSystem
  import opened Echelon
  import opened Knowledge
  import opened DecoderSteps

  /** Taking d for x where c times x is d is right only for a unit coefficient or a zero remainder. */
  lemma UnscaledRight(c: byte, x: byte, d: byte)
    requires c != ZERO && Mul(c, x) == d
    ensures x == d <==> c == ONE || d == ZERO
  {
    hide Mul, Xor;
    MulOne(x);
    NoZeroDivisor(c, x);
    if x == d {
      MulDistributes(x, c, ONE);
      XorUnit(x);
      XorZero(c, ONE);
      MulZero(x);
      if Xor(c, ONE) != ZERO { NoZeroDivisor(Xor(c, ONE), x); }
    }
  }

  /** With one of its two symbols known, a row says what its coefficient times the other is. */
  lemma PairSays(r: Row, k: nat, u: nat, v: seq<byte>, x: Line, j: nat)
    requires OnlyPair(r.coef, k, u) && x[k] == At(v, j)
    ensures RowHolds(r.coef, r.data, x, j) <==> Mul(r.coef[u], x[u]) == At(SubstituteRow(r, k, v).data, j)
  {
    hide Mul, Dot, At, Combine;
    var s := SubstituteRow(r, k, v);
    SubstituteHolds(r, k, v, x, j);
    assert OnlyAt(s.coef, u) && s.coef[u] == r.coef[u];
    DotOnlyAt(s.coef, x, u);
  }

  /** The remainder after subtracting the known symbol is zero when the two sides were equal. */
  lemma RemainderZero(r: Row, k: nat, v: seq<byte>)
    requires k < WIDTH && r.coef[k] == ONE
    ensures SameSymbol(r.data, v) <==> forall j: nat :: At(SubstituteRow(r, k, v).data, j) == ZERO
  {
    hide Mul, Xor, At, Combine;
    forall j: nat ensures At(SubstituteRow(r, k, v).data, j) == ZERO <==> At(r.data, j) == At(v, j) {
      AtCombine(ONE, v, r.data, j);
      MulOne(At(v, j));
      XorZero(At(r.data, j), At(v, j));
    }
  }

  /** A reduced row with two unknowns waits. */
  lemma TightWaits(at: int, slots: seq<Slot>, rows: seq<Row>, i: nat)
    requires |slots| == WIDTH && Reduced(at, slots, rows) && Tight(rows) && i < |rows|
    ensures Waiting(rows[i].coef)
  {
    assert Shaped(at, slots, rows[i]);
    assert !OnlyAt(rows[i].coef, Index(rows[i].pivot));
    hide Index;
    forall k ensures !OnlyAt(rows[i].coef, k) {}
  }

  /** Rows other than the one with pivot k do not mention it. */
  lemma OthersUntouched(at: int, slots: seq<Slot>, rows: seq<Row>, i: nat, m: nat, v: seq<byte>)
    requires |slots| == WIDTH && Reduced(at, slots, rows) && i < |rows| && m < |rows| && m != i
    ensures SubstituteRow(rows[m], Index(rows[i].pivot), v) == rows[m]
  {
    hide Index, Shaped;
  }

  /** A late symbol whose row had three unknowns or more completes nothing. */
  lemma NothingCompleted(at: int, slots: seq<Slot>, rows: seq<Row>, i: nat, v: seq<byte>)
    requires |slots| == WIDTH && Reduced(at, slots, rows) && Tight(rows) && i < |rows|
    requires forall u :: !OnlyPair(rows[i].coef, Index(rows[i].pivot), u)
    ensures AllWaiting(SubstituteRows(rows, Index(rows[i].pivot), v))
  {
    hide Index, Combine, Reduced;
    var k := Index(rows[i].pivot);
    var rows' := SubstituteRows(rows, k, v);
    forall m | 0 <= m < |rows| ensures Waiting(rows'[m].coef) {
      TightWaits(at, slots, rows, m);
      if m == i { PairOrMore(rows[i], k, v); } else { OthersUntouched(at, slots, rows, i, m, v); }
    }
  }

  lemma PairOrMore(r: Row, k: nat, v: seq<byte>)
    requires k < WIDTH && Waiting(r.coef) && forall u :: !OnlyPair(r.coef, k, u)
    ensures Waiting(SubstituteRow(r, k, v).coef)
  {
    hide Combine;
    var c, s := r.coef, SubstituteRow(r, k, v).coef;
    if c[k] != ZERO {
      assert forall m :: 0 <= m < WIDTH && m != k ==> s[m] == c[m];
      assert AllZero(s) ==> OnlyAt(c, k);
      forall u ensures !OnlyAt(s, u) {
        assert OnlyAt(s, u) ==> u != k && OnlyPair(c, k, u);
      }
    }
  }

  /** A late symbol whose row had one other unknown completes that one first. */
  lemma PairCompletesFirst(at: int, slots: seq<Slot>, rows: seq<Row>, i: nat, u: nat, s: Slot)
    requires Placed(at, slots) && Reduced(at, slots, rows) && Tight(rows) && i < |rows|
    requires OnlyPair(rows[i].coef, Index(rows[i].pivot), u)
    ensures var k := Index(rows[i].pivot);
            FirstSingle(SubstituteRows(rows, k, s.vector), i, u) && !slots[k := s][u].live
  {
    var k := Index(rows[i].pivot);
    assert Shaped(at, slots, rows[i]);
    hide Index, Combine, Shaped, Apart, Wrap, Place;
    var rows' := SubstituteRows(rows, k, s.vector);
    forall m | 0 <= m < i ensures Waiting(rows'[m].coef) {
      TightWaits(at, slots, rows, m);
      OthersUntouched(at, slots, rows, i, m, s.vector);
    }
    assert rows'[i] == SubstituteRow(rows[i], k, s.vector);
  }

  /** What is held after taking the other unknown from the late symbol's row. */
  lemma PairReduced(at: int, slots: seq<Slot>, rows: seq<Row>, i: nat, u: nat, s: Slot, t: Slot)
    requires |slots| == WIDTH && Reduced(at, slots, rows) && i < |rows|
    requires OnlyPair(rows[i].coef, Index(rows[i].pivot), u)
    ensures var k := Index(rows[i].pivot);
            var rest := Without(SubstituteRows(rows, k, s.vector), i);
            rest == Without(rows, i)
            && Reduced(at, slots[k := s][u := t], SubstituteRows(rest, u, t.vector))
  {
    var k := Index(rows[i].pivot);
    HarvestReduced(at, slots, rows, i);
    hide Index, Shaped, SubstituteRow;
    var rest := Without(rows, i);
    SubstitutionReduced(at, slots, rest, k, s);
    forall m | 0 <= m < |rows| && m != i ensures SubstituteRows(rows, k, s.vector)[m] == rows[m] {
      OthersUntouched(at, slots, rows, i, m, s.vector);
    }
    assert Without(SubstituteRows(rows, k, s.vector), i) == rest;
    forall m | 0 <= m < |rest| ensures Index(rest[m].pivot) != u {
      var o := if m < i then m else m + 1;
      assert rest[m] == rows[o];
    }
    SubstitutionReduced(at, slots[k := s], rest, u, t);
  }

  /** Taken rightly, the other unknown and the late symbol say together just what the row and the
      late symbol said. */
  lemma PairLearned(at: int, slots: seq<Slot>, rows: seq<Row>, i: nat, u: nat, s: Slot, t: Slot)
    requires Placed(at, slots) && Reduced(at, slots, rows) && i < |rows|
    requires OnlyPair(rows[i].coef, Index(rows[i].pivot), u) && Known(s) && Known(t)
    requires t.vector == SubstituteRow(rows[i], Index(rows[i].pivot), s.vector).data
    requires rows[i].coef[u] == ONE || SameSymbol(rows[i].data, s.vector)
    ensures var k := Index(rows[i].pivot);
            Learned(slots, rows, slots[k := s][u := t], SubstituteRows(Without(rows, i), u, t.vector), UnitLine(k),
                    s.vector)
  {
    var k := Index(rows[i].pivot);
    assert Shaped(at, slots, rows[i]);
    HarvestReduced(at, slots, rows, i);
    hide Index, Shaped, SubstituteRow, Apart, Wrap, Place, Holds, RowHolds, At, Mul;
    var rest := Without(rows, i);
    var slots2, rows2 := slots[k := s][u := t], SubstituteRows(rest, u, t.vector);
    RemainderZero(rows[i], k, s.vector);
    forall x: Line, j: nat
      ensures Holds(slots2, rows2, x, j) <==> Holds(slots, rows, x, j) && RowHolds(UnitLine(k), s.vector, x, j)
    {
      SingleRowHolds(UnitLine(k), s.vector, k, x, j);
      assert SubstituteRows(rest, k, s.vector) == rest;
      SubstitutionHolds(slots, rest, k, s, x, j);
      SubstitutionHolds(slots[k := s], rest, u, t, x, j);
      HoldsWithout(slots, rows, i, x, j);
      if x[k] == At(s.vector, j) {
        PairSays(rows[i], k, u, s.vector, x, j);
        NoZeroDivisor(rows[i].coef[u], x[u]);
        MulOne(x[u]);
      }
    }
  }

  lemma HoldsWithout(slots: seq<Slot>, rows: seq<Row>, i: nat, x: Line, j: nat)
    requires |slots| == WIDTH && i < |rows|
    ensures Holds(slots, rows, x, j) <==>
      Holds(slots, Without(rows, i), x, j) && RowHolds(rows[i].coef, rows[i].data, x, j)
  {
    hide RowHolds, KnownHold;
    var rest := Without(rows, i);
    forall m | 0 <= m < |rows| && m != i
      ensures exists o :: 0 <= o < |rest| && rest[o] == rows[m]
    {
      var o := if m < i then m else m - 1;
      assert rest[o] == rows[m];
    }
    forall o | 0 <= o < |rest| ensures exists m :: 0 <= m < |rows| && rest[o] == rows[m] {
      var m := if o < i then o else o + 1;
      assert rest[o] == rows[m];
    }
  }

  /** Taken unscaled with another coefficient and a remainder, the other unknown comes out wrong. */
  lemma PairWrong(at: int, slots: seq<Slot>, rows: seq<Row>, told: seq<Equation>, i: nat, u: nat, v: seq<byte>,
                  stream: int -> seq<byte>)
    requires |slots| == WIDTH && Solved(at, slots, rows, told) && i < |rows|
    requires forall j: nat :: Satisfies(TruthOf(stream)(j), told, j)
    requires var k := Index(rows[i].pivot);
             OnlyPair(rows[i].coef, k, u) && SameSymbol(v, stream(Place(at, k)))
             && rows[i].coef[u] != ONE && !SameSymbol(rows[i].data, v)
    ensures !SameSymbol(SubstituteRow(rows[i], Index(rows[i].pivot), v).data, stream(Place(at, u)))
  {
    var k := Index(rows[i].pivot);
    assert Shaped(at, slots, rows[i]);
    hide Index, Shaped, SubstituteRow, Apart, Wrap, Place, Holds, RowHolds, At, Mul, Satisfies;
    var d := SubstituteRow(rows[i], k, v).data;
    RemainderZero(rows[i], k, v);
    var j: nat :| At(d, j) != ZERO;
    var a := TruthOf(stream)(j);
    var x := Column(a, at);
    assert Satisfies(TruthOf(stream)(j), told, j);
    assert Extends(told, at, x, j);
    assert Holds(slots, rows, x, j);
    HoldsWithout(slots, rows, i, x, j);
    assert x[k] == At(stream(Place(at, k)), j) == At(v, j);
    PairSays(rows[i], k, u, v, x, j);
    UnscaledRight(rows[i].coef[u], x[u], At(d, j));
    assert x[u] == At(stream(Place(at, u)), j);
  }

  /** The row that has position p's slot as its pivot, and its other unknown if it has just one. */
  ghost predicate LatePair(rows: seq<Row>, k: nat, i: nat, u: nat) {
    i < |rows| && Index(rows[i].pivot) == k && OnlyPair(rows[i].coef, k, u)
  }

  /** An arrival is a pivot's late arrival exactly by its identifier. */
  lemma CorruptsAt(at: int, slots: seq<Slot>, rows: seq<Row>, p: int, v: seq<byte>)
    requires |slots| == WIDTH && Reduced(at, slots, rows) && at <= p < at + WIDTH
    ensures Corrupts(rows, Wrap(p), v) <==>
      exists i: nat, u: nat :: LatePair(rows, p % WIDTH, i, u) && rows[i].coef[u] != ONE && !SameSymbol(rows[i].data, v)
  {
    hide Wrap, Leads, SameSymbol, Place, Index;
    OneMore(at, p);
    forall i | 0 <= i < |rows| ensures rows[i].pivot == Wrap(p) <==> Index(rows[i].pivot) == p % WIDTH {
      assert Shaped(at, slots, rows[i]);
    }
    if i: nat, u: nat :| LatePair(rows, p % WIDTH, i, u) && rows[i].coef[u] != ONE && !SameSymbol(rows[i].data, v) {
      assert rows[i].pivot == Wrap(p);
    }
    if Corrupts(rows, Wrap(p), v) {
      var i, u :| 0 <= i < |rows| && 0 <= u < WIDTH && rows[i].pivot == Wrap(p)
        && OnlyPair(rows[i].coef, Index(Wrap(p)), u)
        && rows[i].coef[u] != ONE && !SameSymbol(rows[i].data, v);
      assert LatePair(rows, p % WIDTH, i, u);
    }
  }

  lemma OnePairOnly(at: int, slots: seq<Slot>, rows: seq<Row>, k: nat, i: nat, u: nat, i': nat, u': nat)
    requires |slots| == WIDTH && Reduced(at, slots, rows) && LatePair(rows, k, i, u) && LatePair(rows, k, i', u')
    ensures i == i' && u == u'
  {
    assert Shaped(at, slots, rows[i]) && Shaped(at, slots, rows[i']);
    hide Index;
  }

  /** What a harvest promises about how it went, whatever it started from. */
  ghost predicate Harvested(at: int, was: Held, out: Delivery, now: Held, out': Delivery, i0: nat, u0: nat)
    requires |was.slots| == |now.slots| == WIDTH
  {
    && (Reduced(at, was.slots, was.rows) ==>
          && Reduced(at, now.slots, now.rows) && Tight(now.rows)
          && SameSolutions(was.slots, was.rows, now.slots, now.rows))
    && (AllWaiting(was.rows) ==> out' == out && now == was)
    && (IsFirst(was, i0, u0) ==> TookFirst(at, was, i0, u0, out, now, out'))
  }

  /** What the decoder holds once the arriving symbol is recorded, before the harvest. */
  function Recorded(slots: seq<Slot>, rows: seq<Row>, f: Fates, p: int, v: seq<byte>): (h: Held)
    requires |slots| == WIDTH
    ensures |h.slots| == WIDTH
  {
    Held(slots[p % WIDTH := Slot(Wrap(p), v, true, true)], SubstituteRows(rows, p % WIDTH, v), f)
  }

  /** No row waiting on the symbol: what it completes is right. */
  lemma OrdinaryArrival(at: int, slots: seq<Slot>, rows: seq<Row>, told: seq<Equation>, f: Fates, now: Held,
                        out: Delivery, out': Delivery, base: nat, lostBase: nat, i0: nat, u0: nat, p: int,
                        v: seq<byte>, stream: int -> seq<byte>)
    requires Placed(at, slots) && Solved(at, slots, rows, told) && at <= p < at + WIDTH && !slots[p % WIDTH].live
    requires forall j: nat :: Satisfies(TruthOf(stream)(j), told, j)
    requires SameSymbol(v, stream(p)) && |now.slots| == WIDTH && !IsPivot(rows, p % WIDTH)
    requires Harvested(at, Recorded(slots, rows, f, p, v), out, now, out', i0, u0)
    ensures Solved(at, now.slots, now.rows, told + [Equation(at, UnitLine(p % WIDTH), v)])
    ensures forall j: nat :: Satisfies(TruthOf(stream)(j), told + [Equation(at, UnitLine(p % WIDTH), v)], j)
  {
    hide Wrap, Satisfies, Reduced, Tight, Exact, SameSymbol, Learned, SubstituteRow, Holds, RowHolds, TookFirst;
    hide AllWaiting, IsFirst;
    var k, s := p % WIDTH, Slot(Wrap(p), v, true, true);
    SubstitutionReduced(at, slots, rows, k, s);
    ArrivalTrue(at, p, v, stream);
    LearnedByArrival(at, slots, rows, k, s, now.slots, now.rows);
    LearnedSolved(at, slots, rows, told, now.slots, now.rows, UnitLine(k), v, TruthOf(stream));
  }

  /** The first report of a late pair's arrival is the row's other symbol, unscaled. */
  lemma PairArrivalWrong(at: int, slots: seq<Slot>, rows: seq<Row>, told: seq<Equation>, f: Fates, now: Held,
                         out: Delivery, out': Delivery, base: nat, lostBase: nat, i0: nat, u0: nat, p: int,
                         v: seq<byte>, stream: int -> seq<byte>)
    requires Placed(at, slots) && Solved(at, slots, rows, told) && at <= p < at + WIDTH && !slots[p % WIDTH].live
    requires forall j: nat :: Satisfies(TruthOf(stream)(j), told, j)
    requires SameSymbol(v, stream(p)) && |now.slots| == WIDTH && LatePair(rows, p % WIDTH, i0, u0)
    requires Harvested(at, Recorded(slots, rows, f, p, v), out, now, out', i0, u0)
    requires out.recovered == [] && Logged(at, now.slots, now.fates, out', base, lostBase)
    requires rows[i0].coef[u0] != ONE && !SameSymbol(rows[i0].data, v)
    ensures !Original(now.fates, out', base, stream)
  {
    hide Wrap, Satisfies, Reduced, Tight, Exact, SameSymbol, Within, SubstituteRow, AllWaiting, Index, Place;
    var was := Recorded(slots, rows, f, p, v);
    PairCompletesFirst(at, slots, rows, i0, u0, Slot(Wrap(p), v, true, true));
    SlotOfPlace(at, p);
    PairWrong(at, slots, rows, told, i0, u0, v, stream);
    var first := RecoveredSymbol(Wrap(Place(at, u0)), was.rows[i0].data);
    assert TakeOut(at, was, i0, u0, out).recovered == [first];
    assert out'.recovered[0] == first;
    assert Reported(at, now.slots, now.fates.recovered[base], first);
    PlaceOfSlot(at, u0);
    WrapInjective(now.fates.recovered[base], Place(at, u0));
  }

  /** With a unit coefficient or nothing remaining, a late pair's arrival completes rightly. */
  lemma PairArrivalRight(at: int, slots: seq<Slot>, rows: seq<Row>, told: seq<Equation>, f: Fates, now: Held,
                         out: Delivery, out': Delivery, base: nat, lostBase: nat, i0: nat, u0: nat, p: int,
                         v: seq<byte>, stream: int -> seq<byte>)
    requires Placed(at, slots) && Solved(at, slots, rows, told) && at <= p < at + WIDTH && !slots[p % WIDTH].live
    requires forall j: nat :: Satisfies(TruthOf(stream)(j), told, j)
    requires SameSymbol(v, stream(p)) && |now.slots| == WIDTH && LatePair(rows, p % WIDTH, i0, u0)
    requires Harvested(at, Recorded(slots, rows, f, p, v), out, now, out', i0, u0)
    requires Logged(at, now.slots, now.fates, out', base, lostBase)
    requires rows[i0].coef[u0] == ONE || SameSymbol(rows[i0].data, v)
    ensures Original(now.fates, out', base, stream)
  {
    hide Wrap, Satisfies, Reduced, Tight, Exact, SameSymbol, Learned, SubstituteRow, Holds, RowHolds, Within;
    hide AllWaiting, Index, Place, Logged;
    var k, s := p % WIDTH, Slot(Wrap(p), v, true, true);
    var was := Recorded(slots, rows, f, p, v);
    PairCompletesFirst(at, slots, rows, i0, u0, s);
    var t := Slot(Wrap(Place(at, u0)), was.rows[i0].data, true, true);
    PairReduced(at, slots, rows, i0, u0, s, t);
    PairLearned(at, slots, rows, i0, u0, s, t);
    var after := TakeRow(at, was, i0, u0);
    assert after.slots == slots[k := s][u0 := t];
    assert after.rows == SubstituteRows(Without(rows, i0), u0, t.vector);
    LearnedThenSame(slots, rows, after.slots, after.rows, now.slots, now.rows, UnitLine(k), v);
    ArrivalTrue(at, p, v, stream);
    LearnedExact(at, slots, rows, told, now.slots, now.rows, UnitLine(k), v, TruthOf(stream));
    DeliveryOriginal(at, now.slots, now.rows, told + [Equation(at, UnitLine(k), v)], now.fates, out', base, lostBase,
                     stream);
  }

  /** Soundness of one arrival, exactly: what it completes is the stream's own unless it is one of
      the failing inputs. */
  lemma ArrivalOutcome(at: int, slots: seq<Slot>, rows: seq<Row>, told: seq<Equation>, f: Fates, now: Held,
                       out: Delivery, out': Delivery, base: nat, lostBase: nat, i0: nat, u0: nat, p: int,
                       v: seq<byte>, stream: int -> seq<byte>)
    requires Placed(at, slots) && Solved(at, slots, rows, told) && at <= p < at + WIDTH && !slots[p % WIDTH].live
    requires forall j: nat :: Satisfies(TruthOf(stream)(j), told, j)
    requires SameSymbol(v, stream(p)) && |now.slots| == WIDTH
    requires (exists i: nat, u: nat :: LatePair(rows, p % WIDTH, i, u)) ==> LatePair(rows, p % WIDTH, i0, u0)
    requires Harvested(at, Recorded(slots, rows, f, p, v), out, now, out', i0, u0)
    requires out.recovered == [] && Logged(at, now.slots, now.fates, out', base, lostBase)
    ensures Original(now.fates, out', base, stream) <==> !Corrupts(rows, Wrap(p), v)
  {
    hide Wrap, Satisfies, Reduced, Tight, Exact, SameSymbol, Within, SubstituteRow, AllWaiting, Index, Place, Logged;
    hide Corrupts, Harvested, Original, LatePair, TookFirst;
    var k := p % WIDTH;
    CorruptsAt(at, slots, rows, p, v);
    if i: nat, u: nat :| LatePair(rows, k, i, u) {
      forall i': nat, u': nat | LatePair(rows, k, i', u') ensures i' == i0 && u' == u0 {
        OnePairOnly(at, slots, rows, k, i', u', i0, u0);
      }
      LatePairInRange(rows, k, i0, u0);
      if rows[i0].coef[u0] == ONE || SameSymbol(rows[i0].data, v) {
        PairArrivalRight(at, slots, rows, told, f, now, out, out', base, lostBase, i0, u0, p, v, stream);
      } else {
        PairArrivalWrong(at, slots, rows, told, f, now, out, out', base, lostBase, i0, u0, p, v, stream);
      }
    } else if IsPivot(rows, k) {
      IdleArrival(at, slots, rows, f, now, out, out', base, lostBase, i0, u0, p, v, stream);
    } else {
      OrdinaryArrival(at, slots, rows, told, f, now, out, out', base, lostBase, i0, u0, p, v, stream);
      SolvedExact(at, now.slots, now.rows, told + [Equation(at, UnitLine(k), v)]);
      DeliveryOriginal(at, now.slots, now.rows, told + [Equation(at, UnitLine(k), v)], now.fates, out', base, lostBase,
                       stream);
    }
  }

  lemma LatePairInRange(rows: seq<Row>, k: nat, i: nat, u: nat)
    requires LatePair(rows, k, i, u)
    ensures i < |rows| && u < WIDTH
  {}

  lemma SolvedExact(at: int, slots: seq<Slot>, rows: seq<Row>, told: seq<Equation>)
    requires |slots| == WIDTH && Solved(at, slots, rows, told)
    ensures Exact(at, slots, rows, told)
  {}

  lemma IdleArrival(at: int, slots: seq<Slot>, rows: seq<Row>, f: Fates, now: Held, out: Delivery, out': Delivery,
                    base: nat, lostBase: nat, i0: nat, u0: nat, p: int, v: seq<byte>, stream: int -> seq<byte>)
    requires |slots| == |now.slots| == WIDTH && Reduced(at, slots, rows) && Tight(rows) && IsPivot(rows, p % WIDTH)
    requires forall i: nat, u: nat :: !LatePair(rows, p % WIDTH, i, u)
    requires Harvested(at, Recorded(slots, rows, f, p, v), out, now, out', i0, u0)
    requires out.recovered == [] && Logged(at, now.slots, now.fates, out', base, lostBase)
    ensures Original(now.fates, out', base, stream)
  {
    hide Wrap, Reduced, Tight, SubstituteRow, AllWaiting, Index, TookFirst;
    var i :| 0 <= i < |rows| && Index(rows[i].pivot) == p % WIDTH;
    forall u ensures !OnlyPair(rows[i].coef, p % WIDTH, u) {
      assert u >= 0 ==> !LatePair(rows, p % WIDTH, i, u);
    }
    NothingCompleted(at, slots, rows, i, v);
  }

  /** A failing input names an unknown symbol inside the window. */
  lemma CorruptsInside(at: int, slots: seq<Slot>, rows: seq<Row>, p: int, v: seq<byte>)
    requires Placed(at, slots) && Reduced(at, slots, rows) && Near(p, at) && Corrupts(rows, Wrap(p), v)
    ensures at <= p < at + WIDTH && !slots[p % WIDTH].live
  {
    hide Wrap, Leads, SameSymbol, Index, Place;
    var i, u :| 0 <= i < |rows| && 0 <= u < WIDTH && rows[i].pivot == Wrap(p)
      && OnlyPair(rows[i].coef, Index(Wrap(p)), u)
      && rows[i].coef[u] != ONE && !SameSymbol(rows[i].data, v);
    assert Shaped(at, slots, rows[i]);
    var k := Index(rows[i].pivot);
    PlaceOfSlot(at, k);
    WrapInjective(p, Place(at, k));
  }

  /** Fewer rows, fewer failing inputs. */
  lemma CorruptsFewer(rows: seq<Row>, rows': seq<Row>, esi: uint32, v: seq<byte>)
    requires (forall r :: r in rows' ==> r in rows) && Corrupts(rows', esi, v)
    ensures Corrupts(rows, esi, v)
  {
    hide SameSymbol, Index, OnlyPair;
    var i, u :| 0 <= i < |rows'| && 0 <= u < WIDTH && rows'[i].pivot == esi && OnlyPair(rows'[i].coef, Index(esi), u)
      && rows'[i].coef[u] != ONE && !SameSymbol(rows'[i].data, v);
    assert rows'[i] in rows;
    var m :| 0 <= m < |rows| && rows[m] == rows'[i];
  }

  /** Where a late arrival can fail at all, before and after the window makes room for it. */
  lemma CorruptsAfterAdmit(at: int, slots: seq<Slot>, rows: seq<Row>, at': int, slots': seq<Slot>, rows': seq<Row>,
                           p: int, v: seq<byte>)
    requires Placed(at, slots) && Reduced(at, slots, rows) && Near(p, at)
    requires forall r :: r in rows' ==> r in rows
    requires at + WIDTH <= p || (rows' == rows && slots' == slots && at' == at)
    ensures Corrupts(rows', Wrap(p), v) <==> Corrupts(rows, Wrap(p), v)
    ensures !(at <= p < at + WIDTH && !slots[p % WIDTH].live) ==> !Corrupts(rows, Wrap(p), v)
  {
    hide Wrap, Corrupts, Reduced, Placed;
    if Corrupts(rows, Wrap(p), v) { CorruptsInside(at, slots, rows, p, v); }
    if Corrupts(rows', Wrap(p), v) { CorruptsFewer(rows, rows', Wrap(p), v); }
  }
}
