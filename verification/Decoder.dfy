/** The sliding-window decoder (window.go): an incremental elimination over the newest symbols. */
module Decoder {
  import opened Gf256
  import opened Vectors
  import opened Ids
  import opened LinearSystem
  import opened Echelon
  import opened Knowledge
  import opened Determinacy
  import opened Coefficients
  import opened DecoderSteps
  import opened LateArrival
  import opened Truth

  /** Where the window stands once position p has been brought into it. */
  function WindowAfter(started: bool, at: int, p: int): int {
    if !started || at + WIDTH <= p then p + 1 - WIDTH else at
  }

  /** The oldest position known to exist once the window, at its new place, has seen position p. */
  function OriginAfter(started: bool, originAt: int, at: int, p: int): int {
    if !started || at <= p < originAt then p else originAt
  }

  /** Making room for an arrival neither makes nor removes a failing input. */
  lemma LateBefore(started: bool, at: int, slots: seq<Slot>, rows: seq<Row>, told: seq<Equation>,
                   at': int, slots': seq<Slot>, rows': seq<Row>, p: int, v: seq<byte>)
    requires Placed(at, slots) && (!started ==> rows == [])
    requires started ==> Solved(at, slots, rows, told) && Near(p, at)
    requires forall r :: r in rows' ==> r in rows
    requires at' == WindowAfter(started, at, p)
    requires started && p < at + WIDTH ==> rows' == rows && slots' == slots
    ensures Corrupts(rows', Wrap(p), v) <==> Corrupts(rows, Wrap(p), v)
    ensures started && p < at ==> !Corrupts(rows, Wrap(p), v)
    ensures started && at <= p < at + WIDTH && slots[p % WIDTH].live ==> !Corrupts(rows, Wrap(p), v)
    ensures !started || at + WIDTH <= p ==> !Corrupts(rows, Wrap(p), v)
  {
    if started {
      hide Wrap, Reduced, Placed, Corrupts, Exact, Tight, Within;
      CorruptsAfterAdmit(at, slots, rows, at', slots', rows', p, v);
    } else {
      assert forall i :: 0 <= i < |rows'| ==> rows'[i] in rows';
    }
  }

  lemma MoreSame(f: Fates)
    ensures More(f, f)
  {}

  /** The run stays accounted for: no advance outran the width, and the identifiers since the origin
      span less than half of all. */
  predicate Steady(accounted: bool, at: int, originAt: int, at': int) {
    accounted && at' - at <= WIDTH && at' + WIDTH - originAt <= HALF
  }

  /** No position newly reported lost lies below the origin. */
  ghost predicate LostFrom(lost: seq<int>, lost': seq<int>, origin: int) {
    forall i :: |lost| <= i < |lost'| ==> origin <= lost'[i]
  }

  lemma NoPivotHere(at: int, slots: seq<Slot>, rows: seq<Row>, told: seq<Equation>, p: int)
    requires |slots| == WIDTH && Solved(at, slots, rows, told) && at <= p < at + WIDTH
    ensures (forall r :: r in rows ==> r.pivot != Wrap(p)) ==> !IsPivot(rows, p % WIDTH)
  {
    hide Reduced, Tight, Exact, Within, Wrap, IsPivot;
    if forall r :: r in rows ==> r.pivot != Wrap(p) { NoPivotAt(at, slots, rows, p); }
  }

  ghost predicate NoneKnown(slots: seq<Slot>) {
    forall s :: s in slots ==> !Known(s)
  }

  /** The system is one equation, scaled to a unit at the oldest symbol it mentions. */
  ghost predicate OneRow(at: int, rows: seq<Row>, coef: Line, data: seq<byte>) {
    exists k: nat :: Leads(at, coef, k)
      && rows == [Row(Wrap(Place(at, k)), Scale(Inv(coef[k]), coef), Scale(Inv(coef[k]), data))]
  }

  lemma NothingKnown(at: int, slots: seq<Slot>)
    requires OneFate(at, slots, NoFates)
    ensures NoneKnown(slots)
  {
    forall s | s in slots ensures !Known(s) {
      var k :| 0 <= k < |slots| && slots[k] == s;
    }
  }

  /** The first equation that waits is held as it came, scaled. */
  lemma FirstRow(at: int, coef: Line, data: seq<byte>, k: nat, row: Row)
    requires Waiting(coef) && Leads(at, coef, k) && row.pivot == Wrap(Place(at, k))
    requires row.coef == Scale(Inv(coef[k]), coef) && row.data == Scale(Inv(coef[k]), data)
    ensures OneRow(at, ClearRows([], row) + [row], coef, data)
    ensures AllWaiting(ClearRows([], row) + [row])
  {
    hide Wrap, Place, Mul, Inv;
    MulInverse(coef[k]);
    var f := Inv(coef[k]);
    forall m | 0 <= m < WIDTH ensures row.coef[m] == ZERO <==> coef[m] == ZERO {
      NoZeroDivisor(f, coef[m]);
    }
    assert ClearRows([], row) + [row] == [row];
    forall m ensures !OnlyAt(row.coef, m) { assert OnlyAt(row.coef, m) ==> OnlyAt(coef, m); }
    assert !AllZero(row.coef) by { assert row.coef[k] != ZERO; }
  }

  /** What is known of the state while the window moves: reduced and exact, true, roomy. */
  datatype Kept = Kept(good: bool, truth: bool, room: bool)

  /** The state once an equation, reduced by what is held, is added as a row of its own. */
  ghost function Inserted(h: Held, c: Line, d: seq<byte>, pivot: uint32): (h': Held)
    requires |h.slots| == WIDTH
    ensures |h'.slots| == WIDTH
  {
    var f := Inv(c[Index(pivot)]);
    var row := Row(pivot, Scale(f, c), Scale(f, d));
    h.(rows := ClearRows(h.rows, row) + [row])
  }

  /** When every row goes on waiting the arrival is recorded and nothing follows. */
  lemma RecordedIdle(at: int, slots: seq<Slot>, rows: seq<Row>, f: Fates, p: int, v: seq<byte>, out: Delivery,
                     now: Held, out': Delivery, i0: nat, u0: nat)
    requires |slots| == |now.slots| == WIDTH && Harvested(at, Recorded(slots, rows, f, p, v), out, now, out', i0, u0)
    ensures AllWaiting(SubstituteRows(rows, p % WIDTH, v)) ==> now == Recorded(slots, rows, f, p, v) && out' == out
  {
    hide AllWaiting, SubstituteRows, SameSolutions, TookFirst;
  }

  lemma RecordedHeld(slots: seq<Slot>, rows: seq<Row>, f: Fates, p: int, v: seq<byte>)
    requires |slots| == WIDTH
    ensures Recorded(slots, rows, f, p, v).fates == f
  {}

  lemma MoreKnown(f: Fates, f': Fates, also: set<int>)
    requires Gains(f, f', also)
    ensures f.known <= f'.known
  {}

  lemma UnknownNotRecovered(at: int, slots: seq<Slot>, f: Fates, p: int)
    requires OneFate(at, slots, f)
    ensures p !in f.known ==> p !in f.recovered
  {}

  /** Making room changes at most what is lost. */
  lemma GainsFirst(f: Fates, f': Fates, f'': Fates, also: set<int>)
    requires f'.known == f.known && f'.recovered == f.recovered && f.lost <= f'.lost && Gains(f', f'', also)
    ensures Gains(f, f'', also)
  {}

  lemma GainsNothing(f: Fates, f': Fates, also: set<int>)
    requires f'.known == f.known && f'.recovered == f.recovered && f.lost <= f'.lost && also <= f.known
    ensures Gains(f, f', also)
  {}

  /** A position that became known by arriving is not among the recovered. */
  lemma RecoveredKnown(at: int, slots: seq<Slot>, f0: Fates, f: Fates, f1: Fates, p: int)
    requires OneFate(at, slots, f0) && p !in f0.known && f1 == Settle(f0, p, false) && Gains(f1, f, {})
    ensures p in f.known && p !in f.recovered
  {
    forall i | 0 <= i < |f.recovered| ensures f.recovered[i] != p {
      if i < |f1.recovered| { assert f.recovered[i] == f0.recovered[i]; }
    }
  }

  /** What adding the row does: reduced form is kept, one more equation is learned, and a first
      equation that waits is held as it came. */
  lemma InsertedLearned(at: int, h: Held, coef: Line, data: seq<byte>, c: Line, d: seq<byte>, pivot: uint32)
    requires |h.slots| == WIDTH && SameResidual(h.slots, h.rows, coef, data, c, d)
    requires c[Index(pivot)] != ZERO && Leads(at, c, Index(pivot)) && pivot == Wrap(Place(at, Index(pivot)))
    requires Reduced(at, h.slots, h.rows) ==>
      && (forall k :: 0 <= k < WIDTH && Known(h.slots[k]) ==> c[k] == ZERO)
      && (forall i :: 0 <= i < |h.rows| ==> c[Index(h.rows[i].pivot)] == ZERO)
    ensures var h' := Inserted(h, c, d, pivot);
            && h'.slots == h.slots && h'.fates == h.fates
            && Learned(h.slots, h.rows, h'.slots, h'.rows, coef, data)
            && (Reduced(at, h.slots, h.rows) ==> Reduced(at, h'.slots, h'.rows))
            && (h.rows == [] && Waiting(c) ==> OneRow(at, h'.rows, c, d) && AllWaiting(h'.rows))
  {
    hide Index, Wrap, Place, Reduced, Leads, Learned, Scale, ClearRow, Inv, Mul, OneRow, Waiting, Shaped, SameResidual;
    hide AllWaiting;
    var f := Inv(c[Index(pivot)]);
    var row := Row(pivot, Scale(f, c), Scale(f, d));
    MulInverse(c[Index(pivot)]);
    InsertionLearned(h.slots, h.rows, coef, data, c, d, f, row);
    if h.rows == [] && Waiting(c) { FirstRow(at, c, d, Index(pivot), row); }
    if Reduced(at, h.slots, h.rows) {
      ScaledShape(at, h.slots, c, pivot, row);
      forall i | 0 <= i < |h.rows| ensures row.coef[Index(h.rows[i].pivot)] == ZERO {
        ScaledZero(f, c, Index(h.rows[i].pivot));
      }
      InsertionReduced(at, h.slots, h.rows, row);
    }
  }

  lemma InsertedTrue(at: int, h: Held, coef: Line, data: seq<byte>, c: Line, d: seq<byte>, pivot: uint32,
                     stream: int -> seq<byte>)
    requires |h.slots| == WIDTH && SameResidual(h.slots, h.rows, coef, data, c, d)
    requires Truthful(at, h.slots, h.rows, stream) && TrueRow(at, coef, data, stream)
    ensures var h' := Inserted(h, c, d, pivot); Truthful(at, h'.slots, h'.rows, stream)
  {
    hide Index, Truthful, TrueRow, SameResidual, Scale, ClearRow;
    var f := Inv(c[Index(pivot)]);
    InsertedTruthful(at, h.slots, h.rows, coef, data, c, d, f, Row(pivot, Scale(f, c), Scale(f, d)), stream);
  }

  lemma InsertedRoomy(at: int, h: Held, c: Line, d: seq<byte>, pivot: uint32, stream: int -> seq<byte>, since: int)
    requires |h.slots| == WIDTH && Roomy(at, h.slots, h.rows, stream, since) && RoomyRow(at, c, d, stream, since)
    ensures var h' := Inserted(h, c, d, pivot); Roomy(at, h'.slots, h'.rows, stream, since)
  {
    hide Index, RoomyRow, RoomyRows, RoomySlots, Scale, ClearRow;
    var f := Inv(c[Index(pivot)]);
    RoomyScaled(at, f, c, d, stream, since);
    RoomyInserted(at, h.rows, Row(pivot, Scale(f, c), Scale(f, d)), stream, since);
  }

  class WindowDecoder {
    var slots: seq<Slot>
    var lo: uint32
    var high: uint32
    var origin: uint32
    var started: bool
    var rows: seq<Row>
    var recovered: nat
    var lost: nat
    var discarded: nat

    // The stream the arrivals are taken from, and where the window stands in it.
    ghost const stream: int -> seq<byte>
    // Nothing was sent before this position.
    ghost const since: int
    ghost var at: int
    ghost var originAt: int
    // Everything accepted so far.
    ghost var told: seq<Equation>
    // The fate of every position so far.
    ghost var fates: Fates
    // No advance so far exceeded the width, and the run spans less than half the identifiers.
    ghost var accounted: bool

    ghost predicate Framed()
      reads this
    {
      && |slots| == WIDTH
      && (started ==> lo == Wrap(at) && high == Wrap(at + WIDTH) && origin == Wrap(originAt))
    }

    /** While the run is accounted for, every position from the oldest known to exist up to the
        window is either known or was reported lost, and no other was reported lost. */
    ghost predicate Accounted()
      reads this
    {
      && originAt < at + WIDTH
      && (accounted ==>
            at + WIDTH - originAt <= HALF && AccountedFor(originAt, at, fates))
    }

    ghost predicate Fresh()
      reads this
      requires |slots| == WIDTH
    {
      && rows == [] && told == [] && fates == NoFates && accounted
      && forall k :: 0 <= k < WIDTH ==> !slots[k].live
    }

    /** Holds after every call, whatever arrives. */
    ghost predicate Valid()
      reads this
    {
      && Framed() && Placed(at, slots) && OneFate(at, slots, fates)
      && recovered == |fates.recovered| && lost == |fates.lost|
      && (started ==> Accounted())
      && (!started ==> Fresh())
    }

    /** Everything accepted is true of the stream; the rows are in reduced echelon form with two
        unknowns each; and they hold exactly what was accepted. */
    ghost predicate Good()
      reads this
      requires |slots| == WIDTH
    {
      && (forall j: nat :: Satisfies(TruthOf(stream)(j), told, j))
      && (started ==> Solved(at, slots, rows, told))
    }

    /** Every value and every row held is true of the stream, reduced or not. */
    ghost predicate True()
      reads this`at, this`slots, this`rows
      requires |slots| == WIDTH
    {
      Truthful(at, slots, rows, stream)
    }

    /** Every vector held has room for the symbols it speaks of. */
    ghost predicate Room()
      reads this`at, this`slots, this`rows
      requires |slots| == WIDTH
    {
      Roomy(at, slots, rows, stream, since)
    }

    /** The oldest identifier still depended on, and how many there are. */
    method Leading(coef: Line) returns (pivot: uint32, count: nat)
      requires Framed() && started
      ensures count == 0 <==> AllZero(coef)
      ensures count > 0 ==>
        coef[Index(pivot)] != ZERO && Leads(at, coef, Index(pivot)) && pivot == Wrap(Place(at, Index(pivot)))
      ensures count > 0 ==> (count == 1 <==> OnlyAt(coef, Index(pivot)))
    {
      hide Index, Wrap, Plus, Place, Diff;
      pivot, count := 0, 0;
      ghost var second := 0;
      var esi := lo;
      ghost var p := at;
      DiffOfWraps(at, at + WIDTH);
      while Diff(esi, high) < 0
        invariant at <= p <= at + WIDTH && esi == Wrap(p) && Diff(esi, high) == p - (at + WIDTH)
        invariant count == 0 ==> forall k :: 0 <= k < WIDTH && Age(at, k) < p - at ==> coef[k] == ZERO
        invariant count > 0 ==> coef[Index(pivot)] != ZERO && pivot == Wrap(Place(at, Index(pivot)))
        invariant count > 0 ==> forall k ::
          0 <= k < WIDTH && Age(at, k) < p - at && coef[k] != ZERO ==> Age(at, Index(pivot)) <= Age(at, k)
        invariant count > 0 ==> Age(at, Index(pivot)) < p - at
        invariant count == 1 ==> forall k ::
          0 <= k < WIDTH && Age(at, k) < p - at && coef[k] != ZERO ==> k == Index(pivot)
        invariant count > 1 ==> 0 <= second < WIDTH && coef[second] != ZERO && second != Index(pivot)
        decreases at + WIDTH - p
      {
        OneMore(at, p);
        if coef[Index(esi)] != ZERO {
          if count == 0 { pivot := esi; } else { second := Index(esi); }
          count := count + 1;
        }
        PlusOfWrap(p, 1);
        DiffOfWraps(p + 1, at + WIDTH);
        esi := Plus(esi, 1);
        p := p + 1;
      }
    }

    /** Records a symbol as known and removes it from every equation waiting on it. */
    method Substitute(esi: uint32, vector: seq<byte>, out: Delivery, asRecovered: bool, ghost p: int)
      returns (out': Delivery)
      requires Framed() && started && Placed(at, slots) && at <= p < at + WIDTH && esi == Wrap(p)
      modifies this`slots, this`rows, this`recovered, this`fates
      ensures old(slots[p % WIDTH].live) ==>
        out' == out && slots == old(slots) && rows == old(rows) && recovered == old(recovered) && fates == old(fates)
      ensures !old(slots[p % WIDTH].live) ==>
        && slots == old(slots)[p % WIDTH := Slot(esi, vector, true, true)]
        && rows == SubstituteRows(old(rows), p % WIDTH, vector)
        && fates == Settle(old(fates), p, asRecovered)
        && (if asRecovered
            then out' == out.(recovered := out.recovered + [RecoveredSymbol(esi, vector)])
                 && recovered == old(recovered) + 1
            else out' == out && recovered == old(recovered))
    {
      hide Index, Wrap, Place, SubstituteRow;
      OneMore(at, p);
      out' := out;
      var index := Index(esi);
      if slots[index].live && slots[index].known && slots[index].esi == esi {
        return;
      }
      slots := slots[index := Slot(esi, vector, true, true)];
      fates := Settle(fates, p, asRecovered);
      if asRecovered {
        out' := out'.(recovered := out'.recovered + [RecoveredSymbol(esi, vector)]);
        recovered := recovered + 1;
      }
      var updated := rows;
      for i := 0 to |rows|
        invariant |updated| == |rows|
        invariant forall m :: i <= m < |rows| ==> updated[m] == rows[m]
        invariant forall m :: 0 <= m < i ==> updated[m] == SubstituteRow(rows[m], index, vector)
      {
        updated := updated[i := SubstituteRow(updated[i], index, vector)];
      }
      assert updated == SubstituteRows(rows, index, vector);
      rows := updated;
    }

    ghost function Holding(): Held
      reads this
    {
      Held(slots, rows, fates)
    }

    /** Takes the row at i, which has one unknown left, as that symbol. */
    method Take(i: nat, pivot: uint32, out: Delivery, ghost recoveredBase: nat, ghost lostBase: nat)
      returns (out': Delivery)
      requires Framed() && started && Placed(at, slots) && OneFate(at, slots, fates) && recovered == |fates.recovered|
      requires Logged(at, slots, fates, out, recoveredBase, lostBase)
      requires i < |rows| && pivot == Wrap(Place(at, Index(pivot)))
      modifies this`slots, this`rows, this`recovered, this`fates
      ensures Framed() && Placed(at, slots) && OneFate(at, slots, fates) && recovered == |fates.recovered|
      ensures Logged(at, slots, fates, out', recoveredBase, lostBase)
      ensures Holding() == TakeRow(at, old(Holding()), i, Index(pivot))
      ensures out' == TakeOut(at, old(Holding()), i, Index(pivot), out)
      ensures Gains(old(fates), fates, {}) && fates.lost == old(fates.lost)
    {
      hide Index, Wrap, Logged, OneFate, SubstituteRows;
      ghost var k := Index(pivot);
      ghost var p := Place(at, k);
      PlaceOfSlot(at, k);
      hide Place;
      var r := rows[i];
      if !slots[k].live {
        SettleOneFate(at, slots, fates, p, r.data, true);
        SettleLogged(at, slots, fates, out, recoveredBase, lostBase, p, r.data);
      }
      rows := Without(rows, i);
      out' := Substitute(pivot, r.data, out, true, p);
    }

    /** Takes every row that has come down to one unknown, until nothing more falls out. The ghost
        arguments name the first row that does not wait, if there is one. */
    method Harvest(out: Delivery, ghost recoveredBase: nat, ghost lostBase: nat, ghost i0: nat, ghost k0: nat)
      returns (out': Delivery)
      requires Framed() && started && Placed(at, slots) && OneFate(at, slots, fates) && recovered == |fates.recovered|
      requires Logged(at, slots, fates, out, recoveredBase, lostBase)
      modifies this`slots, this`rows, this`recovered, this`fates
      ensures Framed() && Placed(at, slots) && OneFate(at, slots, fates) && recovered == |fates.recovered|
      ensures Logged(at, slots, fates, out', recoveredBase, lostBase)
      ensures out'.lost == out.lost && Gains(old(fates), fates, {}) && fates.lost == old(fates.lost)
      ensures Harvested(at, old(Holding()), out, Holding(), out', i0, k0)
      ensures Outcome(at, old(Holding()), out, Holding(), out', recoveredBase, stream)
      ensures old(Room()) ==> Room()
    {
      hide Judged, Outcome, Roomy, TakenRightly;
      hide Index, Wrap, Place, Reduced, Leads, Holds, Logged, OneFate, Placed, Waiting, TakeRow, TakeOut, Since;
      hide AllWaiting, TookFirst, IsFirst, Gains;
      GainsSame(fates);
      out' := out;
      ghost var good := Reduced(at, slots, rows);
      ghost var was := Holding();
      ghost var first := IsFirst(was, i0, k0);
      ghost var taken, right, room := false, true, Room();
      SinceStart(at, was, out, i0, k0);
      JudgedStart(at, was, out, recoveredBase, stream);
      var progress := true;
      while progress
        invariant Framed() && Placed(at, slots) && OneFate(at, slots, fates) && recovered == |fates.recovered|
        invariant Logged(at, slots, fates, out', recoveredBase, lostBase)
        invariant out'.lost == out.lost && Gains(was.fates, fates, {}) && fates.lost == was.fates.lost
        invariant Since(at, was, out, Holding(), out', taken, i0, k0)
        invariant Judged(at, was, out, Holding(), out', recoveredBase, stream, right,
                         if progress then 0 else |rows|, false)
        invariant room ==> Room()
        invariant good && !progress ==> Tight(rows)
        invariant first && !taken ==> progress && i0 < |rows|
        decreases |rows|, if progress then 1 else 0
      {
        progress := false;
        var i := 0;
        ghost var size := |rows|;
        while i < |rows|
          invariant 0 <= i <= |rows| && |rows| <= size && (progress ==> |rows| < size)
          invariant Framed() && Placed(at, slots) && OneFate(at, slots, fates) && recovered == |fates.recovered|
          invariant Logged(at, slots, fates, out', recoveredBase, lostBase)
          invariant out'.lost == out.lost && Gains(was.fates, fates, {}) && fates.lost == was.fates.lost
          invariant Since(at, was, out, Holding(), out', taken, i0, k0)
          invariant Judged(at, was, out, Holding(), out', recoveredBase, stream, right, i, progress)
          invariant room ==> Room()
          invariant good && !progress ==> forall m :: 0 <= m < i ==> !OnlyAt(rows[m].coef, Index(rows[m].pivot))
          invariant first && !taken ==> i <= i0 < |rows|
          decreases |rows| - i
        {
          var pivot, count := Leading(rows[i].coef);
          SinceSkips(at, was, out, Holding(), out', taken, i0, k0, i, pivot);
          if count == 0 {
            SinceDrops(at, was, out, Holding(), out', taken, i0, k0, i);
            JudgedDrop(at, was, out, Holding(), out', recoveredBase, stream, right, i, progress);
            if room { RoomyDropped(at, slots, rows, i, stream, since); }
            taken := true;
            rows := Without(rows, i);
          } else if count > 1 {
            JudgedSkip(at, was, out, Holding(), out', recoveredBase, stream, right, i, progress, Index(pivot));
            i := i + 1;
          } else {
            TakeEffect(at, Holding(), i, Index(pivot), out');
            SinceTakes(at, was, out, Holding(), out', taken, i0, k0, i, Index(pivot));
            LoggedRecovered(at, slots, fates, out', recoveredBase, lostBase);
            JudgedTake(at, was, out, Holding(), out', recoveredBase, stream, right, i, progress, Index(pivot));
            right := right && TakenRightly(Holding(), i, Index(pivot));
            if room { RoomyTaken(at, Holding(), i, Index(pivot), stream, since); }
            ghost var f := fates;
            out' := Take(i, pivot, out', recoveredBase, lostBase);
            GainsOn(was.fates, f, fates, {});
            progress := true;
            taken := true;
          }
        }
        if progress { JudgedTurn(at, was, out, Holding(), out', recoveredBase, stream, right); }
      }
      JudgedEnd(at, was, out, Holding(), out', recoveredBase, stream, right);
      SinceEnds(at, was, out, Holding(), out', taken, i0, k0);
    }

    /** Removes the known symbols from a new equation. */
    method EliminateKnown(coef: Line, data: seq<byte>) returns (c: Line, d: seq<byte>)
      requires Framed() && started
      ensures forall k :: 0 <= k < WIDTH ==> c[k] == if Known(slots[k]) then ZERO else coef[k]
      ensures forall x: Line, j: nat :: KnownHold(slots, x, j) ==> Residual(c, d, x, j) == Residual(coef, data, x, j)
      ensures NoneKnown(slots) ==> c == coef && d == data
      ensures |d| >= |data|
    {
      hide Index, Wrap, Plus, Place, Diff, Residual, Combine, At;
      c, d := coef, data;
      var esi := lo;
      ghost var p := at;
      DiffOfWraps(at, at + WIDTH);
      while Diff(esi, high) < 0
        invariant at <= p <= at + WIDTH && esi == Wrap(p) && Diff(esi, high) == p - (at + WIDTH)
        invariant forall k :: 0 <= k < WIDTH ==>
          c[k] == if Age(at, k) < p - at && Known(slots[k]) then ZERO else coef[k]
        invariant forall x: Line, j: nat ::
          KnownHold(slots, x, j) ==> Residual(c, d, x, j) == Residual(coef, data, x, j)
        invariant NoneKnown(slots) ==> d == data
        invariant |d| >= |data|
        decreases at + WIDTH - p
      {
        OneMore(at, p);
        var index := Index(esi);
        if c[index] != ZERO && slots[index].live && slots[index].known {
          var v := slots[index].vector;
          forall x: Line, j: nat | KnownHold(slots, x, j)
            ensures Residual(c[index := ZERO], Combine(c[index], v, d), x, j) == Residual(c, d, x, j)
          {
            assert SlotHolds(slots[index], x[index], j);
            ResidualSubstitute(c, d, index, v, x, j);
          }
          c, d := c[index := ZERO], Combine(c[index], v, d);
        }
        PlusOfWrap(p, 1);
        DiffOfWraps(p + 1, at + WIDTH);
        esi := Plus(esi, 1);
        p := p + 1;
      }
    }

    /** Removes the held rows' pivots from a new equation; one pass is enough. */
    method EliminateRows(coef: Line, data: seq<byte>) returns (c: Line, d: seq<byte>)
      requires |slots| == WIDTH
      ensures Reduced(at, slots, rows) ==> forall i :: 0 <= i < |rows| ==> c[Index(rows[i].pivot)] == ZERO
      ensures Reduced(at, slots, rows) && (forall k :: 0 <= k < WIDTH && Known(slots[k]) ==> coef[k] == ZERO) ==>
        forall k :: 0 <= k < WIDTH && Known(slots[k]) ==> c[k] == ZERO
      ensures forall x: Line, j: nat :: RowsHold(rows, x, j) ==> Residual(c, d, x, j) == Residual(coef, data, x, j)
      ensures rows == [] ==> c == coef && d == data
      ensures RoomyRows(at, rows, stream, since) && RoomyRow(at, coef, data, stream, since) ==>
        RoomyRow(at, c, d, stream, since)
    {
      hide Index, Residual, Combine, AddScaled, Shaped, Apart, RowHolds, RoomyRow;
      c, d := coef, data;
      ghost var room := RoomyRows(at, rows, stream, since) && RoomyRow(at, coef, data, stream, since);
      ghost var good := Reduced(at, slots, rows);
      ghost var clean := good && forall k :: 0 <= k < WIDTH && Known(slots[k]) ==> coef[k] == ZERO;
      for i := 0 to |rows|
        invariant good ==> forall m :: 0 <= m < i ==> c[Index(rows[m].pivot)] == ZERO
        invariant clean ==> forall k :: 0 <= k < WIDTH && Known(slots[k]) ==> c[k] == ZERO
        invariant forall x: Line, j: nat :: RowsHold(rows, x, j) ==> Residual(c, d, x, j) == Residual(coef, data, x, j)
        invariant i == 0 ==> c == coef && d == data
        invariant room ==> RoomyRow(at, c, d, stream, since)
      {
        var r := rows[i];
        var f := c[Index(r.pivot)];
        if f != ZERO {
          forall x: Line, j: nat | RowsHold(rows, x, j)
            ensures Residual(AddScaled(f, r.coef, c), Combine(f, r.data, d), x, j) == Residual(c, d, x, j)
          {
            EliminationKeeps(r, f, c, d, x, j);
          }
          if good { EliminationClears(at, slots, rows, i, c); }
          if room { RoomyCombined(at, f, r.coef, r.data, c, d, stream, since); }
          c, d := AddScaled(f, r.coef, c), Combine(f, r.data, d);
        }
      }
    }

    /** Adds one equation to the system, reducing it first, and takes whatever that completes. */
    method Insert(coef: Line, data: seq<byte>, out: Delivery, ghost recoveredBase: nat, ghost lostBase: nat)
      returns (out': Delivery)
      requires Framed() && started && Placed(at, slots) && OneFate(at, slots, fates) && recovered == |fates.recovered|
      requires Logged(at, slots, fates, out, recoveredBase, lostBase)
      modifies this`slots, this`rows, this`recovered, this`discarded, this`fates
      ensures Framed() && Placed(at, slots) && OneFate(at, slots, fates) && recovered == |fates.recovered|
      ensures Logged(at, slots, fates, out', recoveredBase, lostBase)
      ensures out'.lost == out.lost && Gains(old(fates), fates, {}) && fates.lost == old(fates.lost)
      ensures old(Reduced(at, slots, rows) && Tight(rows) && Consistent(slots, rows, coef, data)) ==>
        Reduced(at, slots, rows) && Tight(rows) && Learned(old(slots), old(rows), slots, rows, coef, data)
      ensures old(NoneKnown(slots) && rows == []) && Waiting(coef) ==>
        OneRow(at, rows, coef, data) && fates == old(fates)
      ensures old(True()) && TrueRow(at, coef, data, stream) && old(Original(fates, out, recoveredBase, stream)) ==>
        (Original(fates, out', recoveredBase, stream) ==> True())
      ensures old(Room()) && RoomyRow(at, coef, data, stream, since) ==> Room()
    {
      hide Truthful, TrueRow, Original, RoomySlots, RoomyRows, Outcome;
      hide Index, Wrap, Place, Reduced, Tight, Leads, Holds, Logged, OneFate, Placed, Residual, Learned, Consistent;
      hide RowHolds, OneRow, NoneKnown, Waiting, Shaped, Gains;
      GainsSame(fates);
      ghost var good := Reduced(at, slots, rows);
      var c0, d0 := EliminateKnown(coef, data);
      if RoomyRow(at, coef, data, stream, since) { RoomyLess(at, coef, data, c0, d0, stream, since); }
      hide RoomyRow;
      var c, d := EliminateRows(c0, d0);
      assert SameResidual(slots, rows, coef, data, c, d) by {
        forall x: Line, j: nat | Holds(slots, rows, x, j) ensures Residual(c, d, x, j) == Residual(coef, data, x, j) {
          HoldsParts(slots, rows, x, j);
        }
      }
      var pivot, count := Leading(c);
      if count == 0 {
        discarded := discarded + 1;
        if Consistent(slots, rows, coef, data) { NothingLearned(slots, rows, coef, data, c, d); }
        EmptyNotWaiting(c);
        return out;
      }
      out' := AddRow(coef, data, c, d, pivot, out, recoveredBase, lostBase);
    }

    /** Scales an equation to a unit pivot, clears that pivot from the rows held, and adds the row. */
    method PutRow(c: Line, d: seq<byte>, pivot: uint32)
      requires |slots| == WIDTH && c[Index(pivot)] != ZERO
      modifies this`rows
      ensures Holding() == Inserted(old(Holding()), c, d, pivot)
    {
      hide Index, ClearRow, Inv, Scale;
      var f := Inv(c[Index(pivot)]);
      var cs, ds := c, d;
      if f == ONE {
        ScaleByOne(c); ScaleByOne(d);
      } else {
        cs, ds := Scale(f, c), Scale(f, d);
      }
      var row := Row(pivot, cs, ds);
      var cleared := rows;
      for i := 0 to |rows|
        invariant |cleared| == |rows|
        invariant forall m :: i <= m < |rows| ==> cleared[m] == rows[m]
        invariant forall m :: 0 <= m < i ==> cleared[m] == ClearRow(rows[m], row)
      {
        cleared := cleared[i := ClearRow(cleared[i], row)];
      }
      assert cleared == ClearRows(rows, row);
      rows := cleared + [row];
    }

    /** Scales a reduced equation to a unit pivot, clears that pivot from the rows held, and harvests. */
    method AddRow(ghost coef: Line, ghost data: seq<byte>, c: Line, d: seq<byte>, pivot: uint32,
                  out: Delivery, ghost recoveredBase: nat, ghost lostBase: nat) returns (out': Delivery)
      requires Framed() && started && Placed(at, slots) && OneFate(at, slots, fates) && recovered == |fates.recovered|
      requires Logged(at, slots, fates, out, recoveredBase, lostBase)
      requires c[Index(pivot)] != ZERO && Leads(at, c, Index(pivot)) && pivot == Wrap(Place(at, Index(pivot)))
      requires SameResidual(slots, rows, coef, data, c, d)
      requires Reduced(at, slots, rows) ==>
        && (forall k :: 0 <= k < WIDTH && Known(slots[k]) ==> c[k] == ZERO)
        && (forall i :: 0 <= i < |rows| ==> c[Index(rows[i].pivot)] == ZERO)
      modifies this`slots, this`rows, this`recovered, this`fates
      ensures Framed() && Placed(at, slots) && OneFate(at, slots, fates) && recovered == |fates.recovered|
      ensures Logged(at, slots, fates, out', recoveredBase, lostBase)
      ensures out'.lost == out.lost && Gains(old(fates), fates, {}) && fates.lost == old(fates.lost)
      ensures old(Reduced(at, slots, rows)) ==>
        Reduced(at, slots, rows) && Tight(rows) && Learned(old(slots), old(rows), slots, rows, coef, data)
      ensures old(rows) == [] && Waiting(c) ==> OneRow(at, rows, c, d) && fates == old(fates)
      ensures old(True()) && TrueRow(at, coef, data, stream) && old(Original(fates, out, recoveredBase, stream)) ==>
        (Original(fates, out', recoveredBase, stream) <==>
         TakesRightly(at, Inserted(old(Holding()), c, d, pivot), 0, false))
        && (Original(fates, out', recoveredBase, stream) ==> True())
      ensures old(Room()) && RoomyRow(at, c, d, stream, since) ==> Room()
    {
      hide Truthful, TrueRow, Original, Roomy, RoomyRow, TakesRightly, Outcome, Inserted, Gains;
      hide Index, Wrap, Place, Reduced, Tight, Leads, Logged, OneFate, Placed, Learned;
      hide OneRow, Waiting, SameResidual, AllWaiting, TookFirst, IsFirst, SameSolutions;
      ghost var was := Holding();
      ghost var put := Inserted(was, c, d, pivot);
      InsertedLearned(at, was, coef, data, c, d, pivot);
      if True() && TrueRow(at, coef, data, stream) { InsertedTrue(at, was, coef, data, c, d, pivot, stream); }
      if Room() && RoomyRow(at, c, d, stream, since) { InsertedRoomy(at, was, c, d, pivot, stream, since); }
      PutRow(c, d, pivot);
      out' := Harvest(out, recoveredBase, lostBase, 0, 0);
      if Truthful(at, was.slots, was.rows, stream) && TrueRow(at, coef, data, stream)
         && Original(was.fates, out, recoveredBase, stream) {
        OutcomeFrom(at, put, out, Holding(), out', recoveredBase, stream);
      }
      if Reduced(at, was.slots, was.rows) {
        LearnedThenSame(was.slots, was.rows, put.slots, put.rows, slots, rows, coef, data);
      }
    }

    /** Drops the rows that mention a slot. */
    method Retire(index: nat)
      requires index < WIDTH
      modifies this`rows, this`discarded
      ensures rows == Unmentioned(old(rows), index) && discarded == old(discarded) + |old(rows)| - |rows|
    {
      var kept := [];
      var dropped := 0;
      for i := 0 to |rows|
        invariant kept == Unmentioned(rows[..i], index)
        invariant dropped == i - |kept|
      {
        assert rows[..i + 1][..i] == rows[..i];
        if rows[i].coef[index] != ZERO {
          dropped := dropped + 1;
        } else {
          kept := kept + [rows[i]];
        }
      }
      assert rows[..|rows|] == rows;
      discarded := discarded + dropped;
      rows := kept;
    }

    /** Drops the oldest identifier and everything that depended on it. */
    method Evict(esi: uint32, out: Delivery, ghost recoveredBase: nat, ghost lostBase: nat) returns (out': Delivery)
      requires |slots| == WIDTH && Placed(at, slots) && OneFate(at, slots, fates) && esi == Wrap(at)
      requires origin == Wrap(originAt) && lost == |fates.lost|
      requires out.recovered == [] && Logged(at, slots, fates, out, recoveredBase, lostBase)
      modifies this`slots, this`rows, this`lost, this`discarded, this`fates, this`at
      ensures at == old(at) + 1
      ensures slots == old(slots)[old(at) % WIDTH := EmptySlot] && rows == Unmentioned(old(rows), old(at) % WIDTH)
      ensures Placed(at, slots) && OneFate(at, slots, fates) && lost == |fates.lost|
      ensures out'.recovered == [] && Logged(at, slots, fates, out', recoveredBase, lostBase)
      ensures fates.known == old(fates.known) && fates.recovered == old(fates.recovered)
      ensures discarded == old(discarded) + |old(rows)| - |rows|
      ensures fates.lost == old(fates.lost) || fates.lost == old(fates.lost) + [old(at)]
      ensures Near(old(at), originAt) ==>
        (fates.lost == old(fates.lost) + [old(at)] <==> originAt <= old(at) && old(at) !in fates.known)
    {
      hide Wrap, Index, Place, Unmentioned;
      OneMore(at, at);
      out' := out;
      var index := Index(esi);
      var held := slots[index].live && slots[index].esi == esi;
      if Near(at, originAt) { DiffOfWraps(at, originAt); }
      ghost var lostNow := !(held && slots[index].known) && Diff(esi, origin) >= 0;
      EvictOneFate(at, slots, fates, lostNow);
      EvictLogged(at, slots, fates, out, recoveredBase, lostBase, lostNow);
      if !(held && slots[index].known) && Diff(esi, origin) >= 0 {
        out' := out'.(lost := out'.lost + [esi]);
        lost := lost + 1;
        fates := fates.(lost := fates.lost + [at]);
      }
      if held {
        slots := slots[index := EmptySlot];
      } else {
        assert !slots[index].live;
        slots := slots[index := EmptySlot];
      }
      Retire(index);
      at := at + 1;
    }

    /** The window is on its way up to position p: everything below at has been evicted. */
    ghost predicate Sliding(at0: int, p: int, rows0: seq<Row>, f0: Fates, kept: Kept, out: Delivery)
      reads this
    {
      && at0 <= at <= at0 + WIDTH && at <= p + 1 - WIDTH && p - at0 < HALF + WIDTH
      && lo == Wrap(at) && high == Wrap(p + 1) && origin == Wrap(originAt)
      && |slots| == WIDTH && Placed(at, slots) && OneFate(at, slots, fates)
      && recovered == |fates.recovered| && lost == |fates.lost|
      && out.recovered == [] && Logged(at, slots, fates, out, |f0.recovered|, |f0.lost|)
      && fates.known == f0.known && fates.recovered == f0.recovered && f0.lost <= fates.lost
      && (forall r :: r in rows ==> r in rows0)
      && Vacated(at0, at, slots, rows)
      && originAt < at0 + WIDTH && (p + 1 - originAt <= HALF ==> LostFrom(f0.lost, fates.lost, originAt))
      && (accounted ==> p + 1 - originAt <= HALF && AccountedFor(originAt, at, fates))
      && (kept.good ==> Solved(at, slots, rows, told)) && (kept.truth ==> True()) && (kept.room ==> Room())
    }

    /** One step of the walk: the oldest identifier leaves. */
    method SlideOne(out: Delivery, ghost at0: int, ghost p: int, ghost rows0: seq<Row>, ghost f0: Fates,
                    ghost kept: Kept)
      returns (out': Delivery)
      requires Sliding(at0, p, rows0, f0, kept, out) && at < at0 + WIDTH && at < p + 1 - WIDTH
      modifies this`lo, this`slots, this`rows, this`lost, this`discarded, this`fates, this`at
      ensures Sliding(at0, p, rows0, f0, kept, out') && at == old(at) + 1
    {
      hide Wrap, Plus, Unmentioned, OneFate, Logged, Placed, Solved, Vacated, AccountedFor, Truthful, Roomy;
      ghost var f, rowsB := fates, rows;
      if kept.good { SolvedSlides(at, slots, rows, told); }
      if kept.truth { EvictedTruthful(at, slots, rows, stream); }
      if kept.room { RoomyEvicted(at, slots, rows, stream, since); }
      VacateOne(at0, at, slots, rows);
      out' := Evict(lo, out, |f0.recovered|, |f0.lost|);
      if accounted { AccountOne(originAt, at - 1, f, fates); }
      PlusOfWrap(at - 1, 1);
      lo := Plus(lo, 1);
    }

    /** Walks identifiers out of the window, at most a window's worth of them. */
    method Walk(ghost at0: int, ghost p: int, ghost rows0: seq<Row>, ghost f0: Fates, ghost kept: Kept)
      returns (out: Delivery)
      requires Sliding(at0, p, rows0, f0, kept, Nothing) && at == at0
      modifies this`lo, this`slots, this`rows, this`lost, this`discarded, this`fates, this`at
      ensures Sliding(at0, p, rows0, f0, kept, out)
      ensures at == if at0 + WIDTH <= p + 1 - WIDTH then at0 + WIDTH else p + 1 - WIDTH
    {
      hide Wrap, Plus, Diff, Distance, OneFate, Logged, Placed, Solved, Vacated, AccountedFor, Truthful, Roomy;
      out := Nothing;
      var walked := Plus(lo, WIDTH);
      PlusOfWrap(at, WIDTH);
      DistanceOfWraps(p + 1, at); DiffOfWraps(at, at + WIDTH);
      while Distance(high, lo) > WIDTH && Diff(lo, walked) < 0
        modifies this`lo, this`slots, this`rows, this`lost, this`discarded, this`fates, this`at
        invariant Sliding(at0, p, rows0, f0, kept, out)
        invariant Distance(high, lo) == p + 1 - at && Diff(lo, walked) == at - (at0 + WIDTH)
        decreases at0 + WIDTH - at
      {
        out := SlideOne(out, at0, p, rows0, f0, kept);
        DistanceOfWraps(p + 1, at); DiffOfWraps(at, at0 + WIDTH);
      }
    }

    /** Moves the window up to end just above a newer identifier. */
    method Slide(esi: uint32, ghost p: int) returns (out: Delivery)
      requires Valid() && started && esi == Wrap(p) && at + WIDTH <= p && Near(p, at + WIDTH)
      modifies this`lo, this`high, this`slots, this`rows, this`lost, this`discarded
      modifies this`fates, this`at, this`accounted
      ensures Valid() && at == p + 1 - WIDTH && out.recovered == []
      ensures Logged(at, slots, fates, out, |old(fates.recovered)|, |old(fates.lost)|)
      ensures fates.known == old(fates.known) && fates.recovered == old(fates.recovered)
      ensures old(fates.lost) <= fates.lost
      ensures accounted <==> old(accounted) && at - old(at) <= WIDTH && at + WIDTH - originAt <= HALF
      ensures at + WIDTH - originAt <= HALF ==> LostFrom(old(fates.lost), fates.lost, originAt)
      ensures forall r :: r in rows ==> r in old(rows)
      ensures old(Good()) ==> Good()
      ensures (old(True()) ==> True()) && (old(Room()) ==> Room())
    {
      hide Fresh, Wrap, Plus, Diff, Distance, Satisfies, OneFate, Logged, Placed, Solved, Vacated, AccountedFor;
      hide Truthful, Roomy;
      EmptyLog(at, slots, fates);
      KnownBelow(at, slots, fates);
      VacateNone(at, slots, rows);
      ghost var at0, rows0, f0, kept := at, rows, fates, Kept(Good(), True(), Room());
      if kept.good { SolvedWithin(at, slots, rows, told); }
      PlusOfWrap(p, 1);
      high := Plus(esi, 1);
      accounted := accounted && p + 1 - originAt <= HALF;
      out := Walk(at0, p, rows0, f0, kept);
      DistanceOfWraps(p + 1, at);
      if Distance(high, lo) > WIDTH {
        Jump(at0, p, rows0, f0, kept, out);
      }
    }

    /** Past a window's worth of evictions the window moves to its new place in one step. */
    method Jump(ghost at0: int, ghost p: int, ghost rows0: seq<Row>, ghost f0: Fates, ghost kept: Kept,
                ghost out: Delivery)
      requires Sliding(at0, p, rows0, f0, kept, out) && at == at0 + WIDTH < p + 1 - WIDTH
      requires forall q :: q in f0.known ==> q < at0 + WIDTH
      requires kept.good ==> (forall i :: 0 <= i < |told| ==> told[i].at <= at0) && forall j: nat ::
        Satisfies(TruthOf(stream)(j), told, j)
      modifies this`lo, this`at, this`accounted
      ensures at == p + 1 - WIDTH && lo == Wrap(at) && !accounted
      ensures Placed(at, slots) && OneFate(at, slots, fates)
      ensures Logged(at, slots, fates, out, |f0.recovered|, |f0.lost|)
      ensures kept.good ==> Solved(at, slots, rows, told)
      ensures (kept.truth ==> True()) && (kept.room ==> Room())
    {
      hide Wrap, Plus, Satisfies, OneFate, Logged, Placed, Solved, Vacated, AccountedFor, Truthful, Roomy;
      if kept.truth { VacatedTruthful(at0, p + 1 - WIDTH, slots, rows, stream); }
      RoomyVacated(at0, p + 1 - WIDTH, slots, rows, stream, since);
      PlusOfWrap(p + 1, -WIDTH);
      JumpOneFate(at0, at, p + 1 - WIDTH, slots, rows, fates);
      if kept.good { SolvedJumps(at0, p + 1 - WIDTH, slots, rows, told, TruthOf(stream)); }
      JumpLogged(at, p + 1 - WIDTH, slots, fates, out, |f0.recovered|, |f0.lost|);
      lo := Plus(high, -WIDTH);
      at := p + 1 - WIDTH;
      accounted := false;
    }

    /** Brings an identifier into the window, sliding it forward and reporting what falls off. */
    method Admit(esi: uint32, ghost p: int) returns (ok: bool, out: Delivery)
      requires Valid() && esi == Wrap(p)
      requires started ==> Near(p, at)
      modifies this`started, this`lo, this`high, this`origin, this`slots, this`rows, this`lost, this`discarded
      modifies this`fates, this`at, this`originAt, this`accounted
      ensures Valid() && started && out.recovered == []
      ensures Logged(at, slots, fates, out, |old(fates.recovered)|, |old(fates.lost)|)
      ensures ok <==> old(!started || at <= p)
      ensures !ok ==> out == Nothing && fates == old(fates)
      ensures old(!started) ==> rows == [] && fates == NoFates
      ensures ok ==> at <= p < at + WIDTH
      ensures at == if !old(started) then p + 1 - WIDTH else if old(at) + WIDTH <= p then p + 1 - WIDTH else old(at)
      ensures old(started && p < at + WIDTH) ==>
        out == Nothing && fates == old(fates) && slots == old(slots) && rows == old(rows) && discarded == old(discarded)
      ensures fates.known == old(fates.known) && fates.recovered == old(fates.recovered)
      ensures old(fates.lost) <= fates.lost
      ensures originAt == if old(started) then old(originAt) else p
      ensures old(started) && at + WIDTH - originAt <= HALF ==> LostFrom(old(fates.lost), fates.lost, originAt)
      ensures accounted <==> old(!started) || Steady(old(accounted), old(at), old(originAt), at)
      ensures forall r :: r in rows ==> r in old(rows)
      ensures old(Good()) ==> Good()
      ensures (old(True()) ==> True()) && (old(Room()) ==> Room())
    {
      hide Index, Wrap, Plus, Place, Diff, Distance, Solved, Satisfies, Unmentioned, OneFate, Logged, Placed, Truthful;
      hide Roomy;
      out := Nothing;
      if !started {
        NothingTruthful(p + 1 - WIDTH, slots, stream);
        RoomyNothing(p + 1 - WIDTH, slots, stream, since);
        FirstWindow(p, slots);
        if Good() { SolvedEmpty(p + 1 - WIDTH, slots, told, TruthOf(stream)); }
        EmptyLog(p + 1 - WIDTH, slots, fates);
        PlusOfWrap(p, 1); PlusOfWrap(p + 1, -WIDTH);
        started, origin, high := true, esi, Plus(esi, 1);
        lo := Plus(high, -WIDTH);
        at, originAt := p + 1 - WIDTH, p;
        return true, out;
      }
      DiffOfWraps(p, at);
      EmptyLog(at, slots, fates);
      if Diff(esi, lo) < 0 {
        return false, out;
      }
      DiffOfWraps(p, at + WIDTH);
      if Diff(esi, high) >= 0 {
        out := Slide(esi, p);
      }
      ok := true;
    }

    /** An identifier inside the window is known to exist: the origin moves down to it. */
    method Witness(esi: uint32, ghost p: int)
      requires Valid() && started && esi == Wrap(p) && p < at + WIDTH && Near(p, at)
      modifies this`origin, this`originAt
      ensures Valid()
      ensures accounted ==> originAt == OriginAfter(true, old(originAt), at, p)
      ensures accounted && at <= p ==> originAt <= p
      ensures originAt == old(originAt) || originAt == p
      ensures old(Good()) ==> Good()
    {
      hide Wrap, Diff, OneFate, Placed, Solved, Satisfies;
      DiffOfWraps(p, at);
      if Near(p, originAt) { DiffOfWraps(p, originAt); }
      if Diff(esi, origin) < 0 && Diff(esi, lo) >= 0 {
        origin := esi;
        originAt := p;
      }
    }

    /** Nothing has arrived yet. */
    constructor (ghost stream: int -> seq<byte>, ghost since: int)
      ensures Valid() && Good() && !started && fates == NoFates && told == [] && this.stream == stream
      ensures this.since == since
      ensures True() && Room()
    {
      slots := seq(WIDTH, _ => EmptySlot);
      lo, high, origin, started, rows := 0, 0, 0, false, [];
      recovered, lost, discarded := 0, 0, 0;
      this.stream, this.since, at, originAt, told, fates, accounted := stream, since, 0, 0, [], NoFates, true;
    }

    /** A source symbol that arrived intact. */
    method Source(esi: uint32, vector: seq<byte>, ghost p: int) returns (out: Delivery)
      requires Valid() && esi == Wrap(p)
      requires started ==> Near(p, at)
      modifies this
      ensures Valid() && started
      ensures at == WindowAfter(old(started), old(at), p)
      ensures Logged(at, slots, fates, out, |old(fates.recovered)|, |old(fates.lost)|)
      ensures Gains(old(fates), fates, if old(!started || at <= p) then {p} else {})
      ensures old(started && p < at) ==>
        out == Nothing && fates == old(fates) && rows == old(rows) && slots == old(slots)
      ensures old(!started || at <= p) ==> p in fates.known
      ensures old(p !in fates.known) ==> p !in fates.recovered
      ensures told == if old((!started || at <= p) && p !in fates.known)
                      then old(told) + [Equation(at, UnitLine(p % WIDTH), vector)] else old(told)
      ensures accounted <==> old(!started) || Steady(old(accounted), old(at), old(originAt), at)
      ensures accounted ==> originAt == OriginAfter(old(started), old(originAt), at, p)
      ensures accounted && at <= p ==> originAt <= p
      ensures originAt == p || (old(started) && originAt == old(originAt))
      ensures old(started) && at + WIDTH - old(originAt) <= HALF ==>
        LostFrom(old(fates.lost), fates.lost, old(originAt))
      ensures !old(started) ==> fates.lost == []
      ensures old(Good()) && SameSymbol(vector, stream(p)) ==>
        && (Original(fates, out, |old(fates.recovered)|, stream) <==> !old(Corrupts(rows, esi, vector)))
        && ((forall r :: r in old(rows) ==> r.pivot != esi) ==> Good())
      ensures old(True()) && SameSymbol(vector, stream(p)) ==>
        && (Original(fates, out, |old(fates.recovered)|, stream) ==> True())
        && (old(started && at <= p < at + WIDTH && p !in fates.known) ==>
              (Original(fates, out, |old(fates.recovered)|, stream) <==>
               TakesRightly(at, Recorded(old(slots), old(rows), Settle(old(fates), p, false), p, vector), 0, false)))
      ensures old(started && at <= p < at + WIDTH && p !in fates.known
                  && AllWaiting(SubstituteRows(rows, p % WIDTH, vector))) ==>
        Holding() == Recorded(old(slots), old(rows), Settle(old(fates), p, false), p, vector)
      ensures old(Room()) && Reaches(stream, since, p, vector) ==> Room()
    {
      hide AllWaiting, SubstituteRows, Recorded, Gains, LostFrom, Steady;
      hide Wrap, Index, Solved, Satisfies, OneFate, Logged, Placed, Reduced, Original, SameSymbol, Corrupts, IsPivot;
      hide Truthful, Roomy, Reaches, TakesRightly, Outcome;
      ghost var true0 := Good() && SameSymbol(vector, stream(p));
      ghost var base, lostBase := |fates.recovered|, |fates.lost|;
      ghost var started0, at0, slots0, rows0, f0 := started, at, slots, rows, fates;
      GainsSame(fates); UnknownNotRecovered(at, slots, fates, p);
      var ok;
      ok, out := Admit(esi, p);
      NoneOriginal(fates, out, base, stream);
      if true0 { LateBefore(started0, at0, slots0, rows0, told, at, slots, rows, p, vector); }
      if !ok {
        return;
      }
      ghost var f := fates;
      out := Meet(esi, vector, out, base, lostBase, p);
      GainsFirst(f0, f, fates, {p});
    }

    /** Takes in a source symbol the window has been brought to. */
    method Meet(esi: uint32, vector: seq<byte>, out: Delivery, ghost recoveredBase: nat, ghost lostBase: nat,
                ghost p: int)
      returns (out': Delivery)
      requires Valid() && started && esi == Wrap(p) && at <= p < at + WIDTH
      requires out.recovered == [] && Logged(at, slots, fates, out, recoveredBase, lostBase)
      modifies this`slots, this`rows, this`recovered, this`fates, this`told, this`origin, this`originAt
      ensures Valid() && Logged(at, slots, fates, out', recoveredBase, lostBase)
      ensures p in fates.known && Gains(old(fates), fates, {p}) && fates.lost == old(fates.lost)
      ensures old(p !in fates.known) ==> p !in fates.recovered
      ensures told == if old(p !in fates.known) then old(told) + [Equation(at, UnitLine(p % WIDTH), vector)]
                      else old(told)
      ensures accounted ==> originAt == OriginAfter(true, old(originAt), at, p)
      ensures originAt == old(originAt) || originAt == p
      ensures old(Good()) && SameSymbol(vector, stream(p)) ==>
        && (Original(fates, out', recoveredBase, stream) <==> !old(Corrupts(rows, esi, vector)))
        && ((forall r :: r in old(rows) ==> r.pivot != esi) ==> Good())
      ensures old(True()) && SameSymbol(vector, stream(p)) ==>
        && (Original(fates, out', recoveredBase, stream) ==> True())
        && (old(p !in fates.known) ==>
              (Original(fates, out', recoveredBase, stream) <==>
               TakesRightly(at, Recorded(old(slots), old(rows), Settle(old(fates), p, false), p, vector), 0, false)))
      ensures old(p !in fates.known && AllWaiting(SubstituteRows(rows, p % WIDTH, vector))) ==>
        Holding() == Recorded(old(slots), old(rows), Settle(old(fates), p, false), p, vector)
      ensures old(Room()) && Reaches(stream, since, p, vector) ==> Room()
    {
      hide AllWaiting, SubstituteRows, Recorded, Gains, Truthful, Roomy, Reaches, TakesRightly;
      hide Wrap, Index, Solved, Satisfies, OneFate, Logged, Placed, Reduced, Original, SameSymbol, Corrupts, IsPivot;
      ghost var true0 := Good() && SameSymbol(vector, stream(p));
      LoggedRecovered(at, slots, fates, out, recoveredBase, lostBase);
      NoneOriginal(fates, out, recoveredBase, stream);
      if true0 { LateBefore(true, at, slots, rows, told, at, slots, rows, p, vector); }
      Witness(esi, p);
      OneMore(at, p);
      KnownWhenLive(at, slots, fates, p);
      if slots[Index(esi)].live && slots[Index(esi)].known && slots[Index(esi)].esi == esi {
        GainsNothing(fates, fates, {p});
        return out;
      }
      if true0 { NoPivotHere(at, slots, rows, told, p); }
      out' := Arrive(esi, vector, out, recoveredBase, lostBase, p);
    }

    /** Notes the symbol as known, before what it completes is taken. */
    method Note(esi: uint32, vector: seq<byte>, out: Delivery, ghost recoveredBase: nat, ghost lostBase: nat,
                ghost p: int)
      returns (out': Delivery)
      requires Valid() && started && esi == Wrap(p) && at <= p < at + WIDTH && !slots[p % WIDTH].live
      requires Logged(at, slots, fates, out, recoveredBase, lostBase)
      modifies this`slots, this`rows, this`recovered, this`fates
      ensures Framed() && Placed(at, slots) && OneFate(at, slots, fates) && recovered == |fates.recovered|
      ensures out' == out && Logged(at, slots, fates, out', recoveredBase, lostBase)
      ensures fates == Settle(old(fates), p, false) && fates.lost == old(fates.lost)
      ensures Holding() == Recorded(old(slots), old(rows), fates, p, vector)
      ensures Gains(old(fates), fates, {p})
      ensures old(True()) && SameSymbol(vector, stream(p)) ==> True()
      ensures old(Room()) && Reaches(stream, since, p, vector) ==> Room()
    {
      hide Truthful, Roomy, Reaches, Gains;
      hide Wrap, Index, OneFate, Logged, Placed, SameSymbol, SubstituteRow, SubstituteRows;
      SettleOneFate(at, slots, fates, p, vector, false);
      SettleArrivalLogged(at, slots, fates, out, recoveredBase, lostBase, p, vector);
      if True() && SameSymbol(vector, stream(p)) { RecordedTruthful(at, slots, rows, p, vector, stream); }
      if Room() && Reaches(stream, since, p, vector) { RoomyRecorded(at, slots, rows, p, vector, stream, since); }
      out' := Substitute(esi, vector, out, false, p);
    }

    /** Takes in a symbol not yet known, and whatever that completes. */
    method Arrive(esi: uint32, vector: seq<byte>, out: Delivery, ghost recoveredBase: nat, ghost lostBase: nat,
                  ghost p: int)
      returns (out': Delivery)
      requires Valid() && started && esi == Wrap(p) && at <= p < at + WIDTH && !slots[p % WIDTH].live
      requires out.recovered == [] && Logged(at, slots, fates, out, recoveredBase, lostBase)
      modifies this`slots, this`rows, this`recovered, this`fates, this`told
      ensures Valid() && Logged(at, slots, fates, out', recoveredBase, lostBase)
      ensures p in fates.known && p !in fates.recovered && Gains(old(fates), fates, {p})
      ensures fates.lost == old(fates.lost)
      ensures told == old(told) + [Equation(at, UnitLine(p % WIDTH), vector)]
      ensures old(Good()) && SameSymbol(vector, stream(p)) ==>
        && (Original(fates, out', recoveredBase, stream) <==> !old(Corrupts(rows, esi, vector)))
        && (old(!IsPivot(rows, p % WIDTH)) ==> Good())
      ensures old(True()) && SameSymbol(vector, stream(p)) ==>
        && (Original(fates, out', recoveredBase, stream) ==> True())
        && (Original(fates, out', recoveredBase, stream) <==>
            TakesRightly(at, Recorded(old(slots), old(rows), Settle(old(fates), p, false), p, vector), 0, false))
      ensures old(AllWaiting(SubstituteRows(rows, p % WIDTH, vector))) ==>
        Holding() == Recorded(old(slots), old(rows), Settle(old(fates), p, false), p, vector)
      ensures old(Room()) && Reaches(stream, since, p, vector) ==> Room()
    {
      hide Truthful, Roomy, Reaches, TakesRightly, Outcome, Fresh, AccountedFor, WindowAfter, Settle;
      hide Wrap, Index, Satisfies, OneFate, Logged, Placed, Reduced, Tight, SameSymbol, SubstituteRow, Solved;
      hide IsPivot, Corrupts, Original, LatePair, TookFirst, AllWaiting, IsFirst, SameSolutions, SubstituteRows;
      hide Recorded, Gains, Harvested;
      RecordedHeld(slots, rows, Settle(fates, p, false), p, vector);
      KnownWhenLive(at, slots, fates, p);
      ghost var k := p % WIDTH;
      ghost var true0 := Good() && SameSymbol(vector, stream(p));
      ghost var slots0, rows0, told0, f0 := slots, rows, told, fates;
      ghost var i0, u0 := 0, 0;
      if i: nat, u: nat :| LatePair(rows, k, i, u) { i0, u0 := i, u; }
      var out1 := Note(esi, vector, out, recoveredBase, lostBase, p);
      ghost var f := fates;
      LoggedRecovered(at, slots, fates, out1, recoveredBase, lostBase);
      NoneOriginal(fates, out1, recoveredBase, stream);
      out' := Harvest(out1, recoveredBase, lostBase, i0, u0);
      RecordedIdle(at, slots0, rows0, f, p, vector, out1, Holding(), out', i0, u0);
      if Truthful(at, slots0, rows0, stream) && SameSymbol(vector, stream(p)) {
        OutcomeFrom(at, Recorded(slots0, rows0, f, p, vector), out1, Holding(), out', recoveredBase, stream);
      }
      told := told + [Equation(at, UnitLine(k), vector)];
      if true0 {
        ArrivalOutcome(at, slots0, rows0, told0, f, Holding(), out, out', recoveredBase, lostBase, i0, u0, p, vector,
                       stream);
        if !IsPivot(rows0, k) {
          OrdinaryArrival(at, slots0, rows0, told0, f, Holding(), out, out', recoveredBase, lostBase, i0, u0, p, vector,
                          stream);
        }
      }
      RecoveredKnown(at, slots0, f0, fates, f, p);
      GainsOn(old(fates), f, fates, {p});
      MoreKnown(old(fates), fates, {p});
      AccountedMore(originAt, at, old(fates), fates);
    }

    /** The repair's coefficient row, regenerated over the window's slots. */
    method LayOut(r: RepairSymbol, ghost p: int) returns (coef: Line)
      requires Framed() && started && r.first == Wrap(p) && 0 <= r.count && at <= p && p + r.count <= at + WIDTH
      ensures coef == RepairRow(r.rid, p, r.count)
    {
      hide Wrap, Plus, Diff, Index, WindowCoefficient;
      coef := seq(WIDTH, _ => ZERO);
      for i := 0 to r.count
        invariant coef == RepairRow(r.rid, p, i)
      {
        PlusOfWrap(p, i);
        OneMore(at, p + i);
        DiffOfWraps(p + i, at); DiffOfWraps(p + i, at + WIDTH);
        var esi := Plus(r.first, i);
        if Diff(esi, lo) < 0 || Diff(esi, high) >= 0 {
          continue;
        }
        coef := coef[Index(esi) := WindowCoefficient(r.rid, i)];
      }
    }

    /** Adds an admitted repair's equation, and reports what it completes. */
    method Accept(r: RepairSymbol, coef: Line, out: Delivery, ghost recoveredBase: nat, ghost lostBase: nat,
                  ghost p: int)
      returns (out': Delivery)
      requires Valid() && started && 0 <= r.count && at <= p && p + r.count <= at + WIDTH
      requires coef == RepairRow(r.rid, p, r.count)
      requires Logged(at, slots, fates, out, recoveredBase, lostBase)
      modifies this`slots, this`rows, this`recovered, this`discarded, this`fates, this`told
      ensures Valid() && Logged(at, slots, fates, out', recoveredBase, lostBase)
      ensures Gains(old(fates), fates, {}) && fates.lost == old(fates.lost)
      ensures told == old(told) + [Equation(at, coef, r.vector)]
      ensures old(rows == [] && fates == NoFates) && Waiting(coef) ==>
        OneRow(at, rows, coef, r.vector) && fates == NoFates
      ensures old(Good()) && IsCombination(r, p, TruthOf(stream)) ==> Good()
      ensures old(True()) && IsCombination(r, p, TruthOf(stream)) && out.recovered == [] ==>
        (Original(fates, out', recoveredBase, stream) ==> True())
      ensures old(Room()) && (forall q :: p <= q < p + r.count ==> Reaches(stream, since, q, r.vector)) ==> Room()
    {
      hide Truthful, Roomy, Original, Reaches, TrueRow, RoomyRow;
      hide Wrap, Index, Satisfies, OneFate, Logged, Placed, Reduced, Tight, Exact, Learned, Holds, RowHolds, RepairRow;
      hide IsCombination, Consistent, OneRow, Waiting, NoneKnown;
      if fates == NoFates { NothingKnown(at, slots); }
      ghost var true0 := Good() && IsCombination(r, p, TruthOf(stream));
      ghost var slots0, rows0, told0 := slots, rows, told;
      if true0 {
        RepairTrue(at, r, p, TruthOf(stream));
        TruthConsistent(at, slots, rows, told, coef, r.vector, TruthOf(stream));
      }
      if IsCombination(r, p, TruthOf(stream)) { RepairTrueRow(at, r, p, stream); }
      if forall q :: p <= q < p + r.count ==> Reaches(stream, since, q, r.vector) {
        RoomyRepair(at, r.rid, p, r.count, r.vector, stream, since);
      }
      LoggedRecovered(at, slots, fates, out, recoveredBase, lostBase);
      if out.recovered == [] { NoneOriginal(fates, out, recoveredBase, stream); }
      out' := Insert(coef, r.vector, out, recoveredBase, lostBase);
      told := told + [Equation(at, coef, r.vector)];
      if true0 {
        LearnedSolved(at, slots0, rows0, told0, slots, rows, coef, r.vector, TruthOf(stream));
      }
      AccountedMore(originAt, at, old(fates), fates);
    }

    /** Adds a repair whose newest symbol is in the window, unless its oldest has already left. */
    method Weigh(r: RepairSymbol, out: Delivery, ghost recoveredBase: nat, ghost lostBase: nat, ghost p: int)
      returns (out': Delivery)
      requires Valid() && started && r.first == Wrap(p) && 0 <= r.count && Near(p, at) && p + r.count <= at + WIDTH
      requires out.recovered == [] && Logged(at, slots, fates, out, recoveredBase, lostBase)
      modifies this`slots, this`rows, this`recovered, this`discarded, this`fates, this`told
      ensures Valid() && Logged(at, slots, fates, out', recoveredBase, lostBase)
      ensures Gains(old(fates), fates, {}) && fates.lost == old(fates.lost)
      ensures p < at ==> out' == out && fates == old(fates) && rows == old(rows) && slots == old(slots)
      ensures told == if at <= p then old(told) + [Equation(at, RepairRow(r.rid, p, r.count), r.vector)] else old(told)
      ensures at <= p && old(rows == [] && fates == NoFates) && Waiting(RepairRow(r.rid, p, r.count)) ==>
        OneRow(at, rows, RepairRow(r.rid, p, r.count), r.vector) && fates == NoFates
      ensures old(Good()) && IsCombination(r, p, TruthOf(stream)) ==>
        Good() && Original(fates, out', recoveredBase, stream)
      ensures old(True()) && IsCombination(r, p, TruthOf(stream)) && Original(fates, out', recoveredBase, stream) ==>
        True()
      ensures old(Room()) && (forall q :: p <= q < p + r.count ==> Reaches(stream, since, q, r.vector)) ==> Room()
    {
      hide Truthful, Roomy, Reaches;
      hide Wrap, Diff, Index, Solved, Satisfies, OneFate, Logged, Placed, Original, IsCombination, RepairRow, OneRow;
      hide Waiting;
      ghost var true0 := Good() && IsCombination(r, p, TruthOf(stream));
      LoggedRecovered(at, slots, fates, out, recoveredBase, lostBase);
      NoneOriginal(fates, out, recoveredBase, stream);
      out' := out;
      DiffOfWraps(p, at);
      if Diff(r.first, lo) < 0 {
        discarded := discarded + 1;
        return;
      }
      var coef := LayOut(r, p);
      out' := Accept(r, coef, out, recoveredBase, lostBase, p);
      if true0 {
        SolvedExact(at, slots, rows, told);
        DeliveryOriginal(at, slots, rows, told, fates, out', recoveredBase, lostBase, stream);
      }
    }

    /** A repair symbol, which may complete any number of the symbols its span covers. */
    method Repair(r: RepairSymbol, ghost p: int) returns (out: Delivery)
      requires Valid() && r.first == Wrap(p)
      requires started && 0 < r.count <= MAX_REPAIR_WINDOW && r.vector != [] ==>
        Near(p + r.count - 1, at)
      modifies this
      ensures Valid()
      ensures Logged(at, slots, fates, out, |old(fates.recovered)|, |old(fates.lost)|)
      ensures Gains(old(fates), fates, {})
      ensures r.count <= 0 || r.vector == [] || r.count > MAX_REPAIR_WINDOW ==>
        out == Nothing && fates == old(fates) && rows == old(rows) && slots == old(slots) && started == old(started)
        && told == old(told) && at == old(at) && originAt == old(originAt) && accounted == old(accounted)
      ensures 0 < r.count <= MAX_REPAIR_WINDOW && r.vector != [] ==>
        && started && at == WindowAfter(old(started), old(at), p + r.count - 1)
        && (told == if at <= p then old(told) + [Equation(at, RepairRow(r.rid, p, r.count), r.vector)] else old(told))
        && (p < at ==> fates.known == old(fates.known) && fates.recovered == old(fates.recovered))
        && (old(started && p < at && p + r.count <= at + WIDTH) ==>
              out == Nothing && fates == old(fates) && rows == old(rows) && slots == old(slots))
        && (accounted <==> old(!started) || Steady(old(accounted), old(at), old(originAt), at))
        && (accounted ==> originAt == OriginAfter(old(started), old(originAt), at, p))
        && (accounted && at <= p ==> originAt <= p)
        && (originAt == p || (old(started) && originAt == old(originAt)))
        && (old(started) && at + WIDTH - old(originAt) <= HALF ==>
              LostFrom(old(fates.lost), fates.lost, old(originAt)))
        && (!old(started) ==> fates.lost == [])
      ensures (old(!started) && 0 < r.count <= MAX_REPAIR_WINDOW && r.vector != []
               && Waiting(RepairRow(r.rid, p, r.count))) ==>
        OneRow(at, rows, RepairRow(r.rid, p, r.count), r.vector) && fates == NoFates
      ensures old(Good()) && IsCombination(r, p, TruthOf(stream)) ==>
        Good() && Original(fates, out, |old(fates.recovered)|, stream)
      ensures old(True()) && IsCombination(r, p, TruthOf(stream)) ==>
        (Original(fates, out, |old(fates.recovered)|, stream) ==> True())
      ensures old(Room()) && (forall q :: p <= q < p + r.count ==> Reaches(stream, since, q, r.vector)) ==> Room()
    {
      hide Wrap, Plus, Solved, Satisfies, OneFate, Logged, Placed, Original, IsCombination, Truthful, Roomy, Reaches;
      EmptyLog(at, slots, fates);
      NoneOriginal(fates, Nothing, |fates.recovered|, stream);
      if r.count <= 0 || |r.vector| == 0 {
        return Nothing;
      }
      if r.count > MAX_REPAIR_WINDOW {
        discarded := discarded + 1;
        return Nothing;
      }
      out := Solve(r, p);
    }

    /** A repair of legal width: brings its newest symbol into the window and adds its equation,
        unless its oldest symbol has already left. */
    method Solve(r: RepairSymbol, ghost p: int) returns (out: Delivery)
      requires Valid() && r.first == Wrap(p) && 0 < r.count <= MAX_REPAIR_WINDOW
      requires started ==> Near(p + r.count - 1, at)
      modifies this
      ensures Valid()
      ensures Logged(at, slots, fates, out, |old(fates.recovered)|, |old(fates.lost)|)
      ensures Gains(old(fates), fates, {})
      ensures started && at == WindowAfter(old(started), old(at), p + r.count - 1)
      ensures told == if at <= p then old(told) + [Equation(at, RepairRow(r.rid, p, r.count), r.vector)] else old(told)
      ensures p < at ==> fates.known == old(fates.known) && fates.recovered == old(fates.recovered)
      ensures old(started && p < at && p + r.count <= at + WIDTH) ==>
        out == Nothing && fates == old(fates) && rows == old(rows) && slots == old(slots)
      ensures accounted <==> old(!started) || Steady(old(accounted), old(at), old(originAt), at)
      ensures accounted ==> originAt == OriginAfter(old(started), old(originAt), at, p)
      ensures accounted && at <= p ==> originAt <= p
      ensures originAt == p || (old(started) && originAt == old(originAt))
      ensures old(started) && at + WIDTH - old(originAt) <= HALF ==>
        LostFrom(old(fates.lost), fates.lost, old(originAt))
      ensures !old(started) ==> fates.lost == []
      ensures (old(!started) && 0 < r.count <= MAX_REPAIR_WINDOW && r.vector != []
               && Waiting(RepairRow(r.rid, p, r.count))) ==>
        OneRow(at, rows, RepairRow(r.rid, p, r.count), r.vector) && fates == NoFates
      ensures old(Good()) && IsCombination(r, p, TruthOf(stream)) ==>
        Good() && Original(fates, out, |old(fates.recovered)|, stream)
      ensures old(True()) && IsCombination(r, p, TruthOf(stream)) ==>
        (Original(fates, out, |old(fates.recovered)|, stream) ==> True())
      ensures old(Room()) && (forall q :: p <= q < p + r.count ==> Reaches(stream, since, q, r.vector)) ==> Room()
    {
      hide Truthful, Roomy, Reaches;
      hide Wrap, Plus, Diff, Index, Solved, Satisfies, OneFate, Logged, Placed, Original, IsCombination, RepairRow;
      hide OneRow, Waiting;
      ghost var base, lostBase := |fates.recovered|, |fates.lost|;
      PlusOfWrap(p, r.count - 1);
      var ok;
      ok, out := Admit(Plus(r.first, r.count - 1), p + r.count - 1);
      NoneOriginal(fates, out, base, stream);
      if !ok {
        return;
      }
      Witness(r.first, p);
      out := Weigh(r, out, base, lostBase, p);
    }
  }
}
