/** Runs of the decoder in which no symbol first arrives after a repair that covers it (window.go):
    only originals are reported, and nothing that is determined is missed. */
module SoundRuns {
  import opened Gf256
  import opened Vectors
  import opened Ids
  import opened LinearSystem
  import opened Echelon
  import opened Knowledge
  import Determinacy
  import opened Coefficients
  import opened DecoderSteps
  import opened LateArrival
  import opened Truth
  import opened Reports
  import opened Decoder
  import opened DecoderRuns
  import opened Link

  // ---------------------------------------------------------------- what is a pivot

  ghost predicate MentionsIn(e: Equation, q: int) {
    e.at <= q < e.at + WIDTH && e.coef[q % WIDTH] != ZERO
  }

  /** Some equation told mentions the symbol. */
  ghost predicate Mentions(told: seq<Equation>, q: int) {
    exists i :: 0 <= i < |told| && MentionsIn(told[i], q)
  }

  /** Changing a symbol that nothing told mentions changes nothing told. */
  lemma UnmentionedFree(a: Assignment, b: Assignment, told: seq<Equation>, q: int, j: nat)
    requires Satisfies(a, told, j) && !Mentions(told, q) && forall p :: p != q ==> a(p) == b(p)
    ensures Satisfies(b, told, j)
  {
    hide Dot, At, Column, Place;
    forall i | 0 <= i < |told| ensures RowHolds(told[i].coef, told[i].data, Column(b, told[i].at), j) {
      var e := told[i];
      assert !MentionsIn(e, q);
      forall k | 0 <= k < WIDTH && e.coef[k] != ZERO ensures Column(a, e.at)[k] == Column(b, e.at)[k] {
        ColumnPlace(a, e.at, k); ColumnPlace(b, e.at, k);
        PlaceOfSlot(e.at, k);
      }
      DotAgree(e.coef, Column(a, e.at), Column(b, e.at));
      assert RowHolds(e.coef, e.data, Column(a, e.at), j);
    }
  }

  lemma ColumnPlace(a: Assignment, at: int, k: nat)
    requires k < WIDTH
    ensures Column(a, at)[k] == a(Place(at, k))
  {}

  /** A row held in a reduced and exact state has its pivot among the symbols told of. */
  lemma PivotMentioned(at: int, slots: seq<Slot>, rows: seq<Row>, told: seq<Equation>, truth: nat -> Assignment, i: nat)
    requires |slots| == WIDTH && Solved(at, slots, rows, told) && i < |rows|
    requires forall j: nat :: Satisfies(truth(j), told, j)
    ensures Mentions(told, Place(at, Index(rows[i].pivot)))
  {
    assert Shaped(at, slots, rows[i]);
    hide Reduced, Tight, Satisfies, Index, Holds, Column, Xor, Mentions, Shaped, Place, Leads;
    var k, q := Index(rows[i].pivot), Place(at, Index(rows[i].pivot));
    var a := truth(0);
    var b: Assignment := p => if p == q then Xor(a(p), ONE) else a(p);
    if !Mentions(told, q) {
      UnmentionedFree(a, b, told, q, 0);
      BothHold(at, slots, rows, told, a, b, i);
      ChangedColumn(a, b, at, k, q);
      DotFill(rows[i].coef, Column(a, at), k, a(q));
      DotFill(rows[i].coef, Column(a, at), k, b(q));
      UnitDiffers(rows[i].coef, Column(a, at), k, a(q));
    }
  }

  lemma BothHold(at: int, slots: seq<Slot>, rows: seq<Row>, told: seq<Equation>, a: Assignment, b: Assignment, i: nat)
    requires |slots| == WIDTH && Exact(at, slots, rows, told) && i < |rows| && Satisfies(a, told, 0)
    requires Satisfies(b, told, 0)
    ensures Dot(rows[i].coef, Column(a, at)) == Dot(rows[i].coef, Column(b, at))
  {
    hide Dot, At, Column, Satisfies;
    assert Extends(told, at, Column(a, at), 0) && Extends(told, at, Column(b, at), 0);
    assert RowHolds(rows[i].coef, rows[i].data, Column(a, at), 0)
      && RowHolds(rows[i].coef, rows[i].data, Column(b, at), 0);
  }

  lemma ChangedColumn(a: Assignment, b: Assignment, at: int, k: nat, q: int)
    requires k < WIDTH && q == Place(at, k) && forall p :: p != q ==> a(p) == b(p)
    ensures Column(b, at) == Column(a, at)[k := b(q)] && Column(a, at)[k := a(q)] == Column(a, at)
  {
    forall m | 0 <= m < WIDTH && m != k ensures Place(at, m) != q { PlaceOfSlot(at, m); PlaceOfSlot(at, k); }
  }

  lemma UnitDiffers(c: Line, x: Line, k: nat, v: byte)
    requires k < WIDTH && c[k] == ONE
    ensures Dot(c, x[k := v]) != Dot(c, x[k := Xor(v, ONE)])
  {
    hide Xor, Dot, Mul;
    var rest, w := Dot(c, x[k := ZERO]), Xor(v, ONE);
    DotFill(c, x, k, v); DotFill(c, x, k, w);
    XorCancelTwice(rest, v); XorCancelTwice(rest, w);
    Determinacy.XorShifts(v, ONE);
  }

  /** A symbol already behind, ahead of or known in the window, or that nothing told mentions, is no pivot. */
  lemma NoPivotHit(d: WindowDecoder, p: int)
    requires d.Valid() && Exactly(d) && (d.started ==> Near(p, d.at))
    requires d.started && d.at <= p < d.at + WIDTH && p !in d.fates.known ==> !Mentions(d.told, p)
    ensures forall r :: r in d.rows ==> r.pivot != Wrap(p)
  {
    if d.started {
      hide WindowDecoder.Valid, Satisfies, Wrap, Place, Mentions, Exact, Reduced, Tight;
      forall r | r in d.rows ensures r.pivot != Wrap(p) {
        var i :| 0 <= i < |d.rows| && d.rows[i] == r;
        PivotUnknown(d, i);
        PivotMentioned(d.at, d.slots, d.rows, d.told, TruthOf(d.stream), i);
        if r.pivot == Wrap(p) { WrapInjective(p, Place(d.at, Index(r.pivot))); }
      }
    }
  }

  lemma PivotUnknown(d: WindowDecoder, i: nat)
    requires d.Valid() && Exactly(d) && d.started && i < |d.rows|
    ensures var q := Place(d.at, Index(d.rows[i].pivot));
            d.rows[i].pivot == Wrap(q) && d.at <= q < d.at + WIDTH && q !in d.fates.known
  {
    assert Shaped(d.at, d.slots, d.rows[i]);
    hide Wrap, Satisfies, Exact, Tight, Leads, Place, Index;
    var k := Index(d.rows[i].pivot);
    PlaceOfSlot(d.at, k);
    KnownWhenLive(d.at, d.slots, d.fates, Place(d.at, k));
  }

  // ---------------------------------------------------------------- what was told

  ghost predicate Covers(a: Arrival, q: int) {
    a.Combined? && !Ignored(a) && a.p <= q < a.p + a.repair.count
  }

  /** One of the first n arrivals is a repair that covers the symbol, or the symbol itself. */
  ghost predicate Covered(arrivals: seq<Arrival>, n: nat, q: int)
    requires n <= |arrivals|
  {
    exists i :: 0 <= i < n && Covers(arrivals[i], q)
  }

  ghost predicate Met(arrivals: seq<Arrival>, n: nat, q: int)
    requires n <= |arrivals|
  {
    exists i :: 0 <= i < n && arrivals[i].Symbol? && arrivals[i].p == q
  }

  /** No symbol first arrives after a repair that covers it. */
  ghost predicate Timely(arrivals: seq<Arrival>) {
    forall n ::
      0 <= n < |arrivals| && arrivals[n].Symbol? && Covered(arrivals, n, arrivals[n].p) ==>
        Met(arrivals, n, arrivals[n].p)
  }

  /** What is told mentions only symbols that are known or that a repair covered, and what arrived is
      known unless the window had passed it. */
  ghost predicate Founded(started: bool, at: int, f: Fates, told: seq<Equation>, arrivals: seq<Arrival>, n: nat)
    requires n <= |arrivals|
  {
    && (forall q :: Mentions(told, q) ==> q in f.known || Covered(arrivals, n, q))
    && (forall q :: Met(arrivals, n, q) ==> started && (q in f.known || q < at))
  }

  lemma {:induction false} RepairMentions(at: int, rid: uint32, p: int, m: nat, q: int)
    requires at <= p && p + m <= at + WIDTH && at <= q < at + WIDTH && RepairRow(rid, p, m)[q % WIDTH] != ZERO
    ensures p <= q < p + m
  {
    hide WindowCoefficient;
    if m > 0 && (p + m - 1) % WIDTH != q % WIDTH { RepairMentions(at, rid, p, m - 1, q); }
    if m > 0 && (p + m - 1) % WIDTH == q % WIDTH { SameSlot(at, p + m - 1, q); }
  }

  lemma SameSlot(at: int, p: int, q: int)
    requires at <= p < at + WIDTH && at <= q < at + WIDTH && p % WIDTH == q % WIDTH
    ensures p == q
  {
    SlotOfPlace(at, p); SlotOfPlace(at, q);
  }

  lemma EquationMentions(at: int, a: Arrival, q: int)
    requires !Ignored(a) && at <= a.p && Newest(a) < at + WIDTH && MentionsIn(EquationAt(at, a), q)
    ensures if a.Symbol? then q == a.p else Covers(a, q)
  {
    hide RepairRow;
    match a {
      case Symbol(p, _) => SameSlot(at, p, q);
      case Combined(p, r) => RepairMentions(at, r.rid, p, r.count, q);
    }
  }

  lemma FoundedNext(w: Window, arrivals: seq<Arrival>, n: nat, f: Fates, told: seq<Equation>, f': Fates,
                    told': seq<Equation>)
    requires n < |arrivals| && More(f, f') && Founded(w.started, w.at, f, told, arrivals, n)
    requires var a, w' := arrivals[n], Moved(w, arrivals[n]);
             && (told' == told || (Counts(w, a) && told' == told + [EquationAt(w'.at, a)]))
             && (a.Symbol? && w'.at <= a.p ==> a.p in f'.known)
    ensures var w' := Moved(w, arrivals[n]); Founded(w'.started, w'.at, f', told', arrivals, n + 1)
  {
    var a, w' := arrivals[n], Moved(w, arrivals[n]);
    Forward(w, a);
    forall q | Mentions(told', q) ensures q in f'.known || Covered(arrivals, n + 1, q) {
      hide EquationAt, Moved, Ignored, Newest;
      var i :| 0 <= i < |told'| && MentionsIn(told'[i], q);
      if i < |told| {
        assert MentionsIn(told[i], q) && Mentions(told, q);
      } else {
        NewestInside(w, a);
        EquationMentions(w'.at, a, q);
        assert Covers(arrivals[n], q) ==> Covered(arrivals, n + 1, q);
      }
    }
    var m := n + 1;
    forall q | Met(arrivals, m, q) ensures w'.started && (q in f'.known || q < w'.at) {
      hide EquationAt, Mentions;
      var i :| 0 <= i < n + 1 && arrivals[i].Symbol? && arrivals[i].p == q;
      assert i < n ==> Met(arrivals, n, q);
    }
  }

  lemma NewestInside(w: Window, a: Arrival)
    requires Counts(w, a)
    ensures Newest(a) < Moved(w, a).at + WIDTH && Moved(w, a).started
  {}

  // ---------------------------------------------------------------- the equations of a run

  /** The equations of the first n arrivals that counted. */
  ghost function Equations(arrivals: seq<Arrival>, n: nat): seq<Equation>
    requires n <= |arrivals|
  {
    if n == 0 then []
    else
      var w, a, rest := Stands(FRESH, arrivals, n - 1), arrivals[n - 1], Equations(arrivals, n - 1);
      if Counts(w, a) then rest + [EquationAt(Moved(w, a).at, a)] else rest
  }

  /** The same assignments satisfy both. */
  ghost predicate Equivalent(told: seq<Equation>, eqs: seq<Equation>) {
    forall a: Assignment, j: nat :: Satisfies(a, told, j) <==> Satisfies(a, eqs, j)
  }

  lemma SatisfiesMore(a: Assignment, told: seq<Equation>, e: Equation, j: nat)
    ensures Satisfies(a, told + [e], j) <==> Satisfies(a, told, j) && RowHolds(e.coef, e.data, Column(a, e.at), j)
  {
    hide RowHolds, Column;
    assert (told + [e])[|told|] == e;
    assert forall i :: 0 <= i < |told| ==> (told + [e])[i] == told[i];
  }

  lemma EquivalentMore(told: seq<Equation>, eqs: seq<Equation>, e: Equation)
    requires Equivalent(told, eqs)
    ensures Equivalent(told + [e], eqs + [e])
  {
    hide Satisfies, RowHolds, Column;
    forall a: Assignment, j: nat ensures Satisfies(a, told + [e], j) <==> Satisfies(a, eqs + [e], j) {
      SatisfiesMore(a, told, e, j); SatisfiesMore(a, eqs, e, j);
    }
  }

  /** A symbol known already says nothing more when it arrives. */
  lemma KnownAgain(d: WindowDecoder, p: int, v: seq<byte>, eqs: seq<Equation>)
    requires d.Valid() && Exactly(d) && d.started && d.at <= p < d.at + WIDTH && p in d.fates.known
    requires SameSymbol(v, d.stream(p)) && Equivalent(d.told, eqs)
    ensures Equivalent(d.told, eqs + [Equation(d.at, UnitLine(p % WIDTH), v)])
  {
    var e, told := Equation(d.at, UnitLine(p % WIDTH), v), d.told;
    KnownWhenLive(d.at, d.slots, d.fates, p);
    HeldIsOriginal(d, p);
    GoodExact(d);
    hide WindowDecoder.Valid, Exactly, Satisfies, RowHolds, Column, Exact, At;
    forall a: Assignment, j: nat ensures Satisfies(a, told, j) <==> Satisfies(a, eqs + [e], j) {
      SatisfiesMore(a, eqs, e, j);
      if Satisfies(a, told, j) {
        Determinacy.KnownIsDetermined(d.at, d.slots, d.rows, told, p, a, j);
        SingleRowHolds(e.coef, v, p % WIDTH, Column(a, d.at), j);
        ColumnAt(a, d.at, p);
        assert At(d.slots[p % WIDTH].vector, j) == At(d.stream(p), j) == At(v, j);
      }
    }
  }

  lemma GoodExact(d: WindowDecoder)
    requires d.Valid() && Exactly(d) && d.started
    ensures |d.slots| == WIDTH && Exact(d.at, d.slots, d.rows, d.told)
  {}

  lemma EquivalentDetermined(told: seq<Equation>, eqs: seq<Equation>, p: int)
    requires Equivalent(told, eqs)
    ensures Determinacy.Determined(told, p) <==> Determinacy.Determined(eqs, p)
  {
    hide Satisfies;
  }

  // ---------------------------------------------------------------- runs

  /** Before an arrival: it hits no pivot. */
  lemma BeforeClear(d: WindowDecoder, arrivals: seq<Arrival>, n: nat)
    requires n < |arrivals| && d.Valid() && Exactly(d) && Timely(arrivals)
    requires Founded(d.started, d.at, d.fates, d.told, arrivals, n)
    requires arrivals[n].Symbol? && d.started ==> Near(arrivals[n].p, d.at)
    ensures Clear(d, arrivals[n])
  {
    var a := arrivals[n];
    if a.Symbol? {
      hide WindowDecoder.Valid, Exactly, Mentions, Covered, Met, Wrap, Near;
      assert Covered(arrivals, n, a.p) ==> Met(arrivals, n, a.p);
      NoPivotHit(d, a.p);
    }
  }

  /** And if its symbol is known already it adds nothing. */
  lemma BeforeKnown(d: WindowDecoder, w: Window, a: Arrival, eqs: seq<Equation>)
    requires d.Valid() && Exactly(d) && StandsAt(d, w) && Genuine(a, d.stream) && Equivalent(d.told, eqs)
    requires a.Symbol? && a.p in d.fates.known && Counts(w, a)
    ensures Equivalent(d.told, eqs + [EquationAt(Moved(w, a).at, a)])
  {
    KnownBelowTop(d, a.p);
    hide WindowDecoder.Valid, Exactly, Equivalent, SameSymbol, UnitLine;
    KnownAgain(d, a.p, a.vector, eqs);
  }

  lemma KnownBelowTop(d: WindowDecoder, p: int)
    requires d.Valid() && p in d.fates.known
    ensures d.started && p < d.at + WIDTH
  {
    hide WindowDecoder.Good;
  }

  /** In a run in which no symbol first arrives after a repair that covers it, from the first arrival
      on and in whatever order otherwise: every symbol reported recovered is the stream's own, and at
      the end a symbol of the window is known exactly when the arrivals that counted determine it. */
  method SoundRun(d: WindowDecoder, arrivals: seq<Arrival>) returns (outs: seq<Delivery>)
    requires d.Valid() && d.Good() && !d.started
    requires AllInReach(FRESH, arrivals) && AllGenuine(arrivals, d.stream) && Timely(arrivals)
    modifies d
    ensures d.Valid() && Exactly(d) && StandsAt(d, Stands(FRESH, arrivals, |arrivals|)) && |outs| == |arrivals|
    ensures Told(Joined(outs), NoFates, d.fates) && Original(d.fates, Joined(outs), 0, d.stream)
    ensures d.started ==> forall p :: d.at <= p < d.at + WIDTH ==>
      (p in d.fates.known <==> Determinacy.Determined(Equations(arrivals, |arrivals|), p))
  {
    hide Wrap, OneFate, Logged, Placed, More, Told, Stands, Moved, InReach, StandsAt, Genuine, Original, Joined, Then;
    hide HoldsTrue, Exactly, Clear, Founded, Timely, Equivalent, EquationAt, Counts, WindowDecoder.Valid;
    hide WindowDecoder.Good;
    outs := [];
    StartSound(d, arrivals);
    NoneJoined(); NoneOriginal(d.fates, Nothing, 0, d.stream); ToldNone(d.fates); StandsFirst(FRESH, arrivals);
    var n := 0;
    while n < |arrivals|
      invariant 0 <= n <= |arrivals| && |outs| == n
      invariant d.Valid() && Exactly(d) && StandsAt(d, Stands(FRESH, arrivals, n))
      invariant Founded(d.started, d.at, d.fates, d.told, arrivals, n)
      invariant Told(Joined(outs), NoFates, d.fates) && Original(d.fates, Joined(outs), 0, d.stream)
      invariant |d.fates.recovered| == |Joined(outs).recovered|
      invariant Equivalent(d.told, Equations(arrivals, n))
    {
      ghost var w, f, told := Stands(FRESH, arrivals, n), d.fates, d.told;
      StandsNext(FRESH, arrivals, n);
      assert arrivals[n] in arrivals;
      AtStand(d, w);
      NearNow(d, w, arrivals[n]);
      BeforeClear(d, arrivals, n);
      if arrivals[n].Symbol? && arrivals[n].p in d.fates.known && Counts(w, arrivals[n]) {
        BeforeKnown(d, w, arrivals[n], Equations(arrivals, n));
      }
      FoundedAlike(d.started, d.at, w, f, told, arrivals, n);
      var out := Feed(d, arrivals[n], w);
      AtStand(d, Moved(w, arrivals[n]));
      if Counts(w, arrivals[n]) { NewestInside(w, arrivals[n]); }
      After(w, arrivals, n, f, told, d.fates, d.told);
      FoundedAlike(d.started, d.at, Moved(w, arrivals[n]), d.fates, d.told, arrivals, n + 1);
      ToldMore(Joined(outs), NoFates, f, d.at, d.slots, out, d.fates);
      LoggedRecovered(d.at, d.slots, d.fates, out, |f.recovered|, |f.lost|);
      OriginalThen(Joined(outs), 0, f, out, d.fates, d.stream);
      JoinedMore(outs, out); ThenRecovered(Joined(outs), out);
      outs := outs + [out];
      n := n + 1;
    }
    if d.started { AllDetermined(d, Equations(arrivals, n)); }
  }

  lemma StartSound(d: WindowDecoder, arrivals: seq<Arrival>)
    requires d.Valid() && d.Good() && !d.started
    ensures Exactly(d) && d.fates == NoFates && StandsAt(d, FRESH)
    ensures Founded(d.started, d.at, d.fates, d.told, arrivals, 0) && Equivalent(d.told, Equations(arrivals, 0))
  {}

  lemma Forward(w: Window, a: Arrival)
    ensures w.started ==> Moved(w, a).started && w.at <= Moved(w, a).at
  {}

  lemma NearNow(d: WindowDecoder, w: Window, a: Arrival)
    requires StandsAt(d, w) && InReach(w, a)
    ensures a.Symbol? && d.started ==> Near(a.p, d.at)
  {}

  lemma AtStand(d: WindowDecoder, w: Window)
    requires StandsAt(d, w)
    ensures d.started == w.started && (w.started ==> d.at == w.at)
  {}

  lemma FoundedAlike(started: bool, at: int, w: Window, f: Fates, told: seq<Equation>, arrivals: seq<Arrival>, n: nat)
    requires n <= |arrivals| && started == w.started && (started ==> at == w.at)
    ensures Founded(started, at, f, told, arrivals, n) <==> Founded(w.started, w.at, f, told, arrivals, n)
  {
    hide Mentions, Covered, Met;
  }

  /** After an arrival what is told is again founded and equivalent to the equations that counted. */
  lemma After(w: Window, arrivals: seq<Arrival>, n: nat, f: Fates, told: seq<Equation>, f': Fates, told': seq<Equation>)
    requires n < |arrivals| && w == Stands(FRESH, arrivals, n) && More(f, f')
    requires Founded(w.started, w.at, f, told, arrivals, n)
    requires Equivalent(told, Equations(arrivals, n))
    requires var a, at := arrivals[n], Moved(w, arrivals[n]).at;
             && (a.Symbol? && at <= a.p ==> a.p in f'.known)
             && told' == (if Counts(w, a) && !(a.Symbol? && a.p in f.known) then told + [EquationAt(at, a)] else told)
             && (a.Symbol? && a.p in f.known && Counts(w, a) ==>
                 Equivalent(told, Equations(arrivals, n) + [EquationAt(at, a)]))
    ensures var w' := Moved(w, arrivals[n]); Founded(w'.started, w'.at, f', told', arrivals, n + 1)
    ensures Equivalent(told', Equations(arrivals, n + 1))
  {
    hide Equivalent, EquationAt, Moved, Mentions, Covered, Met, Founded, Stands, Counts, More;
    FoundedNext(w, arrivals, n, f, told, f', told');
    if Counts(w, arrivals[n]) {
      EquivalentMore(told, Equations(arrivals, n), EquationAt(Moved(w, arrivals[n]).at, arrivals[n]));
    }
  }

  lemma AllDetermined(d: WindowDecoder, eqs: seq<Equation>)
    requires d.Valid() && Exactly(d) && d.started && Equivalent(d.told, eqs)
    ensures forall p :: d.at <= p < d.at + WIDTH ==> (p in d.fates.known <==> Determinacy.Determined(eqs, p))
  {
    hide WindowDecoder.Valid, WindowDecoder.Good, Equivalent, Determinacy.Determined;
    forall p | d.at <= p < d.at + WIDTH ensures p in d.fates.known <==> Determinacy.Determined(eqs, p) {
      NothingMissed(d, p);
      EquivalentDetermined(d.told, eqs, p);
    }
  }
}
