/** Whole runs of the sliding-window decoder (window.go): what becomes of every position, whatever
    arrives in whatever order. */
module DecoderRuns {
  import opened Gf256
  import opened Vectors
  import opened Ids
  import opened LinearSystem
  import opened Echelon
  import opened Knowledge
  import opened Determinacy
  import opened Coefficients
  import opened DecoderSteps
  import opened LateArrival
  import opened Decoder
  import opened Truth
  import opened Reports
  import opened Link

  /** A source symbol, or a repair, sent at or from position p. */
  datatype Arrival = Symbol(p: int, vector: seq<byte>) | Combined(p: int, repair: RepairSymbol)

  /** A repair that is empty or wider than the protocol allows. */
  predicate Ignored(a: Arrival) {
    a.Combined? && (a.repair.count <= 0 || a.repair.vector == [] || a.repair.count > MAX_REPAIR_WINDOW)
  }

  /** The newest position an arrival names. */
  function Newest(a: Arrival): int {
    match a case Symbol(p, _) => p case Combined(p, r) => p + r.count - 1
  }

  /** Where the window stands, since when positions are accounted for, and whether they are. */
  datatype Window = Window(started: bool, at: int, originAt: int, accounted: bool)

  const FRESH := Window(false, 0, 0, true)

  function Moved(w: Window, a: Arrival): Window {
    if Ignored(a) then w
    else
      var at := WindowAfter(w.started, w.at, Newest(a));
      Window(true, at, OriginAfter(w.started, w.originAt, at, a.p),
             !w.started || Steady(w.accounted, w.at, w.originAt, at))
  }

  /** Where the window stands after the first n arrivals. */
  function Stands(w: Window, arrivals: seq<Arrival>, n: nat): Window
    requires n <= |arrivals|
  {
    if n == 0 then w else Moved(Stands(w, arrivals, n - 1), arrivals[n - 1])
  }

  /** The arrival names positions by their wrapped identifiers, and near enough to the window for
      those to tell them apart. */
  ghost predicate InReach(w: Window, a: Arrival) {
    && (a.Combined? ==> a.repair.first == Wrap(a.p))
    && (w.started && !Ignored(a) ==> Near(Newest(a), w.at))
  }

  ghost predicate AllInReach(w: Window, arrivals: seq<Arrival>) {
    forall n :: 0 <= n < |arrivals| ==> InReach(Stands(w, arrivals, n), arrivals[n])
  }

  /** Positions that span less than half the identifiers, with a window to spare, are in reach in
      whatever order they arrive. */
  lemma SpanInReach(arrivals: seq<Arrival>, low: int)
    requires forall a :: a in arrivals && a.Combined? ==> a.repair.first == Wrap(a.p)
    requires forall a :: a in arrivals && !Ignored(a) ==> low <= a.p <= Newest(a) < low + HALF - WIDTH
    ensures AllInReach(FRESH, arrivals)
  {
    forall n | 0 <= n < |arrivals| ensures InReach(Stands(FRESH, arrivals, n), arrivals[n]) {
      hide Wrap, Moved;
      assert arrivals[n] in arrivals;
      StandsWithin(arrivals, low, n);
    }
  }

  lemma {:induction false} StandsWithin(arrivals: seq<Arrival>, low: int, n: nat)
    requires n <= |arrivals|
    requires forall a :: a in arrivals && !Ignored(a) ==> low <= a.p <= Newest(a) < low + HALF - WIDTH
    ensures var w := Stands(FRESH, arrivals, n);
            w.started ==> low - WIDTH < w.at <= low + HALF - 2 * WIDTH && low <= w.originAt < w.at + WIDTH
  {
    if n > 0 {
      StandsWithin(arrivals, low, n - 1);
      assert arrivals[n - 1] in arrivals;
    }
  }

  /** What arrives is what the stream's symbols make it. */
  ghost predicate Genuine(a: Arrival, stream: int -> seq<byte>) {
    match a
    case Symbol(p, vector) => SameSymbol(vector, stream(p))
    case Combined(p, r) => IsCombination(r, p, TruthOf(stream))
  }

  ghost predicate AllGenuine(arrivals: seq<Arrival>, stream: int -> seq<byte>) {
    forall a :: a in arrivals ==> Genuine(a, stream)
  }

  /** The decoder stands where the arrivals have put it. */
  ghost predicate StandsAt(d: WindowDecoder, w: Window)
    reads d
  {
    && d.started == w.started
    && (w.started ==> d.at == w.at && d.accounted == w.accounted && (w.accounted ==> d.originAt == w.originAt))
  }

  /** The equation an arrival is, with the window starting at a position. */
  ghost function EquationAt(at: int, a: Arrival): Equation {
    match a
    case Symbol(p, vector) => Equation(at, UnitLine(p % WIDTH), vector)
    case Combined(p, r) => Equation(at, if r.count < 0 then UnitLine(0) else RepairRow(r.rid, p, r.count), r.vector)
  }

  /** An arrival whose oldest symbol the window has already passed says nothing new. */
  predicate Counts(w: Window, a: Arrival) {
    !Ignored(a) && Moved(w, a).at <= a.p
  }

  /** Everything accepted is true of the stream, and held exactly in reduced form. */
  ghost predicate Exactly(d: WindowDecoder)
    reads d
  {
    |d.slots| == WIDTH && d.Good()
  }

  /** The symbol that arrives is no held row's pivot. */
  ghost predicate Clear(d: WindowDecoder, a: Arrival)
    reads d
  {
    a.Symbol? ==> forall r :: r in d.rows ==> r.pivot != Wrap(a.p)
  }

  /** All that is held is true of the stream. */
  ghost predicate HoldsTrue(d: WindowDecoder)
    reads d
  {
    |d.slots| == WIDTH && d.True()
  }

  /** What is newly reported lost lies no lower than the oldest position known to exist before. */
  ghost predicate LostAbove(w: Window, lost: seq<int>, lost': seq<int>) {
    if w.started then LostFrom(lost, lost', w.originAt) else lost' == []
  }

  method FeedSymbol(d: WindowDecoder, p: int, vector: seq<byte>, ghost w: Window) returns (out: Delivery)
    requires d.Valid() && StandsAt(d, w) && InReach(w, Symbol(p, vector))
    modifies d
    ensures d.Valid() && StandsAt(d, Moved(w, Symbol(p, vector))) && More(old(d.fates), d.fates)
    ensures Moved(w, Symbol(p, vector)).accounted ==> LostAbove(w, old(d.fates.lost), d.fates.lost)
    ensures Logged(d.at, d.slots, d.fates, out, |old(d.fates.recovered)|, |old(d.fates.lost)|)
    ensures d.at <= p ==> p in d.fates.known
    ensures SameSymbol(vector, d.stream(p)) ==>
      && (old(HoldsTrue(d)) && Original(d.fates, out, |old(d.fates.recovered)|, d.stream) ==> HoldsTrue(d))
      && (old(Exactly(d) && Clear(d, Symbol(p, vector))) ==>
            Exactly(d) && Original(d.fates, out, |old(d.fates.recovered)|, d.stream))
    ensures d.told ==
      if d.at <= p && p !in old(d.fates.known) then old(d.told) + [Equation(d.at, UnitLine(p % WIDTH), vector)]
      else old(d.told)
  {
    if Clear(d, Symbol(p, vector)) { NoPivotNoCorruption(d.rows, Wrap(p), vector); }
    hide WindowDecoder.Good;
    hide Wrap, OneFate, Logged, Placed, More, Solved, Satisfies, Original, Corrupts, SameSymbol, Truthful, Roomy;
    hide TakesRightly, Reaches, Recorded, AllWaiting, SubstituteRows;
    out := d.Source(Wrap(p), vector, p);
  }

  method FeedRepair(d: WindowDecoder, p: int, r: RepairSymbol, ghost w: Window) returns (out: Delivery)
    requires d.Valid() && StandsAt(d, w) && InReach(w, Combined(p, r))
    modifies d
    ensures d.Valid() && StandsAt(d, Moved(w, Combined(p, r))) && More(old(d.fates), d.fates)
    ensures Moved(w, Combined(p, r)).accounted ==> LostAbove(w, old(d.fates.lost), d.fates.lost)
    ensures Logged(d.at, d.slots, d.fates, out, |old(d.fates.recovered)|, |old(d.fates.lost)|)
    ensures IsCombination(r, p, TruthOf(d.stream)) ==>
      && (old(HoldsTrue(d)) && Original(d.fates, out, |old(d.fates.recovered)|, d.stream) ==> HoldsTrue(d))
      && (old(Exactly(d)) ==> Exactly(d) && Original(d.fates, out, |old(d.fates.recovered)|, d.stream))
    ensures d.told == if Counts(w, Combined(p, r)) then old(d.told) + [EquationAt(d.at, Combined(p, r))]
                      else old(d.told)
  {
    hide WindowDecoder.Good;
    hide Wrap, OneFate, Logged, Placed, More, Solved, Satisfies, Original, IsCombination, OneRow, Waiting, RepairRow;
    hide Truthful, Roomy, Reaches;
    out := d.Repair(r, p);
  }

  /** One arrival. */
  method Feed(d: WindowDecoder, a: Arrival, ghost w: Window) returns (out: Delivery)
    requires d.Valid() && StandsAt(d, w) && InReach(w, a)
    modifies d
    ensures d.Valid() && StandsAt(d, Moved(w, a)) && More(old(d.fates), d.fates)
    ensures Moved(w, a).accounted ==> LostAbove(w, old(d.fates.lost), d.fates.lost)
    ensures Logged(d.at, d.slots, d.fates, out, |old(d.fates.recovered)|, |old(d.fates.lost)|)
    ensures a.Symbol? && Moved(w, a).at <= a.p ==> a.p in d.fates.known
    ensures Genuine(a, d.stream) ==>
      && (old(HoldsTrue(d)) && Original(d.fates, out, |old(d.fates.recovered)|, d.stream) ==> HoldsTrue(d))
      && (old(Exactly(d) && Clear(d, a)) ==>
            Exactly(d) && Original(d.fates, out, |old(d.fates.recovered)|, d.stream))
    ensures d.told ==
      if Counts(w, a) && !(a.Symbol? && a.p in old(d.fates.known)) then old(d.told) + [EquationAt(d.at, a)]
      else old(d.told)
  {
    hide WindowDecoder.Valid, Exactly, HoldsTrue, Wrap, Logged, More, Original, SameSymbol, IsCombination, RepairRow;
    hide WindowAfter, OriginAfter, Steady, InReach, LostAbove;
    match a {
      case Symbol(p, vector) => out := FeedSymbol(d, p, vector, w);
      case Combined(p, r) => out := FeedRepair(d, p, r, w);
    }
  }

  // ---------------------------------------------------------------- what the arrivals make known to exist

  /** Some arrival still in reach of the window when it came names the position or one before it. */
  ghost predicate Witnessed(w: Window, arrivals: seq<Arrival>, n: nat, p: int)
    requires n <= |arrivals|
  {
    exists i :: 0 <= i < n && WitnessedBy(w, arrivals, i, p)
  }

  ghost predicate WitnessedBy(w: Window, arrivals: seq<Arrival>, i: nat, p: int)
    requires i < |arrivals|
  {
    !Ignored(arrivals[i]) && Stands(w, arrivals, i + 1).at <= arrivals[i].p <= p
  }

  /** The origin is the oldest position some arrival names, and none other: a position is no older than it
      exactly when it is witnessed, or was no older than the origin before. */
  lemma {:induction false} OriginIsOldest(w: Window, arrivals: seq<Arrival>, n: nat, p: int)
    requires n <= |arrivals|
    ensures var v := Stands(w, arrivals, n);
            v.started && v.originAt <= p <==> Witnessed(w, arrivals, n, p) || (w.started && w.originAt <= p)
  {
    if n > 0 {
      OriginIsOldest(w, arrivals, n - 1, p);
      var v, a := Stands(w, arrivals, n - 1), arrivals[n - 1];
      assert WitnessedBy(w, arrivals, n - 1, p) <==> !Ignored(a) && Moved(v, a).at <= a.p <= p;
      assert Witnessed(w, arrivals, n, p) <==>
        Witnessed(w, arrivals, n - 1, p) || WitnessedBy(w, arrivals, n - 1, p)
      by {
        hide WitnessedBy;
        if Witnessed(w, arrivals, n, p) { var i :| 0 <= i < n && WitnessedBy(w, arrivals, i, p); }
        if Witnessed(w, arrivals, n - 1, p) { var i :| 0 <= i < n - 1 && WitnessedBy(w, arrivals, i, p); }
      }
    }
  }

  /** No arrival so far names a newer position than the window ends with, and one names that one. */
  lemma {:induction false} TopIsNewest(w: Window, arrivals: seq<Arrival>, n: nat)
    requires n <= |arrivals| && !w.started
    ensures var v := Stands(w, arrivals, n);
            && (forall i :: 0 <= i < n && !Ignored(arrivals[i]) ==> v.started && Newest(arrivals[i]) < v.at + WIDTH)
            && (v.started ==> exists i ::
                  0 <= i < n && !Ignored(arrivals[i]) && Newest(arrivals[i]) == v.at + WIDTH - 1)
  {
    if n > 0 {
      TopIsNewest(w, arrivals, n - 1);
      var v, a := Stands(w, arrivals, n - 1), arrivals[n - 1];
      if !Ignored(a) && v.started && Newest(a) < v.at + WIDTH {
        var i :| 0 <= i < n - 1 && !Ignored(arrivals[i]) && Newest(arrivals[i]) == v.at + WIDTH - 1;
      }
    }
  }

  /** The arrival is the first, or names a position no more than a window's width newer than some before it. */
  ghost predicate NoLeap(arrivals: seq<Arrival>, n: nat)
    requires n < |arrivals|
  {
    Ignored(arrivals[n]) || (forall i :: 0 <= i < n ==> Ignored(arrivals[i]))
    || exists i :: 0 <= i < n && !Ignored(arrivals[i]) && Newest(arrivals[n]) - Newest(arrivals[i]) <= WIDTH
  }

  /** Positions that span less than half the identifiers, a window to spare, are accounted for exactly as
      long as no arrival leaps ahead. */
  lemma {:induction false} AccountedIs(arrivals: seq<Arrival>, low: int, n: nat)
    requires n <= |arrivals|
    requires forall a :: a in arrivals && !Ignored(a) ==> low <= a.p <= Newest(a) < low + HALF - WIDTH
    ensures Stands(FRESH, arrivals, n).accounted <==> forall m :: 0 <= m < n ==> NoLeap(arrivals, m)
  {
    if n > 0 {
      var v, a := Stands(FRESH, arrivals, n - 1), arrivals[n - 1];
      AccountedIs(arrivals, low, n - 1);
      StandsWithin(arrivals, low, n - 1);
      TopIsNewest(FRESH, arrivals, n - 1);
      assert a in arrivals;
      assert v.started <==> exists i :: 0 <= i < n - 1 && !Ignored(arrivals[i]);
      assert NoLeap(arrivals, n - 1) <==> Ignored(a) || !v.started || Newest(a) - (v.at + WIDTH - 1) <= WIDTH;
    }
  }

  /** One fate for every position, over any run: what was reported stays reported; nothing known is
      reported recovered, and nothing lost is or becomes known; no position is reported twice, in one
      call or in two; and while the run is accounted for, each position the window has passed since
      the oldest known to exist either became known or was reported lost. And as long as what arrives
      is the stream's and nothing else was reported, all that is held is true of the stream. */
  method Run(d: WindowDecoder, arrivals: seq<Arrival>, ghost w: Window) returns (outs: seq<Delivery>)
    requires d.Valid() && StandsAt(d, w) && AllInReach(w, arrivals)
    modifies d
    ensures d.Valid() && StandsAt(d, Stands(w, arrivals, |arrivals|)) && |outs| == |arrivals|
    ensures More(old(d.fates), d.fates) && Told(Joined(outs), old(d.fates), d.fates)
    ensures forall p :: p in d.fates.lost ==> p !in d.fates.known
    ensures forall p :: multiset(d.fates.recovered)[p] + multiset(d.fates.lost)[p] <= 1
    ensures var v := Stands(w, arrivals, |arrivals|);
            v.started && v.accounted ==> forall p ::
              v.originAt <= p < v.at ==> (p in d.fates.known <==> p !in d.fates.lost)
    ensures var v := Stands(w, arrivals, |arrivals|);
            v.accounted ==> forall p ::
              p < v.at && Witnessed(w, arrivals, |arrivals|, p) ==> (p in d.fates.known <==> p !in d.fates.lost)
    ensures var v := Stands(w, arrivals, |arrivals|);
            !w.started && v.accounted ==> forall p ::
              p in d.fates.lost <==> p < v.at && p !in d.fates.known && Witnessed(w, arrivals, |arrivals|, p)
    ensures (old(HoldsTrue(d)) && AllGenuine(arrivals, d.stream)
             && Original(d.fates, Joined(outs), |old(d.fates.recovered)|, d.stream)) ==>
      HoldsTrue(d)
  {
    hide Wrap, OneFate, Logged, Placed, More, Told, Stands, Moved, InReach, StandsAt, WindowDecoder.Valid, Genuine;
    hide HoldsTrue, Original, Truthful, Joined, Then, Witnessed, LostAbove, LostSince;
    ghost var base, true0 := |d.fates.recovered|, HoldsTrue(d) && AllGenuine(arrivals, d.stream);
    outs := [];
    NoneJoined(); NoneOriginal(d.fates, Nothing, base, d.stream);
    MoreSame(d.fates); ToldNone(d.fates); StandsFirst(w, arrivals);
    NoneLost(d, w);
    var n := 0;
    while n < |arrivals|
      invariant 0 <= n <= |arrivals| && |outs| == n
      invariant d.Valid() && StandsAt(d, Stands(w, arrivals, n))
      invariant true0 && Original(d.fates, Joined(outs), base, d.stream) ==> HoldsTrue(d)
      invariant |d.fates.recovered| == base + |Joined(outs).recovered|
      invariant More(old(d.fates), d.fates) && Told(Joined(outs), old(d.fates), d.fates)
      invariant !w.started ==> LostSince(Stands(w, arrivals, n), d.fates.lost)
    {
      StandsNext(w, arrivals, n);
      ghost var f := d.fates;
      var out := Feed(d, arrivals[n], Stands(w, arrivals, n));
      ToldMore(Joined(outs), old(d.fates), f, d.at, d.slots, out, d.fates);
      LoggedRecovered(d.at, d.slots, d.fates, out, |f.recovered|, |f.lost|);
      OriginalThen(Joined(outs), base, f, out, d.fates, d.stream);
      JoinedMore(outs, out); ThenRecovered(Joined(outs), out);
      MoreChain(old(d.fates), f, d.fates);
      LostMore(Stands(w, arrivals, n), arrivals[n], f, d.fates);
      outs := outs + [out];
      n := n + 1;
    }
    FatesApart(d, Stands(w, arrivals, n));
    FatesWitnessed(d, w, arrivals);
  }

  /** While it is accounted for, nothing was reported lost below the origin. */
  ghost predicate LostSince(w: Window, lost: seq<int>) {
    w.accounted ==> if w.started then forall p :: p in lost ==> w.originAt <= p else lost == []
  }

  lemma NoneLost(d: WindowDecoder, w: Window)
    requires d.Valid() && StandsAt(d, w)
    ensures !w.started ==> LostSince(w, d.fates.lost)
  {}

  lemma LostMore(w: Window, a: Arrival, f: Fates, f': Fates)
    requires More(f, f') && (Moved(w, a).accounted ==> LostAbove(w, f.lost, f'.lost))
    ensures LostSince(w, f.lost) ==> LostSince(Moved(w, a), f'.lost)
  {
    var lost, lost' := f.lost, f'.lost;
    if LostSince(w, lost) && Moved(w, a).accounted && w.started {
      forall p | p in lost' ensures w.originAt <= p {
        var i :| 0 <= i < |lost'| && lost'[i] == p;
        assert i < |lost| ==> lost[i] == p && p in lost;
        assert w.accounted && LostFrom(lost, lost', w.originAt);
      }
    }
  }

  lemma FatesWitnessed(d: WindowDecoder, w: Window, arrivals: seq<Arrival>)
    requires d.Valid() && StandsAt(d, Stands(w, arrivals, |arrivals|))
    requires !w.started ==> LostSince(Stands(w, arrivals, |arrivals|), d.fates.lost)
    ensures var v := Stands(w, arrivals, |arrivals|);
            v.accounted ==> forall p ::
              p < v.at && Witnessed(w, arrivals, |arrivals|, p) ==> (p in d.fates.known <==> p !in d.fates.lost)
    ensures var v := Stands(w, arrivals, |arrivals|);
            !w.started && v.accounted ==> forall p ::
              p in d.fates.lost <==> p < v.at && p !in d.fates.known && Witnessed(w, arrivals, |arrivals|, p)
  {
    var v := Stands(w, arrivals, |arrivals|);
    if v.accounted {
      hide WindowDecoder.Valid, Witnessed, Stands;
      forall p
        ensures p < v.at && Witnessed(w, arrivals, |arrivals|, p) ==> (p in d.fates.known <==> p !in d.fates.lost)
        ensures !w.started ==>
          (p in d.fates.lost <==> p < v.at && p !in d.fates.known && Witnessed(w, arrivals, |arrivals|, p))
      {
        OriginIsOldest(w, arrivals, |arrivals|, p);
        if d.started { OneFateEach(d, p); }
      }
    }
  }

  lemma NoneJoined()
    ensures Joined([]) == Nothing
  {}

  lemma ThenRecovered(a: Delivery, b: Delivery)
    ensures |Then(a, b).recovered| == |a.recovered| + |b.recovered|
  {}

  lemma StandsFirst(w: Window, arrivals: seq<Arrival>)
    ensures Stands(w, arrivals, 0) == w
  {}

  lemma StandsNext(w: Window, arrivals: seq<Arrival>, n: nat)
    requires n < |arrivals|
    ensures Stands(w, arrivals, n + 1) == Moved(Stands(w, arrivals, n), arrivals[n])
  {}

  lemma FatesApart(d: WindowDecoder, w: Window)
    requires d.Valid() && StandsAt(d, w)
    ensures forall p :: p in d.fates.lost ==> p !in d.fates.known
    ensures forall p :: multiset(d.fates.recovered)[p] + multiset(d.fates.lost)[p] <= 1
    ensures w.started && w.accounted ==>
      forall p :: w.originAt <= p < w.at ==> (p in d.fates.known <==> p !in d.fates.lost)
  {
    if d.started {
      hide WindowDecoder.Valid;
      forall p
        ensures p in d.fates.lost ==> p !in d.fates.known
        ensures multiset(d.fates.recovered)[p] + multiset(d.fates.lost)[p] <= 1
        ensures w.accounted && w.originAt <= p < w.at ==> (p in d.fates.known <==> p !in d.fates.lost)
      {
        OneFateEach(d, p);
      }
    }
  }
}
