/** The two ends of the sliding-window code together, and what the decoder guarantees over a whole
    run (window.go). */
module Link {
  import opened Gf256
  import opened Vectors
  import opened Ids
  import opened LinearSystem
  import opened Echelon
  import opened Knowledge
  import opened Determinacy
  import opened Coefficients
  import opened Mixing
  import opened DecoderSteps
  import opened LateArrival
  import opened Truth
  import opened Decoder
  import opened Encoder

  // ---------------------------------------------------------------- guarantees of the decoder

  /** Nothing decodable is missed: over any run that stayed good, a symbol in the window is known
      exactly when the accepted arrivals determine it. */
  lemma NothingMissed(d: WindowDecoder, p: int)
    requires d.Valid() && d.started && d.Good() && d.at <= p < d.at + WIDTH
    ensures p in d.fates.known <==> Determined(d.told, p)
  {
    hide Satisfies, Exact, Reduced, Tight, OneFate, Placed, Determined;
    KnownWhenLive(d.at, d.slots, d.fates, p);
    KnownIffDetermined(d.at, d.slots, d.rows, d.told, TruthOf(d.stream), p);
  }

  /** Every value held is the stream's own. */
  lemma HeldIsOriginal(d: WindowDecoder, p: int)
    requires d.Valid() && d.started && d.Good() && d.at <= p < d.at + WIDTH && p in d.fates.known
    ensures SameSymbol(d.slots[p % WIDTH].vector, d.stream(p))
  {
    hide Satisfies, Exact, Reduced, Tight, OneFate, Placed, At;
    KnownWhenLive(d.at, d.slots, d.fates, p);
    forall j: nat ensures At(d.slots[p % WIDTH].vector, j) == At(d.stream(p), j) {
      assert Satisfies(TruthOf(d.stream)(j), d.told, j);
      KnownIsDetermined(d.at, d.slots, d.rows, d.told, p, TruthOf(d.stream)(j), j);
    }
  }

  /** One fate for every position: over any run nothing is reported twice, nothing lost was or
      becomes known, and while the run is accounted for every position the window has passed since
      the oldest known to exist is known or was reported lost, never both. */
  lemma OneFateEach(d: WindowDecoder, p: int)
    requires d.Valid() && d.started
    ensures |d.fates.recovered| == d.recovered && |d.fates.lost| == d.lost
    ensures multiset(d.fates.recovered)[p] + multiset(d.fates.lost)[p] <= 1
    ensures p in d.fates.lost ==> p !in d.fates.known && p < d.at
    ensures p in d.fates.recovered ==> p in d.fates.known
    ensures d.accounted && d.originAt <= p < d.at ==> (p in d.fates.lost <==> p !in d.fates.known)
  {
    DistinctOnce(d.fates.recovered, p);
    DistinctOnce(d.fates.lost, p);
  }

  lemma {:induction false} DistinctOnce(s: seq<int>, p: int)
    requires forall i, m :: 0 <= i < m < |s| ==> s[i] != s[m]
    ensures multiset(s)[p] <= 1
  {
    if s != [] {
      var n := |s| - 1;
      DistinctOnce(s[..n], p);
      assert s == s[..n] + [s[n]];
      if s[n] == p { assert p !in s[..n]; }
    }
  }

  // ---------------------------------------------------------------- a reordered channel

  lemma SumOfFirstTwo()
    ensures Xor(1, 40) == 41
  {}

  /** Repair zero over two symbols, each the single byte one. */
  lemma FirstCombination(stream: int -> seq<byte>)
    requires forall p :: stream(p) == [ONE]
    ensures IsCombination(RepairSymbol(0, 0, 2, [41]), 0, TruthOf(stream))
  {
    hide Xor, Mul, WindowCoefficient;
    RowOfZero();
    SumOfFirstTwo();
    forall j: nat ensures At([41], j) == Combination(TruthOf(stream)(j), 0, 0, 2) {
      var b := if j == 0 then ONE else ZERO;
      var a := TruthOf(stream)(j);
      assert a(0) == b && a(1) == b;
      assert Combination(a, 0, 0, 1) == Xor(ZERO, Mul(1, b));
      assert Combination(a, 0, 0, 2) == Xor(Combination(a, 0, 0, 1), Mul(40, b));
      MulOne(b); MulCommutes(40, ONE); MulOne(40); MulZero(40);
      XorUnit(b); XorUnit(ZERO);
    }
  }

  lemma FirstRepairRow()
    ensures var c := RepairRow(0, 0, 2); c[0] == 1 && c[1] == 40 && OnlyPair(c, 0, 1) && Waiting(c)
  {
    hide WindowCoefficient;
    RowOfZero();
    var c := RepairRow(0, 0, 2);
    assert RepairRow(0, 0, 1) == RepairRow(0, 0, 0)[0 := 1];
    assert c == RepairRow(0, 0, 1)[1 := 40];
    assert c[0] == 1 && c[1] == 40;
  }

  lemma InverseOfOne()
    ensures Inv(ONE) == ONE
  {
    hide Mul, Inv;
    MulInverse(ONE);
    MulCommutes(Inv(ONE), ONE);
    MulOne(Inv(ONE));
  }

  /** Held alone, that repair makes symbol 0 a pivot whose late arrival fails. */
  lemma FirstRepairCorrupts(rows: seq<Row>)
    requires OneRow(2 - WIDTH, rows, RepairRow(0, 0, 2), [41])
    ensures Corrupts(rows, 0, [ONE])
  {
    hide Inv, Mul, RepairRow;
    FirstRepairRow();
    var c := RepairRow(0, 0, 2);
    var k: nat :| Leads(2 - WIDTH, c, k)
      && rows == [Row(Wrap(Place(2 - WIDTH, k)), Scale(Inv(c[k]), c), Scale(Inv(c[k]), [41]))];
    assert Age(2 - WIDTH, 0) == 510 && Age(2 - WIDTH, 1) == 511;
    assert k == 0;
    InverseOfOne();
    ScaleByOne(c); ScaleByOne([41]);
    assert rows[0] == Row(0, c, [41]);
    assert At(rows[0].data, 0) != At([ONE], 0);
    assert !SameSymbol(rows[0].data, [ONE]);
  }

  /** A reordered channel breaks soundness: repair zero over symbols 0 and 1 arrives first and symbol 0
      after it, and symbol 1 is reported as something the sender never sent. */
  method ReorderedArrivalFails() returns (d: WindowDecoder, out: Delivery)
    ensures forall p :: d.stream(p) == [ONE]
    ensures exists base: nat :: !Original(d.fates, out, base, d.stream) && |d.fates.recovered| == base + |out.recovered|
  {
    hide Original, Corrupts, Xor, Mul, Inv, WindowCoefficient, Solved, Satisfies, OneFate, Placed, IsCombination;
    hide OneRow, Waiting, RepairRow, SameSymbol, Wrap;
    d := new WindowDecoder(_ => [ONE], 0);
    FirstCombination(d.stream);
    FirstRepairRow();
    assert Wrap(0) == 0 by { WrapZero(); }
    var _ := d.Repair(RepairSymbol(0, 0, 2, [41]), 0);
    FirstRepairCorrupts(d.rows);
    ghost var base := |d.fates.recovered|;
    assert SameSymbol([ONE], d.stream(0)) by { SameAsItself([ONE]); }
    out := d.Source(0, [ONE], 0);
    assert !Original(d.fates, out, base, d.stream);
  }

  lemma WrapZero() ensures Wrap(0) == 0 {}

  lemma SameAsItself(v: seq<byte>) ensures SameSymbol(v, v) {}

  // ---------------------------------------------------------------- an order-preserving channel

  /** Combinations depend only on the symbols they cover. */
  lemma {:induction false} CombinationAgrees(a: Assignment, b: Assignment, rid: uint32, p: int, n: nat)
    requires forall q :: p <= q < p + n ==> a(q) == b(q)
    ensures Combination(a, rid, p, n) == Combination(b, rid, p, n)
  {
    hide Xor, Mul, WindowCoefficient;
    if n > 0 { CombinationAgrees(a, b, rid, p, n - 1); }
  }

  lemma RepairAgrees(r: RepairSymbol, p: int, sent: seq<seq<byte>>, stream: int -> seq<byte>)
    requires IsCombination(r, p, TruthOf(StreamOf(sent))) && 0 <= p && p + r.count <= |sent|
    requires forall q :: 0 <= q < |sent| ==> stream(q) == sent[q]
    ensures IsCombination(r, p, TruthOf(stream))
  {
    hide Combination, At;
    forall j: nat ensures At(r.vector, j) == Combination(TruthOf(stream)(j), r.rid, p, r.count) {
      CombinationAgrees(TruthOf(StreamOf(sent))(j), TruthOf(stream)(j), r.rid, p, r.count);
    }
  }

  /** A symbol newer than the window is no row's pivot. */
  lemma NewerIsNoPivot(d: WindowDecoder, p: int)
    requires d.Valid() && d.Good() && (d.started ==> d.at + WIDTH <= p < d.at + HALF)
    ensures forall r :: r in d.rows ==> r.pivot != Wrap(p)
  {
    hide Satisfies, Exact, Tight, OneFate, Placed, Wrap, Place, Leads;
    forall r | r in d.rows ensures r.pivot != Wrap(p) {
      var i :| 0 <= i < |d.rows| && d.rows[i] == r;
      assert Shaped(d.at, d.slots, d.rows[i]);
      PlaceOfSlot(d.at, Index(r.pivot));
      if r.pivot == Wrap(p) { WrapInjective(p, Place(d.at, Index(r.pivot))); }
    }
  }

  lemma NoPivotNoCorruption(rows: seq<Row>, esi: uint32, v: seq<byte>)
    requires forall r :: r in rows ==> r.pivot != esi
    ensures !Corrupts(rows, esi, v)
  {
    hide SameSymbol, Index;
    forall i | 0 <= i < |rows| ensures rows[i].pivot != esi { assert rows[i] in rows; }
  }

  /** The longest is as long as one of them. */
  lemma {:induction false} LongestAttained(sent: seq<seq<byte>>, n: nat) returns (q: nat)
    requires 0 < n <= |sent|
    ensures |sent| - n <= q < |sent| && Longest(sent, n) == |sent[q]|
  {
    q := |sent| - 1;
    if n > 1 && |sent[q]| <= Longest(sent[..q], n - 1) { q := LongestAttained(sent[..q], n - 1); }
  }

  lemma {:induction false} LongestCovers(sent: seq<seq<byte>>, n: nat)
    requires n <= |sent|
    ensures forall q :: |sent| - n <= q < |sent| ==> |sent[q]| <= Longest(sent, n)
  {
    if n > 0 {
      var rest := sent[..|sent| - 1];
      LongestCovers(rest, n - 1);
      forall q | |sent| - n <= q < |sent| ensures |sent[q]| <= Longest(sent, n) {
        if q < |rest| { assert rest[q] == sent[q]; }
      }
    }
  }

  /** A recovered symbol is the stream's at position p, whole, with nothing but zeros behind it. */
  ghost predicate Whole(r: RecoveredSymbol, stream: int -> seq<byte>, p: int) {
    r.esi == Wrap(p) && stream(p) <= r.vector && forall j :: |stream(p)| <= j < |r.vector| ==> r.vector[j] == ZERO
  }

  /** Each recovered symbol is the stream's at the position beside it, one of the first n. */
  ghost predicate AllWhole(rs: seq<RecoveredSymbol>, ps: seq<int>, stream: int -> seq<byte>, n: nat) {
    |rs| == |ps| && forall i :: 0 <= i < |rs| ==> 0 <= ps[i] < n && Whole(rs[i], stream, ps[i])
  }

  /** What a sound decoder with room reports are whole symbols of the stream. */
  lemma ReportsWhole(d: WindowDecoder, out: Delivery, base: nat, lostBase: nat, n: nat)
    requires d.Valid() && d.Room() && d.since == 0 && d.at + WIDTH <= n
    requires Logged(d.at, d.slots, d.fates, out, base, lostBase) && Original(d.fates, out, base, d.stream)
    ensures base <= |d.fates.recovered| && AllWhole(out.recovered, d.fates.recovered[base..], d.stream, n)
  {
    hide Wrap, Roomy, Logged, Original, WindowDecoder.Valid;
    LoggedRecovered(d.at, d.slots, d.fates, out, base, lostBase);
    var ps := d.fates.recovered[base..];
    forall i | 0 <= i < |out.recovered| ensures 0 <= ps[i] < n && Whole(out.recovered[i], d.stream, ps[i]) {
      assert |d.slots| == WIDTH by { SlotsWide(d); }
      ReportedWhole(d.at, d.slots, d.rows, d.fates, out, base, lostBase, d.stream, 0, i);
    }
  }

  lemma SlotsWide(d: WindowDecoder)
    requires d.Valid()
    ensures |d.slots| == WIDTH
  {}

  /** The equation a symbol at position p is accepted as. */
  ghost function SymbolEquation(p: int, v: seq<byte>): Equation {
    Equation(p + 1 - WIDTH, UnitLine(p % WIDTH), v)
  }

  ghost function CombinedAt(sent: seq<seq<byte>>, rid: uint32, m: nat, j: nat): (b: byte)
    requires m <= |sent|
  {
    Combination(TruthOf(StreamOf(sent))(j), rid, |sent| - m, m)
  }

  /** The newest m symbols sent, combined byte by byte with a repair's coefficients. */
  ghost function Combined(sent: seq<seq<byte>>, rid: uint32, m: nat): seq<byte>
    requires m <= |sent|
  {
    seq(Longest(sent, m), j requires 0 <= j < Longest(sent, m) => CombinedAt(sent, rid, m, j))
  }

  /** The equation a repair over the newest m symbols sent is accepted as. */
  ghost function RepairEquation(sent: seq<seq<byte>>, rid: uint32, m: nat): Equation
    requires m <= |sent|
  {
    Equation(|sent| - WIDTH, RepairRow(rid, |sent| - m, m), Combined(sent, rid, m))
  }

  /** How many symbols a repair asked to cover count of those held does cover. */
  function Span(held: nat, count: int): (m: nat)
    ensures m <= held
  {
    if 0 < count <= held then count else held
  }

  lemma RepairEquationIs(sent: seq<seq<byte>>, rid: uint32, m: nat)
    requires m <= |sent|
    ensures RepairEquation(sent, rid, m) ==
      Equation(|sent| - WIDTH, RepairRow(rid, |sent| - m, m), Combined(sent, rid, m))
  {}

  lemma NothingCombined(sent: seq<seq<byte>>)
    ensures Longest(sent, 0) == 0
  {}

  /** The encoder's repair carries just that combination. */
  lemma RepairIsCombined(r: RepairSymbol, sent: seq<seq<byte>>, m: nat)
    requires r.count == m <= |sent| && |r.vector| == Longest(sent, m)
    requires IsCombination(r, |sent| - m, TruthOf(StreamOf(sent)))
    ensures r.vector == Combined(sent, r.rid, m)
  {
    hide Combination, Longest;
    forall j | 0 <= j < |r.vector| ensures r.vector[j] == Combined(sent, r.rid, m)[j] {
      assert At(r.vector, j) == Combination(TruthOf(StreamOf(sent))(j), r.rid, |sent| - m, m);
    }
  }

  /** An encoder and a decoder joined by a channel that may erase but not reorder: what it delivers,
      it delivers in the order it was sent. */
  class Channel {
    const encoder: WindowEncoder
    const decoder: WindowDecoder

    /** Both ends are sound, the stream is what has been sent, and the receiver is not ahead. */
    ghost predicate Valid()
      reads this, encoder, decoder
    {
      && encoder.Valid() && decoder.Valid() && decoder.Good() && decoder.Room() && decoder.since == 0
      && (forall p :: 0 <= p < |encoder.sent| ==> decoder.stream(p) == encoder.sent[p])
      && (decoder.started ==> decoder.at + WIDTH <= |encoder.sent| && 0 <= decoder.originAt)
    }

    /** The receiver has heard something within the last half of the identifiers. */
    ghost predicate InTouch()
      reads this, encoder, decoder
    {
      decoder.started ==> |encoder.sent| - decoder.at < HALF
    }

    constructor (capacity: int, ghost stream: int -> seq<byte>)
      ensures Valid() && InTouch() && fresh(encoder) && fresh(decoder)
      ensures decoder.stream == stream && encoder.sent == [] && !decoder.started && decoder.fates == NoFates
      ensures decoder.told == [] && encoder.held == 0 && |encoder.ring| == RingFor(capacity)
    {
      var e := new WindowEncoder(capacity);
      var d := new WindowDecoder(stream, 0);
      encoder, decoder := e, d;
    }

    /** The sender's next symbol, erased or delivered. */
    method Send(vector: seq<byte>, arrives: bool) returns (out: Delivery)
      requires Valid() && InTouch() && vector == decoder.stream(|encoder.sent|)
      modifies encoder, decoder
      ensures Valid() && encoder.sent == old(encoder.sent) + [vector]
      ensures |encoder.ring| == |old(encoder.ring)|
      ensures encoder.held == if old(encoder.held) < |encoder.ring| then old(encoder.held) + 1 else |encoder.ring|
      ensures decoder.told ==
        if arrives then old(decoder.told) + [SymbolEquation(|old(encoder.sent)|, vector)] else old(decoder.told)
      ensures Honest(old(decoder.fates), out, if arrives then {|old(encoder.sent)|} else {})
      ensures arrives ==>
        |old(encoder.sent)| !in old(decoder.fates.known) && |old(encoder.sent)| !in decoder.fates.recovered
      ensures arrives ==>
        |old(encoder.sent)| in decoder.fates.known && decoder.started && decoder.at + WIDTH == |encoder.sent|
      ensures !arrives ==> unchanged(decoder) && out == Nothing
    {
      hide Wrap, Solved, Satisfies, OneFate, Logged, Placed, Original, Corrupts, SameSymbol, RingSize, Gains, AllWhole;
      hide Truthful, Roomy, TakesRightly, Recorded, AllWaiting, SubstituteRows;
      ghost var p := |encoder.sent|;
      NewUnknown(); GainsSame(decoder.fates); EmptyLog(decoder.at, decoder.slots, decoder.fates);
      NoneOriginal(decoder.fates, Nothing, |decoder.fates.recovered|, decoder.stream);
      NewerIsNoPivot(decoder, p);
      NoPivotNoCorruption(decoder.rows, Wrap(p), vector);
      SameAsItself(vector);
      var esi := encoder.Add(vector);
      out := Nothing;
      NoneWhole(decoder.stream, |encoder.sent|);
      if arrives {
        ghost var base, lostBase := |decoder.fates.recovered|, |decoder.fates.lost|;
        out := decoder.Source(esi, vector, p);
        ReportsWhole(decoder, out, base, lostBase, |encoder.sent|);
      }
    }

    /** What a call reported: it extends what was reported, is the sender's own, whole and of positions
        that were sent; and nothing became known but that and the positions named. */
    ghost predicate Honest(before: Fates, out: Delivery, also: set<int>)
      reads encoder, decoder
    {
      && Gains(before, decoder.fates, also)
      && Logged(decoder.at, decoder.slots, decoder.fates, out, |before.recovered|, |before.lost|)
      && Original(decoder.fates, out, |before.recovered|, decoder.stream)
      && AllWhole(out.recovered, decoder.fates.recovered[|before.recovered|..], decoder.stream, |encoder.sent|)
      && (|encoder.sent| < HALF ==> LostFrom(before.lost, decoder.fates.lost, 0))
    }

    /** A new symbol is not yet known. */
    lemma NewUnknown()
      requires Valid()
      ensures |encoder.sent| !in decoder.fates.known
    {
      hide WindowDecoder.Good, Solved, Satisfies, Placed;
    }

    lemma NoneWhole(stream: int -> seq<byte>, n: nat)
      ensures AllWhole([], [], stream, n) && decoder.fates.recovered[|decoder.fates.recovered|..] == []
    {}

    /** A repair over what the sender holds, erased or delivered. */
    method Protect(rid: uint32, count: int, arrives: bool) returns (out: Delivery)
      requires Valid() && InTouch()
      modifies decoder
      ensures Valid() && InTouch()
      ensures Honest(old(decoder.fates), out, {})
      ensures !arrives ==> unchanged(decoder) && out == Nothing
      ensures var m := Span(encoder.held, count);
              m <= |encoder.sent|
              && if arrives && Longest(encoder.sent, m) > 0
                 then decoder.told == old(decoder.told) + [RepairEquation(encoder.sent, rid, m)]
                      && decoder.started && decoder.at + WIDTH == |encoder.sent|
                 else decoder.told == old(decoder.told) && decoder.fates == old(decoder.fates)
                      && decoder.started == old(decoder.started) && decoder.at == old(decoder.at)
    {
      hide Combined, RepairEquation;
      hide Wrap, Solved, Satisfies, OneFate, Logged, Placed, Original, IsCombination, Longest, RingSize, RepairRow;
      hide OneRow, Waiting, Gains, AllWhole;
      hide Truthful, Roomy;
      GainsSame(decoder.fates); EmptyLog(decoder.at, decoder.slots, decoder.fates);
      NoneOriginal(decoder.fates, Nothing, |decoder.fates.recovered|, decoder.stream);
      NoneWhole(decoder.stream, |encoder.sent|);
      out := Nothing;
      RingBounds(|encoder.ring|);
      NothingCombined(encoder.sent);
      var ok, r := encoder.Repair(rid, count);
      if ok && arrives {
        ghost var p := |encoder.sent| - r.count;
        ghost var base, lostBase := |decoder.fates.recovered|, |decoder.fates.lost|;
        RepairAgrees(r, p, encoder.sent, decoder.stream);
        LongestCovers(encoder.sent, r.count);
        RepairIsCombined(r, encoder.sent, r.count);
        RepairEquationIs(encoder.sent, rid, r.count);
        out := decoder.Repair(r, p);
        assert decoder.started ==> decoder.at + WIDTH <= |encoder.sent|;
        if decoder.started { ReportsWhole(decoder, out, base, lostBase, |encoder.sent|); }
      }
    }

    /** The sender changes how far back its repairs may reach, or drops what it holds. */
    method Resize(capacity: int, drop: bool)
      requires Valid()
      modifies encoder
      ensures Valid() && encoder.sent == old(encoder.sent) && (InTouch() <==> old(InTouch()))
      ensures drop ==> encoder.held == 0 && |encoder.ring| == |old(encoder.ring)|
      ensures !drop ==> |encoder.ring| == RingFor(capacity)
      ensures !drop ==> encoder.held == if |encoder.ring| < old(encoder.held) then |encoder.ring| else old(encoder.held)
    {
      hide Wrap, Solved, Satisfies, OneFate, Placed, RingSize;
      if drop { encoder.Reset(); } else { encoder.SetCapacity(capacity); }
      assert encoder.Valid(); assert decoder.Valid(); assert decoder.Good(); assert encoder.sent == old(encoder.sent);
    }
  }
}
