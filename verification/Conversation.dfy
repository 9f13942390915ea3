/** Whole conversations over a channel that erases but keeps order (window.go): what the receiver is
    told of what was sent. */
module Conversation {
  import opened Gf256
  import opened Vectors
  import opened Ids
  import opened LinearSystem
  import opened Echelon
  import opened Knowledge
  import opened Determinacy
  import opened Coefficients
  import opened DecoderSteps
  import opened LateArrival
  import opened Truth
  import opened Reports
  import opened Decoder
  import opened Encoder
  import opened Link

  /** What the sender does; a symbol or a repair it sends arrives or is erased. */
  datatype Action =
    | Send(vector: seq<byte>, arrives: bool)
    | Protect(rid: uint32, count: int, arrives: bool)
    | Resize(capacity: int)
    | Reset

  /** The symbols sent by the first n actions. */
  function SentBy(actions: seq<Action>, n: nat): seq<seq<byte>>
    requires n <= |actions|
  {
    if n == 0 then []
    else match actions[n - 1]
      case Send(vector, _) => SentBy(actions, n - 1) + [vector]
      case _ => SentBy(actions, n - 1)
  }

  lemma {:induction false} SentPrefix(actions: seq<Action>, n: nat, m: nat)
    requires n <= m <= |actions|
    ensures SentBy(actions, n) <= SentBy(actions, m)
  {
    if n < m { SentPrefix(actions, n, m - 1); }
  }

  // ---------------------------------------------------------------- what the receiver is told

  /** How many symbols the sender's ring can hold after the first n actions, and how many it does. */
  function RingAt(capacity: int, actions: seq<Action>, n: nat): (ring: nat)
    requires n <= |actions|
    ensures ring <= MAX_REPAIR_WINDOW
  {
    if n == 0 then RingFor(capacity)
    else match actions[n - 1]
      case Resize(c) => RingFor(c)
      case _ => RingAt(capacity, actions, n - 1)
  }

  function HeldAt(capacity: int, actions: seq<Action>, n: nat): (held: nat)
    requires n <= |actions|
    ensures held <= |SentBy(actions, n)| && held <= MAX_REPAIR_WINDOW
  {
    if n == 0 then 0
    else
      var held, ring := HeldAt(capacity, actions, n - 1), RingAt(capacity, actions, n);
      match actions[n - 1]
      case Send(_, _) => if held < ring then held + 1 else ring
      case Protect(_, _, _) => held
      case Resize(_) => if ring < held then ring else held
      case Reset => 0
  }

  /** Action i brings the receiver an equation: a symbol that arrives, or a repair that arrives and is
      not empty. */
  predicate Brings(capacity: int, actions: seq<Action>, i: nat)
    requires i < |actions|
  {
    match actions[i]
    case Send(_, arrives) => arrives
    case Protect(_, count, arrives) =>
      arrives && Longest(SentBy(actions, i), Span(HeldAt(capacity, actions, i), count)) > 0
    case _ => false
  }

  ghost function EquationOf(capacity: int, actions: seq<Action>, i: nat): Equation
    requires i < |actions| && Brings(capacity, actions, i)
  {
    match actions[i]
    case Send(vector, _) => SymbolEquation(|SentBy(actions, i)|, vector)
    case Protect(rid, count, _) => RepairEquation(SentBy(actions, i), rid, Span(HeldAt(capacity, actions, i), count))
  }

  /** The equations the first n actions brought. */
  ghost function Accepted(capacity: int, actions: seq<Action>, n: nat): seq<Equation>
    requires n <= |actions|
  {
    if n == 0 then []
    else
      var before := Accepted(capacity, actions, n - 1);
      if Brings(capacity, actions, n - 1) then before + [EquationOf(capacity, actions, n - 1)] else before
  }

  /** How many symbols had been sent when something last arrived; the receiver's window ends there. */
  function Top(capacity: int, actions: seq<Action>, n: nat): (top: nat)
    requires n <= |actions|
    ensures top <= |SentBy(actions, n)|
  {
    if n == 0 then 0
    else if Brings(capacity, actions, n - 1) then |SentBy(actions, n)|
    else Top(capacity, actions, n - 1)
  }

  /** Something can only be brought once something was sent. */
  lemma BringsTop(capacity: int, actions: seq<Action>, i: nat)
    requires i < |actions| && Brings(capacity, actions, i)
    ensures Top(capacity, actions, i + 1) == |SentBy(actions, i + 1)| > 0
  {}

  /** Something arrives before so many symbols are sent that identifiers could come round. */
  ghost predicate Audible(capacity: int, actions: seq<Action>) {
    forall n :: 0 <= n < |actions| && Top(capacity, actions, n) > 0 ==>
      |SentBy(actions, n)| - Top(capacity, actions, n) < HALF - WIDTH
  }

  /** After the first m actions position p was in the window and determined by what they brought. */
  ghost predicate KnowableAt(capacity: int, actions: seq<Action>, m: nat, p: int)
    requires m <= |actions|
  {
    var top := Top(capacity, actions, m);
    top > 0 && top - WIDTH <= p < top && Determined(Accepted(capacity, actions, m), p)
  }

  /** ... after some of the first n. */
  ghost predicate Knowable(capacity: int, actions: seq<Action>, n: nat, p: int)
    requires n <= |actions|
  {
    exists m: nat :: m <= n && KnowableAt(capacity, actions, m, p)
  }

  // ---------------------------------------------------------------- what can be known

  lemma {:induction false} AcceptedMore(capacity: int, actions: seq<Action>, i: nat, n: nat)
    requires i < n <= |actions| && Brings(capacity, actions, i)
    ensures EquationOf(capacity, actions, i) in Accepted(capacity, actions, n)
  {
    hide Brings, EquationOf;
    if i < n - 1 { AcceptedMore(capacity, actions, i, n - 1); }
  }

  lemma SatisfiesOne(a: Assignment, told: seq<Equation>, e: Equation, j: nat)
    requires Satisfies(a, told, j) && e in told
    ensures RowHolds(e.coef, e.data, Column(a, e.at), j)
  {
    hide RowHolds, Column;
    var i :| 0 <= i < |told| && told[i] == e;
  }

  /** A symbol that arrived can be known. */
  lemma ArrivedKnowable(capacity: int, actions: seq<Action>, i: nat, n: nat)
    requires i < n <= |actions| && actions[i].Send? && actions[i].arrives
    ensures Knowable(capacity, actions, n, |SentBy(actions, i)|)
  {
    var p, told := |SentBy(actions, i)|, Accepted(capacity, actions, i + 1);
    AcceptedMore(capacity, actions, i, i + 1);
    BringsTop(capacity, actions, i);
    forall a: Assignment, b: Assignment, j: nat | Satisfies(a, told, j) && Satisfies(b, told, j) ensures a(p) == b(p) {
      SymbolSays(a, told, p, actions[i].vector, j);
      SymbolSays(b, told, p, actions[i].vector, j);
    }
    hide Satisfies, Accepted;
    assert KnowableAt(capacity, actions, i + 1, p);
  }

  lemma SymbolSays(a: Assignment, told: seq<Equation>, p: int, v: seq<byte>, j: nat)
    requires Satisfies(a, told, j) && SymbolEquation(p, v) in told
    ensures a(p) == At(v, j)
  {
    hide Satisfies, Dot, At, Column;
    var e := SymbolEquation(p, v);
    SatisfiesOne(a, told, e, j);
    SingleRowHolds(e.coef, v, p % WIDTH, Column(a, e.at), j);
    ColumnAt(a, e.at, p);
  }

  lemma MulCancels(w: byte, y: byte, z: byte)
    requires w != ZERO && Mul(w, y) == Mul(w, z)
    ensures y == z
  {
    hide Mul, Inv;
    MulInverse(w);
    MulAssociates(Inv(w), w, y); MulAssociates(Inv(w), w, z);
    MulOne(y); MulOne(z);
  }

  /** Assignments that agree on all of a combination but one symbol, and on the combination, agree on
      that one too. */
  lemma {:induction false} CombinationOne(a: Assignment, b: Assignment, rid: uint32, p: int, m: nat, q: int)
    requires p <= q < p + m && forall r :: p <= r < p + m && r != q ==> a(r) == b(r)
    requires Combination(a, rid, p, m) == Combination(b, rid, p, m)
    ensures a(q) == b(q)
  {
    hide Xor, Mul, WindowCoefficient;
    var w, last := WindowCoefficient(rid, m - 1), p + m - 1;
    var ca, cb := Combination(a, rid, p, m - 1), Combination(b, rid, p, m - 1);
    if q == last {
      CombinationAgrees(a, b, rid, p, m - 1);
      XorCancelTwice(ca, Mul(w, a(q))); XorCancelTwice(ca, Mul(w, b(q)));
      MulCancels(w, a(q), b(q));
    } else {
      XorCommutes(ca, Mul(w, a(last))); XorCommutes(cb, Mul(w, b(last)));
      XorCancelTwice(Mul(w, a(last)), ca); XorCancelTwice(Mul(w, b(last)), cb);
      CombinationOne(a, b, rid, p, m - 1, q);
    }
  }

  /** A repair that arrived makes up for any one symbol of its span: when all the others are determined,
      so is that one. */
  lemma RepairDetermines(capacity: int, actions: seq<Action>, i: nat, n: nat, q: int)
    requires i < n <= |actions| && actions[i].Protect? && Brings(capacity, actions, i)
    requires var m := Span(HeldAt(capacity, actions, i), actions[i].count); var p := |SentBy(actions, i)| - m;
             p <= q < p + m && forall r :: p <= r < p + m && r != q ==> Determined(Accepted(capacity, actions, n), r)
    ensures Determined(Accepted(capacity, actions, n), q)
  {
    hide Accepted, HeldAt, SentBy, RepairEquation, Determined, Longest;
    var m := Span(HeldAt(capacity, actions, i), actions[i].count);
    AcceptedMore(capacity, actions, i, n);
    RepairFills(Accepted(capacity, actions, n), SentBy(actions, i), actions[i].rid, m, q);
  }

  lemma RepairFills(told: seq<Equation>, sent: seq<seq<byte>>, rid: uint32, m: nat, q: int)
    requires m <= |sent| && m <= WIDTH && RepairEquation(sent, rid, m) in told && |sent| - m <= q < |sent|
    requires forall r :: |sent| - m <= r < |sent| && r != q ==> Determined(told, r)
    ensures Determined(told, q)
  {
    hide Satisfies, Combined, Combination, RepairEquation, At;
    forall a: Assignment, b: Assignment, j: nat | Satisfies(a, told, j) && Satisfies(b, told, j) ensures a(q) == b(q) {
      RepairSays(a, told, sent, rid, m, j);
      RepairSays(b, told, sent, rid, m, j);
      forall r | |sent| - m <= r < |sent| && r != q ensures a(r) == b(r) { assert Determined(told, r); }
      CombinationOne(a, b, rid, |sent| - m, m, q);
    }
  }

  lemma RepairSays(a: Assignment, told: seq<Equation>, sent: seq<seq<byte>>, rid: uint32, m: nat, j: nat)
    requires m <= |sent| && m <= WIDTH && RepairEquation(sent, rid, m) in told && Satisfies(a, told, j)
    ensures Combination(a, rid, |sent| - m, m) == At(Combined(sent, rid, m), j)
  {
    hide Satisfies, Dot, At, Column, RepairRow, Combination, Combined;
    var e := RepairEquation(sent, rid, m);
    SatisfiesOne(a, told, e, j);
    RepairRowDot(e.at, rid, |sent| - m, m, a);
  }

  // ---------------------------------------------------------------- one action

  /** Both ends stand where the first n actions have put them. */
  ghost predicate Follows(c: Channel, capacity: int, actions: seq<Action>, n: nat)
    requires n <= |actions|
    reads c, c.encoder, c.decoder
  {
    && c.encoder.sent == SentBy(actions, n)
    && |c.encoder.ring| == RingAt(capacity, actions, n) && c.encoder.held == HeldAt(capacity, actions, n)
    && c.decoder.told == Accepted(capacity, actions, n)
    && (c.decoder.started <==> Top(capacity, actions, n) > 0)
    && (c.decoder.started ==> c.decoder.at + WIDTH == Top(capacity, actions, n))
  }

  /** The position an action brings to the receiver, if it does. */
  ghost function Brought(actions: seq<Action>, n: nat): set<int>
    requires n < |actions|
  {
    if actions[n].Send? && actions[n].arrives then {|SentBy(actions, n)|} else {}
  }

  /** One action. */
  method Act(c: Channel, ghost capacity: int, actions: seq<Action>, n: nat) returns (out: Delivery)
    requires n < |actions| && Audible(capacity, actions) && c.decoder.stream == StreamOf(SentBy(actions, |actions|))
    requires c.Valid() && Follows(c, capacity, actions, n)
    modifies c.encoder, c.decoder
    ensures c.Valid() && Follows(c, capacity, actions, n + 1)
    ensures c.Honest(old(c.decoder.fates), out, Brought(actions, n))
    ensures !Brings(capacity, actions, n) ==> c.decoder.fates == old(c.decoder.fates)
    ensures forall p :: p in Brought(actions, n) ==> p !in old(c.decoder.fates.known) && p !in c.decoder.fates.recovered
  {
    hide Original, AllWhole, Gains, Logged, Channel.Valid, Solved, Longest, RepairEquation, SymbolEquation, RingFor;
    NextSent(actions, n);
    if Brings(capacity, actions, n) { BringsTop(capacity, actions, n); }
    InTouchNow(c, capacity, actions, n);
    match actions[n] {
      case Send(vector, arrives) =>
        out := c.Send(vector, arrives);
      case Protect(rid, count, arrives) =>
        out := c.Protect(rid, count, arrives);
      case Resize(size) =>
        NothingReported(c);
        out := Nothing;
        c.Resize(size, false);
      case Reset =>
        NothingReported(c);
        out := Nothing;
        c.Resize(0, true);
    }
  }

  lemma InTouchNow(c: Channel, capacity: int, actions: seq<Action>, n: nat)
    requires n < |actions| && Audible(capacity, actions) && Follows(c, capacity, actions, n)
    ensures c.InTouch()
  {
    hide SentBy, HeldAt, RingAt, Accepted;
  }

  lemma NextSent(actions: seq<Action>, n: nat)
    requires n < |actions|
    ensures var p, all := |SentBy(actions, n)|, SentBy(actions, |actions|);
            actions[n].Send? ==> p < |all| && all[p] == actions[n].vector
  {
    SentPrefix(actions, n + 1, |actions|);
  }

  lemma NothingReported(c: Channel)
    requires c.Valid()
    ensures c.Honest(c.decoder.fates, Nothing, {})
  {
    GainsSame(c.decoder.fates);
    EmptyLog(c.decoder.at, c.decoder.slots, c.decoder.fates);
  }

  // ---------------------------------------------------------------- whole conversations

  lemma Start(c: Channel, capacity: int, actions: seq<Action>, stream: int -> seq<byte>)
    requires !c.decoder.started && c.encoder.sent == [] && c.decoder.told == [] && c.encoder.held == 0
    requires |c.encoder.ring| == RingFor(capacity)
    ensures Follows(c, capacity, actions, 0) && forall p :: !Knowable(capacity, actions, 0, p)
    ensures Joined([]) == Nothing && Told(Nothing, NoFates, NoFates) && Original(NoFates, Nothing, 0, stream)
    ensures AllWhole([], [], stream, 0)
  {}

  /** The reports so far, added up. */
  ghost predicate Summed(c: Channel, all: Delivery, stream: int -> seq<byte>, n: nat)
    reads c, c.decoder
  {
    && Told(all, NoFates, c.decoder.fates) && Original(c.decoder.fates, all, 0, stream)
    && AllWhole(all.recovered, c.decoder.fates.recovered, stream, n)
  }

  lemma OneMoreReport(c: Channel, all: Delivery, f: Fates, out: Delivery, also: set<int>, stream: int -> seq<byte>,
                      m: nat)
    requires c.Honest(f, out, also) && c.decoder.stream == stream && m <= |c.encoder.sent|
    requires Told(all, NoFates, f) && Original(f, all, 0, stream) && AllWhole(all.recovered, f.recovered, stream, m)
    ensures Summed(c, Then(all, out), stream, |c.encoder.sent|)
  {
    hide Original, Logged, Whole, AllWhole;
    var f' := c.decoder.fates;
    ToldMore(all, NoFates, f, c.decoder.at, c.decoder.slots, out, f');
    LoggedRecovered(c.decoder.at, c.decoder.slots, f', out, |f.recovered|, |f.lost|);
    OriginalThen(all, 0, f, out, f', stream);
    WholeThen(all, f.recovered, out, f'.recovered, stream, m, |c.encoder.sent|);
  }

  lemma WholeThen(a: Delivery, ps: seq<int>, b: Delivery, qs: seq<int>, stream: int -> seq<byte>, m: nat, n: nat)
    requires AllWhole(a.recovered, ps, stream, m) && ps <= qs && AllWhole(b.recovered, qs[|ps|..], stream, n) && m <= n
    ensures AllWhole(Then(a, b).recovered, qs, stream, n)
  {
    hide Whole;
    var both := Then(a, b).recovered;
    assert qs == ps + qs[|ps|..];
    forall i | 0 <= i < |both| ensures 0 <= qs[i] < n && Whole(both[i], stream, qs[i]) {
      if i >= |ps| { assert both[i] == b.recovered[i - |ps|] && qs[i] == qs[|ps|..][i - |ps|]; }
    }
  }

  /** What is known is what could be known: nothing is missed and nothing made up. */
  lemma KnownKnowable(c: Channel, capacity: int, actions: seq<Action>, n: nat, f: Fates, out: Delivery)
    requires n < |actions| && c.Valid() && Follows(c, capacity, actions, n + 1) && c.Honest(f, out, Brought(actions, n))
    requires !Brings(capacity, actions, n) ==> c.decoder.fates == f
    requires forall p :: p in f.known <==> Knowable(capacity, actions, n, p)
    ensures forall p :: p in c.decoder.fates.known <==> Knowable(capacity, actions, n + 1, p)
  {
    hide Channel.Valid, Channel.Honest, Follows, KnowableAt, Knowable, Brings, Brought;
    var f' := c.decoder.fates;
    if Brings(capacity, actions, n) {
      GainedInside(c, capacity, actions, n, f, out);
      forall p ensures p in f'.known <==> Knowable(capacity, actions, n + 1, p) {
        KnowableMore(capacity, actions, n, p);
        WindowKnown(c, capacity, actions, n + 1, p);
      }
    } else {
      forall p ensures Knowable(capacity, actions, n, p) <==> Knowable(capacity, actions, n + 1, p) {
        KnowableMore(capacity, actions, n, p);
        if KnowableAt(capacity, actions, n + 1, p) { KnowableSame(capacity, actions, n, p); }
      }
    }
  }

  lemma KnowableMore(capacity: int, actions: seq<Action>, n: nat, p: int)
    requires n < |actions|
    ensures Knowable(capacity, actions, n + 1, p) <==>
      Knowable(capacity, actions, n, p) || KnowableAt(capacity, actions, n + 1, p)
  {
    hide KnowableAt;
    if Knowable(capacity, actions, n, p) {
      var m: nat :| m <= n && KnowableAt(capacity, actions, m, p);
      assert m <= n + 1;
    }
  }

  lemma KnowableSame(capacity: int, actions: seq<Action>, n: nat, p: int)
    requires n < |actions| && !Brings(capacity, actions, n) && KnowableAt(capacity, actions, n + 1, p)
    ensures Knowable(capacity, actions, n, p)
  {
    hide Determined, Brings;
    assert KnowableAt(capacity, actions, n, p);
  }

  /** A window position is known exactly when what was brought determines it. */
  lemma WindowKnown(c: Channel, capacity: int, actions: seq<Action>, n: nat, p: int)
    requires n <= |actions| && c.Valid() && Follows(c, capacity, actions, n)
    ensures KnowableAt(capacity, actions, n, p) <==>
      c.decoder.started && c.decoder.at <= p < c.decoder.at + WIDTH && p in c.decoder.fates.known
  {
    hide WindowDecoder.Valid, WindowDecoder.Good, WindowDecoder.Room, Determined, Accepted, SentBy, HeldAt, RingAt, Top;
    var d := c.decoder;
    if d.started && d.at <= p < d.at + WIDTH { NothingMissed(d, p); }
  }

  /** What becomes known with an equation lies in the window. */
  lemma GainedInside(c: Channel, capacity: int, actions: seq<Action>, n: nat, f: Fates, out: Delivery)
    requires n < |actions| && c.Valid() && Follows(c, capacity, actions, n + 1) && c.Honest(f, out, Brought(actions, n))
    requires Brings(capacity, actions, n)
    ensures f.known <= c.decoder.fates.known && c.decoder.started
    ensures forall p :: p in c.decoder.fates.known && p !in f.known ==> c.decoder.at <= p < c.decoder.at + WIDTH
  {
    hide Channel.Valid, Original, AllWhole, LostFrom, Longest, HeldAt, RingAt, Accepted, Determined, Wrap;
    BringsTop(capacity, actions, n);
    var f', base := c.decoder.fates, |f.recovered|;
    forall p | p in f'.known && p !in f.known ensures c.decoder.at <= p < c.decoder.at + WIDTH {
      if p in Brought(actions, n) {
        assert c.decoder.at + WIDTH == |SentBy(actions, n + 1)| == p + 1;
      } else {
        var i :| 0 <= i < |f'.recovered[base..]| && f'.recovered[base..][i] == p;
        assert Reported(c.decoder.at, c.decoder.slots, f'.recovered[base + i], out.recovered[i]);
      }
    }
  }

  /** Whatever is erased, and however the sender resizes or drops its window: every symbol reported
      recovered is one that was sent, whole, with nothing but zeros behind it; nothing is reported
      twice, or both recovered and lost; and the symbols known are exactly those that, at some point
      while they were in the window, the symbols and repairs that had arrived determined. */
  method Converse(capacity: int, actions: seq<Action>) returns (c: Channel, outs: seq<Delivery>)
    requires Audible(capacity, actions)
    ensures c.Valid() && Follows(c, capacity, actions, |actions|)
    ensures Told(Joined(outs), NoFates, c.decoder.fates)
    ensures Original(c.decoder.fates, Joined(outs), 0, StreamOf(c.encoder.sent))
    ensures AllWhole(Joined(outs).recovered, c.decoder.fates.recovered, StreamOf(c.encoder.sent), |c.encoder.sent|)
    ensures forall p :: multiset(c.decoder.fates.recovered)[p] + multiset(c.decoder.fates.lost)[p] <= 1
    ensures forall p :: p in c.decoder.fates.lost ==> p !in c.decoder.fates.known
    ensures forall p :: p in c.decoder.fates.known <==> Knowable(capacity, actions, |actions|, p)
  {
    hide SentBy, Top, Original, Joined, Told, AllWhole, Gains, Knowable, Brings, Brought, Then;
    hide Follows, Channel.Valid, Channel.Honest, StreamOf, WindowDecoder.Valid, WindowDecoder.Good;
    ghost var sent := SentBy(actions, |actions|);
    c := new Channel(capacity, StreamOf(sent));
    outs := [];
    Start(c, capacity, actions, StreamOf(sent));
    FollowsSent(c, capacity, actions, 0);
    var n := 0;
    while n < |actions|
      invariant 0 <= n <= |actions| && fresh(c.encoder) && fresh(c.decoder) && c.decoder.stream == StreamOf(sent)
      invariant c.Valid() && Follows(c, capacity, actions, n)
      invariant Summed(c, Joined(outs), StreamOf(sent), |SentBy(actions, n)|)
      invariant forall p :: p in c.decoder.fates.known <==> Knowable(capacity, actions, n, p)
    {
      ghost var f := c.decoder.fates;
      var out := Act(c, capacity, actions, n);
      KnownKnowable(c, capacity, actions, n, f, out);
      SentPrefix(actions, n, n + 1);
      FollowsSent(c, capacity, actions, n + 1);
      OneMoreReport(c, Joined(outs), f, out, Brought(actions, n), StreamOf(sent), |SentBy(actions, n)|);
      JoinedMore(outs, out);
      outs := outs + [out];
      n := n + 1;
    }
    FollowsSent(c, capacity, actions, n);
    FatesOnce(c);
  }

  lemma FollowsSent(c: Channel, capacity: int, actions: seq<Action>, n: nat)
    requires n <= |actions| && Follows(c, capacity, actions, n)
    ensures c.encoder.sent == SentBy(actions, n)
  {}

  lemma FatesOnce(c: Channel)
    requires c.Valid()
    ensures forall p :: multiset(c.decoder.fates.recovered)[p] + multiset(c.decoder.fates.lost)[p] <= 1
    ensures forall p :: p in c.decoder.fates.lost ==> p !in c.decoder.fates.known
  {
    var d := c.decoder;
    if d.started {
      hide WindowDecoder.Valid, WindowDecoder.Good, WindowDecoder.Room;
      forall p
        ensures multiset(d.fates.recovered)[p] + multiset(d.fates.lost)[p] <= 1
        ensures p in d.fates.lost ==> p !in d.fates.known
      {
        OneFateEach(d, p);
      }
    }
  }
}
