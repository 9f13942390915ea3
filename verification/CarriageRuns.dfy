/** Whole runs over the coded framing (coded.go): every event on every symbol, in any order. */
module CarriageRuns {
  import opened Wrappers
  import opened Ids
  import opened Framing
  import opened Packing
  import opened Assembly
  import opened Carriage

  /** The progress after an arrival at position j. */
  ghost function Arrived(parcels: seq<Parcel>, seen: bool, pr: Progress, j: nat): Progress
    requires AllLegal(parcels) && j < Total(parcels)
  {
    Reached(parcels, Now(parcels, pr, seen, j), ParcelAt(parcels, |parcels|, j), j)
  }

  /** The frames that come out when position j arrives: those of its parcel, if that completed it. */
  ghost function Released(parcels: seq<Parcel>, arrived: set<nat>, j: nat): seq<Frame>
    requires AllLegal(parcels) && j < Total(parcels)
  {
    var u := ParcelAt(parcels, |parcels|, j);
    assert parcels[u] in parcels;
    if Complete(parcels, u, arrived + {j}) then Yield(parcels[u]) else []
  }

  lemma ArrivalTracks(parcels: seq<Parcel>, base: int, t: Table, pr: Progress, j: nat, vector: seq<Byte>, t': Table,
                      frames: seq<Frame>)
    requires Short(parcels) && Tracks(parcels, base, t, pr)
    requires j < Total(parcels) && j !in pr.arrived + pr.lost && (t.seen ==> pr.high - j <= ASSEMBLER_SLACK)
    requires Wire(parcels, |parcels|)[j] <= vector && Arrival(t, Wrap(base + j), vector, t', frames)
    ensures Tracks(parcels, base, t', Arrived(parcels, t.seen, pr, j))
    ensures frames == Released(parcels, pr.arrived, j)
  {
    hide Start, Mirrored, Fair, Remembered, Done, Holding, Legal, Width, Here, Complete, Close, Unhurt, Share, Key;
    hide Noted, Wire;
    hide Reached, ParseSymbol, Frames, Stale, Placed, Yield, Wrap, Plus, At, Arrival, Newest;
    var u := ParcelAt(parcels, |parcels|, j);
    var now, noted := Now(parcels, pr, t.seen, j), Noted(t, Wrap(base + j));
    AtIndex(parcels, u, j);
    var i: nat, p, next := j - Start(parcels, u), parcels[u], Reached(parcels, now, u, j);
    SymbolRead(parcels, base, u, j, vector);
    NotedTracks(parcels, base, t, pr, j);
    NewestOf(parcels, base, t, pr);
    assert now.arrived == pr.arrived && now.lost == pr.lost && now.done == pr.done;
    ReachedIs(parcels, now, u, j);
    CloseBehind(parcels, u, j, now.high);
    if Width(p) == 1 {
      WholeStep(parcels, base, t, now, u, j, vector, t', frames);
    } else {
      PartStep(parcels, base, t, now, u, j, vector, t', frames);
    }
    NewestReached(parcels, base, t', now, next, j);
  }

  /** A symbol has been noted, and the state is as it should be but for what the symbol brings. */
  ghost predicate Noting(parcels: seq<Parcel>, base: int, t: Table, now: Progress)
    requires AllLegal(parcels)
  {
    && t.seen && t.high == Wrap(base + now.high) && now.high < Total(parcels) && now.arrived !! now.lost
    && (forall k :: k in now.arrived + now.lost ==> k <= now.high)
    && Mirrored(parcels, base, t.groups, now.holds) && Fair(parcels, now) && Remembered(parcels, now)
    && Done(parcels, now)
  }

  lemma WholeStep(parcels: seq<Parcel>, base: int, t: Table, now: Progress, u: nat, j: nat, vector: seq<Byte>,
                  t': Table, frames: seq<Frame>)
    requires Short(parcels) && At(parcels, u, j) && j !in now.arrived && j !in now.lost && j <= now.high
    requires Legal(parcels[u]) && Width(parcels[u]) == 1
    requires Noting(parcels, base, Noted(t, Wrap(base + j)), now) && Arrival(t, Wrap(base + j), vector, t', frames)
    requires ParseSymbol(vector) == Some(Symbol(Share(parcels[u], 0), 0, 1))
    ensures var pr := Reached(parcels, now, u, j);
            && Mirrored(parcels, base, t'.groups, pr.holds) && Fair(parcels, pr) && Remembered(parcels, pr)
            && Done(parcels, pr)
            && t' == Noted(t, Wrap(base + j))
            && frames == (if Complete(parcels, u, pr.arrived) then Yield(parcels[u]) else [])
  {
    hide Start, Mirrored, Fair, Remembered, Done, Holding, Legal, Width, Here, Complete, Close, Unhurt, Share, Key;
    hide Noted;
    hide Reached, ParseSymbol, Frames, Placed, Yield, Wrap, Plus, At, Arrival;
    ArrivalWhole(t, Wrap(base + j), vector, t', frames, Symbol(Share(parcels[u], 0), 0, 1));
    WholeReached(parcels, base, t'.groups, now, u, j);
    YieldOne(parcels[u]);
  }

  lemma PartStep(parcels: seq<Parcel>, base: int, t: Table, now: Progress, u: nat, j: nat, vector: seq<Byte>, t': Table,
                 frames: seq<Frame>)
    requires Short(parcels) && At(parcels, u, j) && j !in now.arrived && j !in now.lost && j <= now.high
    requires Legal(parcels[u]) && Width(parcels[u]) > 1
    requires Noting(parcels, base, Noted(t, Wrap(base + j)), now) && Arrival(t, Wrap(base + j), vector, t', frames)
    requires Close(parcels, u, now.high) && 0 <= j - Start(parcels, u) < Width(parcels[u])
    requires ParseSymbol(vector) == Some(Symbol(Share(parcels[u], j - Start(parcels, u)), j - Start(parcels, u),
                                                Width(parcels[u])))
    requires Plus(Wrap(base + j), -((j - Start(parcels, u)) as int)) == Key(parcels, base, u)
    ensures var pr := Reached(parcels, now, u, j); var n := Noted(t, Wrap(base + j));
            && Mirrored(parcels, base, t'.groups, pr.holds) && Fair(parcels, pr) && Remembered(parcels, pr)
            && Done(parcels, pr)
            && t'.high == n.high && t'.seen
            && frames == (if Complete(parcels, u, pr.arrived) then Yield(parcels[u]) else [])
  {
    hide Start, Mirrored, Fair, Remembered, Done, Holding, Legal, Width, Here, Complete, Close, Unhurt, Share, Key;
    hide Noted;
    hide Reached, ParseSymbol, Frames, Stale, Placed, Yield, Wrap, Plus, At, Arrival;
    var noted, p, i: nat := Noted(t, Wrap(base + j)), parcels[u], j - Start(parcels, u);
    KeyEnd(parcels, base, u, now.high);
    RoomLeft(parcels, base, noted, now);
    ArrivalPart(t, Wrap(base + j), vector, t', frames, Symbol(Share(p, i), i, Width(p)), Key(parcels, base, u));
    PartReached(parcels, base, noted.groups, now, u, j);
    YieldMany(p);
  }

  lemma NewestOf(parcels: seq<Parcel>, base: int, t: Table, pr: Progress)
    requires AllLegal(parcels) && Newest(parcels, base, t, pr)
    ensures pr.arrived !! pr.lost && (t.seen ==> pr.high in pr.arrived + pr.lost)
    ensures forall k :: k in pr.arrived + pr.lost ==> k < Total(parcels)
  {}

  lemma NewestReached(parcels: seq<Parcel>, base: int, t: Table, now: Progress, pr: Progress, j: nat)
    requires AllLegal(parcels) && now.arrived !! now.lost && j !in now.arrived + now.lost && j < Total(parcels)
    requires j <= now.high
    requires forall k :: k in now.arrived + now.lost ==> k <= now.high && k < Total(parcels)
    requires now.high == j || now.high in now.arrived + now.lost
    requires pr.high == now.high && t.seen && t.high == Wrap(base + now.high)
    requires (pr.arrived == now.arrived + {j} && pr.lost == now.lost)
      || (pr.arrived == now.arrived && pr.lost == now.lost + {j})
    ensures Newest(parcels, base, t, pr)
  {
    assert j in pr.arrived + pr.lost;
  }

  lemma ArrivalWhole(t: Table, esi: uint32, vector: seq<Byte>, t': Table, frames: seq<Frame>, s: Symbol)
    requires Arrival(t, esi, vector, t', frames) && ParseSymbol(vector) == Some(s) && s.count == 1
    ensures t' == Noted(t, esi) && frames == Frames(s.payload)
  {
    hide ParseSymbol, Noted;
  }

  lemma ArrivalPart(t: Table, esi: uint32, vector: seq<Byte>, t': Table, frames: seq<Frame>, s: Symbol, first: uint32)
    requires Arrival(t, esi, vector, t', frames) && ParseSymbol(vector) == Some(s) && s.count != 1
    requires first == Plus(esi, -(s.index as int))
    requires var n := Noted(t, esi); |n.groups| < MAX_GROUPS && !Stale(n.high, first, s.count)
    ensures var n := Noted(t, esi);
            (t'.groups, frames) == Placed(n.groups, first, s) && t'.high == n.high && t'.seen
  {
    hide ParseSymbol, Noted, Placed, Stale, Plus;
    var n := Noted(t, esi);
    RoomSame(n.groups, n.high, first);
  }

  lemma RoomSame(groups: Groups, high: uint32, first: uint32)
    requires |groups| < MAX_GROUPS
    ensures forall room: Groups :: Room(groups, high, first, room) <==> room == groups
  {}

  lemma ReachedIs(parcels: seq<Parcel>, now: Progress, u: nat, j: nat)
    requires AllLegal(parcels) && At(parcels, u, j)
    ensures var pr := Reached(parcels, now, u, j);
            pr.arrived == now.arrived + {j} && pr.lost == now.lost && pr.high == now.high
            && pr.done == if Complete(parcels, u, now.arrived + {j}) then now.done + [u] else now.done
  {
    hide Complete, Start, Width, Legal;
  }

  lemma CloseBehind(parcels: seq<Parcel>, u: nat, j: nat, high: nat)
    requires AllLegal(parcels) && At(parcels, u, j) && high - j <= ASSEMBLER_SLACK
    ensures Close(parcels, u, high)
  {}

  lemma YieldOne(p: Parcel)
    requires Legal(p) && Width(p) == 1
    ensures Yield(p) == Frames(Share(p, 0))
  {}

  lemma YieldMany(p: Parcel)
    requires Legal(p) && Width(p) > 1
    ensures p.Split? && Yield(p) == [p.frame]
  {}

  /** The progress after position j was given up. */
  ghost function GivenUp(parcels: seq<Parcel>, seen: bool, pr: Progress, j: nat): Progress
    requires AllLegal(parcels)
  {
    var now := Now(parcels, pr, seen, j);
    now.(lost := now.lost + {j}, holds := map u | u in now.holds && !At(parcels, u, j) :: now.holds[u])
  }

  lemma LossTracks(parcels: seq<Parcel>, base: int, t: Table, pr: Progress, j: nat)
    requires Short(parcels) && Tracks(parcels, base, t, pr) && j < Total(parcels) && j !in pr.arrived + pr.lost
    ensures var n := Noted(t, Wrap(base + j));
            Tracks(parcels, base, n.(groups := Dropped(n.groups, Wrap(base + j))), GivenUp(parcels, t.seen, pr, j))
  {
    hide Start, Mirrored, Fair, Remembered, Done, Holding, Legal, Width, Here, Complete, Close, Key, Noted, Wrap, At;
    var now, noted := Now(parcels, pr, t.seen, j), Noted(t, Wrap(base + j));
    NotedTracks(parcels, base, t, pr, j);
    assert now.arrived == pr.arrived && now.lost == pr.lost && now.done == pr.done;
    DroppedMirrors(parcels, base, noted.groups, now.holds, j);
    var given := GivenUp(parcels, t.seen, pr, j);
    GivenUpFair(parcels, now, given, j);
    NewestOf(parcels, base, t, pr);
    NewestReached(parcels, base, noted, now, given, j);
  }

  lemma DroppedMirrors(parcels: seq<Parcel>, base: int, groups: Groups, holds: map<nat, set<nat>>, j: nat)
    requires Short(parcels) && Mirrored(parcels, base, groups, holds) && j < Total(parcels)
    ensures Mirrored(parcels, base, Dropped(groups, Wrap(base + j)),
                     map u | u in holds && !At(parcels, u, j) :: holds[u])
  {
    hide Holding, Close, Stale, Key, Wrap, Width, Legal, Start, Spans, At;
    forall u | u in holds
      ensures Spans(Key(parcels, base, u), groups[Key(parcels, base, u)].count, Wrap(base + j)) <==> At(parcels, u, j)
    {
      KeyEnd(parcels, base, u, j);
      HoldingCount(groups[Key(parcels, base, u)], parcels[u], holds[u]);
    }
  }

  lemma GivenUpFair(parcels: seq<Parcel>, now: Progress, pr: Progress, j: nat)
    requires AllLegal(parcels) && Fair(parcels, now) && Remembered(parcels, now) && Done(parcels, now)
    requires pr == now.(lost := now.lost + {j}, holds := map u | u in now.holds && !At(parcels, u, j) :: now.holds[u])
    ensures Fair(parcels, pr) && Remembered(parcels, pr) && Done(parcels, pr)
  {
    hide Start, At, Close, Here, Complete;
    forall u: nat | Unhurt(parcels, u, pr.lost) ensures Unhurt(parcels, u, now.lost) && !At(parcels, u, j) {}
  }

  // ---------------------------------------------------------------- runs

  /** What the receiver is told of a symbol: it came, perhaps repaired and padded, or it is lost for good. */
  datatype Event = Arrive(esi: uint32, vector: seq<Byte>) | Lose(esi: uint32)

  /** The events concern what was sent, each position once, and nothing arrives more than the slack
      behind the newest symbol. */
  ghost predicate Orderly(wire: seq<seq<Byte>>, base: int, events: seq<Event>, at: seq<nat>) {
    && |at| == |events|
    && (forall n :: 0 <= n < |events| ==> at[n] < |wire| && events[n].esi == Wrap(base + at[n]))
    && (forall n :: 0 <= n < |events| && events[n].Arrive? ==> at[n] < |wire| && wire[at[n]] <= events[n].vector)
    && (forall m, n :: 0 <= m < n < |events| ==> at[m] != at[n])
    && (forall m, n :: 0 <= m < n < |events| && events[n].Arrive? ==> at[m] - at[n] <= ASSEMBLER_SLACK)
  }

  ghost function Came(events: seq<Event>, at: seq<nat>, n: nat): set<nat>
    requires n <= |events| == |at|
  {
    if n == 0 then {} else Came(events, at, n - 1) + (if events[n - 1].Arrive? then {at[n - 1]} else {})
  }

  ghost function Gone(events: seq<Event>, at: seq<nat>, n: nat): set<nat>
    requires n <= |events| == |at|
  {
    if n == 0 then {} else Gone(events, at, n - 1) + (if events[n - 1].Lose? then {at[n - 1]} else {})
  }

  lemma {:induction false} Happened(events: seq<Event>, at: seq<nat>, n: nat, j: nat)
    requires n <= |events| == |at| && j in Came(events, at, n) + Gone(events, at, n)
    ensures exists m :: 0 <= m < n && at[m] == j
  {
    if j != at[n - 1] { Happened(events, at, n - 1, j); }
  }

  ghost predicate Within(s: seq<nat>, n: nat) { forall m :: 0 <= m < |s| ==> s[m] < n }

  /** What the parcels done yield, in the order they were done. */
  ghost function Yields(parcels: seq<Parcel>, done: seq<nat>): seq<Frame>
    requires AllLegal(parcels) && Within(done, |parcels|)
  {
    if done == [] then []
    else
      var last, rest := done[|done| - 1], done[..|done| - 1];
      assert parcels[last] in parcels;
      Yields(parcels, rest) + Yield(parcels[last])
  }

  ghost predicate Rising(s: seq<nat>) {
    forall m, n :: 0 <= m < n < |s| ==> s[m] < s[n]
  }

  /** Where an event stands: it is new, and an arrival is not too far behind. */
  lemma Timely(parcels: seq<Parcel>, base: int, events: seq<Event>, at: seq<nat>, n: nat, t: Table, pr: Progress)
    requires AllLegal(parcels) && |at| == |events| && Orderly(Wire(parcels, |parcels|), base, events, at)
    requires n < |events| && Newest(parcels, base, t, pr)
    requires pr.arrived == Came(events, at, n) && pr.lost == Gone(events, at, n)
    ensures at[n] !in pr.arrived + pr.lost && (events[n].Arrive? && t.seen ==> pr.high - at[n] <= ASSEMBLER_SLACK)
    ensures Rising(at) ==> forall j :: j in pr.arrived ==> j < at[n]
  {
    hide Wire, Start;
    forall j | j in pr.arrived + pr.lost
      ensures j != at[n] && (events[n].Arrive? ==> j - at[n] <= ASSEMBLER_SLACK) && (Rising(at) ==> j < at[n])
    {
      Happened(events, at, n, j);
    }
  }

  /** A parcel completed by the newest arrival comes after every parcel already complete. */
  lemma DoneRises(parcels: seq<Parcel>, pr: Progress, u: nat, j: nat)
    requires AllLegal(parcels) && Done(parcels, pr) && Rising(pr.done) && At(parcels, u, j)
    requires forall k :: k in pr.arrived ==> k < j
    ensures Rising(pr.done + [u])
  {
    forall v | v in pr.done ensures v < u {
      assert Complete(parcels, v, pr.arrived);
      StartNext(parcels, v);
      assert At(parcels, v, Start(parcels, v + 1) - 1);
      if u < v { StartOrder(parcels, u + 1, v); }
    }
    hide At, Complete, Done;
    assert forall m :: 0 <= m < |pr.done| ==> pr.done[m] in pr.done;
  }

  lemma YieldsMore(parcels: seq<Parcel>, done: seq<nat>, u: nat)
    requires AllLegal(parcels) && Within(done, |parcels|) && u < |parcels|
    ensures Legal(parcels[u]) && Yields(parcels, done + [u]) == Yields(parcels, done) + Yield(parcels[u])
  {
    assert parcels[u] in parcels;
    assert (done + [u])[..|done|] == done;
  }

  lemma DoneWithin(parcels: seq<Parcel>, pr: Progress)
    requires AllLegal(parcels) && Done(parcels, pr)
    ensures Within(pr.done, |parcels|)
  {
    forall m | 0 <= m < |pr.done| ensures pr.done[m] < |parcels| {
      assert pr.done[m] in pr.done;
    }
  }

  /** One event: the state is tracked, and the frames out are those of the parcel it completed. */
  lemma Released1(parcels: seq<Parcel>, base: int, t: Table, pr: Progress, j: nat)
    requires Short(parcels) && Tracks(parcels, base, t, pr) && j < Total(parcels) && j !in pr.arrived
    ensures var next := Arrived(parcels, t.seen, pr, j);
            next.arrived == pr.arrived + {j} && next.lost == pr.lost && Within(pr.done, |parcels|)
            && Within(next.done, |parcels|)
            && Yields(parcels, next.done) == Yields(parcels, pr.done) + Released(parcels, pr.arrived, j)
            && (Rising(pr.done) && (forall k :: k in pr.arrived ==> k < j) ==> Rising(next.done))
  {
    hide Start, Newest, Mirrored, Fair, Remembered, Done, Complete, Reached, Yield, Legal, Yields, At, Rising;
    var u, now := ParcelAt(parcels, |parcels|, j), Now(parcels, pr, t.seen, j);
    assert now.arrived == pr.arrived && now.lost == pr.lost && now.done == pr.done;
    ReachedIs(parcels, now, u, j);
    DoneWithin(parcels, pr);
    YieldsMore(parcels, pr.done, u);
    if Rising(pr.done) && forall k :: k in pr.arrived ==> k < j { DoneRises(parcels, pr, u, j); }
  }

  /** Feeds an assembler everything that happens to the symbols of what was sent: out come the frames
      of exactly the parcels all of whose symbols arrived, each parcel once, and in order when the
      symbols came in order. */
  method Carry(a: Assembler, ghost parcels: seq<Parcel>, ghost base: int, events: seq<Event>, ghost at: seq<nat>)
    returns (out: seq<Frame>, ghost done: seq<nat>)
    requires a.View() == Table(map[], 0, false) && Short(parcels) && |at| == |events|
    requires Orderly(Wire(parcels, |parcels|), base, events, at)
    modifies a
    ensures forall u :: u in done <==> Complete(parcels, u, Came(events, at, |events|))
    ensures Distinct(done)
    ensures Rising(at) ==> Rising(done)
    ensures Within(done, |parcels|) && out == Yields(parcels, done)
  {
    hide AllLegal, Orderly, Newest, Mirrored, Fair, Remembered, Done, Complete, Yields, Rising, Arrival, Arrived;
    hide GivenUp, Wire, Start;
    ghost var pr := Progress({}, {}, 0, map[], []);
    StartTracks(parcels, base);
    out := [];
    var n := 0;
    while n < |events|
      invariant 0 <= n <= |events| && Tracks(parcels, base, a.View(), pr)
      invariant pr.arrived == Came(events, at, n) && pr.lost == Gone(events, at, n)
      invariant Within(pr.done, |parcels|) && out == Yields(parcels, pr.done)
      invariant Rising(at) ==> Rising(pr.done)
    {
      ghost var t, before := a.View(), out;
      Event1(parcels, base, events, at, n);
      Timely(parcels, base, events, at, n, t, pr);
      match events[n] {
        case Arrive(esi, vector) =>
          Released1(parcels, base, t, pr, at[n]);
          out := a.Arrived(esi, vector, out);
          ghost var frames :| Arrival(t, esi, vector, a.View(), frames) && out == before + frames;
          ArrivalTracks(parcels, base, t, pr, at[n], vector, a.View(), frames);
          pr := Arrived(parcels, t.seen, pr, at[n]);
        case Lose(esi) =>
          LossTracks(parcels, base, t, pr, at[n]);
          a.Lost(esi);
          GivenUpIs(parcels, t.seen, pr, at[n]);
          pr := GivenUp(parcels, t.seen, pr, at[n]);
      }
      n := n + 1;
    }
    done := pr.done;
    DoneIs(parcels, pr);
  }

  lemma Event1(parcels: seq<Parcel>, base: int, events: seq<Event>, at: seq<nat>, n: nat)
    requires AllLegal(parcels) && |at| == |events| && Orderly(Wire(parcels, |parcels|), base, events, at)
    requires n < |events|
    ensures at[n] < Total(parcels) && events[n].esi == Wrap(base + at[n])
    ensures events[n].Arrive? ==> Wire(parcels, |parcels|)[at[n]] <= events[n].vector
  {}

  lemma GivenUpIs(parcels: seq<Parcel>, seen: bool, pr: Progress, j: nat)
    requires AllLegal(parcels)
    ensures var next := GivenUp(parcels, seen, pr, j);
            next.arrived == pr.arrived && next.lost == pr.lost + {j} && next.done == pr.done
  {
    hide At;
  }

  lemma DoneIs(parcels: seq<Parcel>, pr: Progress)
    requires AllLegal(parcels) && Done(parcels, pr)
    ensures forall u :: u in pr.done <==> Complete(parcels, u, pr.arrived)
    ensures forall m, n :: 0 <= m < n < |pr.done| ==> pr.done[m] != pr.done[n]
  {}

  lemma StartTracks(parcels: seq<Parcel>, base: int)
    requires Short(parcels)
    ensures Tracks(parcels, base, Table(map[], 0, false), Progress({}, {}, 0, map[], []))
    ensures Yields(parcels, []) == [] && Rising([])
  {
    forall u: nat | u < |parcels| ensures Here(parcels, u, {}) == {} && !Complete(parcels, u, {}) {
      StartNext(parcels, u);
      assert At(parcels, u, Start(parcels, u));
    }
  }

  // ---------------------------------------------------------------- when everything arrives

  lemma {:induction false} YieldsWithout(parcels: seq<Parcel>, a: seq<nat>, u: nat, b: seq<nat>)
    requires AllLegal(parcels) && Within(a, |parcels|) && u < |parcels| && Within(b, |parcels|)
    ensures Legal(parcels[u])
    ensures multiset(Yields(parcels, a + [u] + b)) == multiset(Yields(parcels, a + b)) + multiset(Yield(parcels[u]))
  {
    hide Yield, Yields, AllLegal, Legal;
    if b == [] {
      YieldsMore(parcels, a, u);
      assert a + [u] + b == a + [u] && a + b == a;
    } else {
      var rest, last := b[..|b| - 1], b[|b| - 1];
      assert b == rest + [last];
      YieldsWithout(parcels, a, u, rest);
      YieldsMore(parcels, a + [u] + rest, last);
      YieldsMore(parcels, a + rest, last);
      assert a + [u] + b == (a + [u] + rest) + [last] && a + b == (a + rest) + [last];
    }
  }

  lemma {:induction false} ContentsPrefix(parcels: seq<Parcel>, n: nat)
    requires AllLegal(parcels) && Clean(parcels) && n < |parcels|
    ensures Legal(parcels[n]) && Contents(parcels[..n + 1]) == Contents(parcels[..n]) + Yield(parcels[n])
  {
    assert parcels[n] in parcels;
    YieldExact(parcels[n]);
    assert parcels[..n + 1] == parcels[..n] + [parcels[n]];
    ContentsAppend(parcels[..n], parcels[n]);
  }

  /** Every number below n, and no other. */
  ghost predicate AllBelow(s: seq<nat>, n: nat) {
    Within(s, n) && forall u: nat :: u < n ==> u in s
  }

  ghost predicate Distinct(s: seq<nat>) {
    forall m, n :: 0 <= m < n < |s| ==> s[m] != s[n]
  }

  lemma WithoutTop(s: seq<nat>, n: nat) returns (a: seq<nat>, b: seq<nat>)
    requires AllBelow(s, n + 1) && Distinct(s)
    ensures s == a + [n] + b && AllBelow(a + b, n) && Distinct(a + b)
    ensures Rising(s) ==> b == [] && a + b == a && Rising(a)
  {
    assert n in s;
    var k :| 0 <= k < |s| && s[k] == n;
    a, b := s[..k], s[k + 1..];
    assert s == a + [n] + b;
    if Rising(s) { RisingEnd(s, k); }
    hide Rising;
    Spliced(s, k);
  }

  lemma RisingEnd(s: seq<nat>, k: nat)
    requires k < |s| && AllBelow(s, s[k] + 1) && Rising(s)
    ensures k == |s| - 1 && Rising(s[..k])
  {
    var top, last := s[k], s[|s| - 1];
    assert k < |s| - 1 ==> top < last;
  }

  lemma Spliced(s: seq<nat>, k: nat)
    requires k < |s| && AllBelow(s, s[k] + 1) && Distinct(s)
    ensures AllBelow(s[..k] + s[k + 1..], s[k]) && Distinct(s[..k] + s[k + 1..])
  {
    var n, r := s[k], s[..k] + s[k + 1..];
    assert |r| == |s| - 1 && forall m :: 0 <= m < |r| ==> r[m] == s[if m < k then m else m + 1];
    forall u: nat | u < n ensures u in r {
      assert u in s;
      var m :| 0 <= m < |s| && s[m] == u;
      assert r[if m < k then m else m - 1] == u;
    }
    assert forall m :: 0 <= m < |r| ==> r[m] < n + 1 && r[m] != n;
  }

  lemma BelowWithin(s: seq<nat>, n: nat, m: nat)
    requires AllBelow(s, n) && n <= m
    ensures Within(s, m) && (n == 0 ==> s == [])
  {
    assert |s| > 0 ==> s[0] < n;
  }

  /** The first n parcels, done in any order, yield their frames. */
  lemma {:induction false} YieldsAll(parcels: seq<Parcel>, done: seq<nat>, n: nat)
    requires AllLegal(parcels) && Clean(parcels) && n <= |parcels| && AllBelow(done, n) && Distinct(done)
    ensures Within(done, |parcels|)
    ensures multiset(Yields(parcels, done)) == multiset(Contents(parcels[..n]))
    ensures Rising(done) ==> Yields(parcels, done) == Contents(parcels[..n])
    decreases n
  {
    hide Yield, AllLegal, Clean, Legal, AllBelow, Distinct, Yields, Within;
    BelowWithin(done, n, |parcels|);
    if n > 0 {
      var a, b := WithoutTop(done, n - 1);
      WithinBoth(a, b, n - 1);
      YieldsWithout(parcels, a, n - 1, b);
      YieldsAll(parcels, a + b, n - 1);
      ContentsPrefix(parcels, n - 1);
      if Rising(done) {
        assert done == a + [n - 1];
        YieldsMore(parcels, a, n - 1);
      }
    } else {
      NoYields(parcels);
    }
  }

  lemma NoYields(parcels: seq<Parcel>)
    requires AllLegal(parcels)
    ensures Within([], |parcels|) && Yields(parcels, []) == [] && Contents(parcels[..0]) == []
  {}

  lemma WithinBoth(a: seq<nat>, b: seq<nat>, n: nat)
    requires AllBelow(a + b, n)
    ensures forall m: nat :: n <= m ==> Within(a, m) && Within(b, m)
  {
    assert forall k :: 0 <= k < |a| ==> a[k] == (a + b)[k];
    assert forall k :: 0 <= k < |b| ==> b[k] == (a + b)[|a| + k];
  }

  /** The frame round trip: when every symbol arrives, in whatever order, every frame comes out exactly
      once, and in the order it was sent when the symbols came in order. */
  lemma RoundTrip(parcels: seq<Parcel>, events: seq<Event>, at: seq<nat>, done: seq<nat>, out: seq<Frame>)
    requires AllLegal(parcels) && Clean(parcels) && |events| == |at|
    requires forall j: nat :: j < Total(parcels) ==> j in Came(events, at, |events|)
    requires forall u :: u in done <==> Complete(parcels, u, Came(events, at, |events|))
    requires Distinct(done) && Within(done, |parcels|) && out == Yields(parcels, done)
    ensures multiset(out) == multiset(Contents(parcels))
    ensures Rising(done) ==> out == Contents(parcels)
  {
    var arrived := Came(events, at, |events|);
    EveryComplete(parcels, arrived);
    hide Yields, Clean, Rising, Contents, Distinct, Came, Complete, Start, AllLegal, Within;
    assert parcels[..|parcels|] == parcels;
    assert AllBelow(done, |parcels|);
    YieldsAll(parcels, done, |parcels|);
  }

  lemma EveryComplete(parcels: seq<Parcel>, arrived: set<nat>)
    requires AllLegal(parcels) && forall j: nat :: j < Total(parcels) ==> j in arrived
    ensures forall u: nat :: u < |parcels| ==> Complete(parcels, u, arrived)
  {
    forall u: nat | u < |parcels| ensures Complete(parcels, u, arrived) {
      StartOrder(parcels, u + 1, |parcels|);
    }
  }

  // ---------------------------------------------------------------- end to end

  /** A network that gives up nothing: every symbol put on the wire arrives once, in any order within
      the slack, perhaps with something behind it. */
  ghost predicate Faithful(wire: seq<seq<Byte>>, base: int, events: seq<Event>, at: seq<nat>) {
    && Orderly(wire, base, events, at) && |at| == |events|
    && (forall j: nat :: j < |wire| ==> j in at)
    && (forall n :: 0 <= n < |events| ==> events[n].Arrive?)
  }

  lemma {:induction false} AllCame(events: seq<Event>, at: seq<nat>, n: nat, m: nat)
    requires m < n <= |events| == |at| && forall k :: 0 <= k < |events| ==> events[k].Arrive?
    ensures at[m] in Came(events, at, n)
  {
    if m < n - 1 { AllCame(events, at, n - 1, m); }
  }

  /** Frames from one end to the other: whatever faithful network carries the symbols, the frames out
      are the frames sent, none of them stranded, as a multiset, and in order when the symbols came in
      order. */
  method Transfer(frames: seq<Frame>, limits: seq<nat>, base: uint32, network: seq<seq<Byte>> -> seq<Event>,
                  ghost places: seq<seq<Byte>> -> seq<nat>)
    returns (wire: seq<seq<Byte>>, out: seq<Frame>)
    requires |limits| == |frames|
    requires forall n ::
      0 <= n < |frames| ==>
        5 <= limits[n] < 0x1_0000 && |frames[n]| <= MAX_FRAME_BYTES && |frames[n]| <= MAX_SYMBOL_PARTS * limits[n]
    requires forall n :: 0 <= n < |frames| ==> !Stranded(frames[n], limits[n])
    requires forall w :: Faithful(w, base, network(w), places(w))
    ensures |wire| < HALF ==> multiset(out) == multiset(frames)
    ensures |wire| < HALF && Rising(places(wire)) ==> out == frames
  {
    hide Orderly, Clean, Contents, Yields, Rising, Complete, Stranded, Wire, Start, AllLegal;
    var p := new Packer();
    assert Clean(p.parcels) by { NothingStranded(); }
    var taken := p.Drain(frames, limits);
    assert frames[..taken] == frames && p.Carried() == Contents(p.parcels);
    wire := p.sent;
    out := [];
    if |wire| < HALF {
      var a := new Assembler();
      ghost var at := places(wire);
      var events := network(wire);
      ghost var done;
      assert Faithful(wire, base, events, at);
      WholeWire(p.parcels);
      out, done := Carry(a, p.parcels, base, events, at);
      forall j: nat | j < |wire| ensures j in Came(events, at, |events|) {
        assert j in at;
        var m :| 0 <= m < |at| && at[m] == j;
        AllCame(events, at, |events|, m);
      }
      RoundTrip(p.parcels, events, at, done, out);
    }
  }

  lemma NothingStranded()
    ensures Clean([])
  {}

  lemma WholeWire(parcels: seq<Parcel>)
    requires AllLegal(parcels) && |Wire(parcels, |parcels|)| < HALF
    ensures Short(parcels) && |Wire(parcels, |parcels|)| == Total(parcels)
  {}
}
