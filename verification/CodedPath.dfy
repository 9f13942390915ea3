/** The coded path from end to end (coded.go): frames into symbols, symbols and repairs over a channel
    that erases, symbols back into frames. */
module CodedPath {
  import opened Wrappers
  import opened Ids
  import opened Framing
  import opened Packing
  import opened Assembly
  import opened Carriage
  import R = CarriageRuns
  import S = LinearSystem
  import D = DecoderSteps
  import W = Decoder
  import E = Encoder
  import Link
  import V = Conversation

  /** A source symbol that names more parts than any frame takes is turned away. */
  predicate Malformed(vector: seq<Byte>) {
    |vector| >= SYMBOL_HEADER && Read16(vector[4..]) > MAX_SYMBOL_PARTS
  }

  /** What was sent is never turned away. */
  lemma NeverMalformed(parcels: seq<Parcel>, j: nat, vector: seq<Byte>)
    requires AllLegal(parcels) && j < Total(parcels) && Wire(parcels, |parcels|)[j] <= vector
    ensures !Malformed(vector)
  {
    hide Start, Wire, Legal, Width, Share, Key;
    SymbolRead(parcels, 0, ParcelAt(parcels, |parcels|, j), j, vector);
  }

  // ---------------------------------------------------------------- the assembler's share

  /** The assembler is in step with the progress, and what came out is what the parcels done yield. */
  ghost predicate InStep(a: Assembler, parcels: seq<Parcel>, pr: Progress, out: seq<Frame>)
    requires AllLegal(parcels)
    reads a
  {
    Tracks(parcels, 0, a.View(), pr) && R.Within(pr.done, |parcels|) && out == R.Yields(parcels, pr.done)
  }

  /** A symbol, as it came or as it was recovered. */
  method Take(a: Assembler, ghost parcels: seq<Parcel>, ghost pr: Progress, esi: uint32, vector: seq<Byte>,
              before: seq<Frame>, ghost j: nat)
    returns (out: seq<Frame>, ghost pr': Progress)
    requires Short(parcels) && InStep(a, parcels, pr, before) && j < Total(parcels) && j !in pr.arrived + pr.lost
    requires pr.high in pr.arrived + pr.lost ==> pr.high - j <= ASSEMBLER_SLACK
    requires esi == Wrap(j) && Wire(parcels, |parcels|)[j] <= vector
    modifies a
    ensures InStep(a, parcels, pr', out) && pr'.arrived == pr.arrived + {j} && pr'.lost == pr.lost
  {
    hide AllLegal, Mirrored, Fair, Remembered, Done, Complete, R.Yields, Arrival, R.Arrived, Wire, Start, Newest;
    ghost var t := a.View();
    R.NewestOf(parcels, 0, t, pr);
    R.Released1(parcels, 0, t, pr, j);
    out := a.Arrived(esi, vector, before);
    ghost var frames :| Arrival(t, esi, vector, a.View(), frames) && out == before + frames;
    R.ArrivalTracks(parcels, 0, t, pr, j, vector, a.View(), frames);
    pr' := R.Arrived(parcels, t.seen, pr, j);
  }

  method GiveUp(a: Assembler, ghost parcels: seq<Parcel>, ghost pr: Progress, esi: uint32, ghost out: seq<Frame>,
                ghost j: nat)
    returns (ghost pr': Progress)
    requires Short(parcels) && InStep(a, parcels, pr, out) && j < Total(parcels) && j !in pr.arrived + pr.lost
    requires esi == Wrap(j)
    modifies a
    ensures InStep(a, parcels, pr', out) && pr'.arrived == pr.arrived && pr'.lost == pr.lost + {j}
  {
    hide AllLegal, Mirrored, Fair, Remembered, Done, Complete, R.Yields, R.GivenUp, Start, Newest, Noted, Dropped;
    ghost var t := a.View();
    R.LossTracks(parcels, 0, t, pr, j);
    a.Lost(esi);
    R.GivenUpIs(parcels, t.seen, pr, j);
    pr' := R.GivenUp(parcels, t.seen, pr, j);
  }

  // ---------------------------------------------------------------- one datagram

  /** The progress so far: what the fates held before, the positions named, and the first i of the new
      recoveries and c of the new losses. */
  ghost predicate Midway(pr: Progress, f: D.Fates, f': D.Fates, also: set<int>, i: nat, c: nat) {
    && |f.recovered| + i <= |f'.recovered| && |f.lost| + c <= |f'.lost|
    && (forall j: nat :: j in pr.arrived <==>
          j in f.known || j in also || j in f'.recovered[|f.recovered|..|f.recovered| + i])
    && (forall j: nat :: j in pr.lost <==> j in f.lost || j in f'.lost[|f.lost|..|f.lost| + c])
  }

  /** The progress is what the fates say. */
  ghost predicate Matched(pr: Progress, f: D.Fates) {
    (forall j: nat :: j in pr.arrived <==> j in f.known) && (forall j: nat :: j in pr.lost <==> j in f.lost)
  }

  lemma MidwayStart(pr: Progress, f: D.Fates, f': D.Fates)
    requires Matched(pr, f) && |f.recovered| <= |f'.recovered| && |f.lost| <= |f'.lost|
    ensures Midway(pr, f, f', {}, 0, 0)
  {}

  lemma MidwayEnd(pr: Progress, f: D.Fates, f': D.Fates, also: set<int>)
    requires D.Gains(f, f', also) && Midway(pr, f, f', also, |f'.recovered| - |f.recovered|, |f'.lost| - |f.lost|)
    ensures Matched(pr, f')
  {
    assert f'.recovered[|f.recovered|..|f'.recovered|] == f'.recovered[|f.recovered|..];
    assert f'.lost == f.lost + f'.lost[|f.lost|..|f'.lost|];
  }

  lemma MidwayRecovered(pr: Progress, f: D.Fates, f': D.Fates, also: set<int>, i: nat, pr': Progress)
    requires Midway(pr, f, f', also, i, 0) && |f.recovered| + i < |f'.recovered| && f'.recovered[|f.recovered| + i] >= 0
    requires pr'.arrived == pr.arrived + {f'.recovered[|f.recovered| + i]} && pr'.lost == pr.lost
    ensures Midway(pr', f, f', also, i + 1, 0)
  {
    var b := |f.recovered|;
    assert f'.recovered[b..b + (i + 1)] == f'.recovered[b..b + i] + [f'.recovered[b + i]];
  }

  lemma MidwayLost(pr: Progress, f: D.Fates, f': D.Fates, also: set<int>, i: nat, c: nat, pr': Progress)
    requires Midway(pr, f, f', also, i, c) && |f.lost| + c < |f'.lost| && f'.lost[|f.lost| + c] >= 0
    requires pr'.arrived == pr.arrived && pr'.lost == pr.lost + {f'.lost[|f.lost| + c]}
    ensures Midway(pr', f, f', also, i, c + 1)
  {
    var b := |f.lost|;
    assert f'.lost[b..b + (c + 1)] == f'.lost[b..b + c] + [f'.lost[b + c]];
  }

  /** A recovered position is new to the assembler and close enough to the newest. */
  lemma RecoveredNew(at: int, slots: seq<S.Slot>, pr: Progress, f: D.Fates, f': D.Fates, also: set<int>, i: nat)
    requires D.OneFate(at, slots, f') && D.Gains(f, f', also) && Midway(pr, f, f', also, i, 0)
    requires |f.recovered| + i < |f'.recovered|
    requires forall p :: p in also ==> p !in f'.recovered
    requires var q := f'.recovered[|f.recovered| + i]; 0 <= q && at <= q
    ensures var q := f'.recovered[|f.recovered| + i];
            q !in pr.arrived + pr.lost && (pr.high in pr.arrived + pr.lost ==> pr.high - q <= ASSEMBLER_SLACK)
  {
    var b, q := |f.recovered|, f'.recovered[|f.recovered| + i];
    assert q in f'.recovered[b..];
    assert q in f'.known && q !in f.known;
    var earlier := f'.recovered[b..b + i];
    forall m | 0 <= m < i ensures earlier[m] != q { assert f'.recovered[b + m] != q; }
    forall j: nat | j in pr.arrived + pr.lost ensures j < at + S.WIDTH {
      if j in pr.arrived {
        if j in f'.recovered[b..b + i] { assert j in f'.recovered[b..]; }
        assert j in f'.known;
      } else {
        LostStays(f, f', j);
      }
    }
    if q in pr.lost { LostStays(f, f', q); }
  }

  lemma LostStays(f: D.Fates, f': D.Fates, q: int)
    requires D.More(f, f') && q in f.lost
    ensures q in f'.lost
  {}

  /** So is a lost one. */
  lemma LostNew(at: int, slots: seq<S.Slot>, pr: Progress, f: D.Fates, f': D.Fates, also: set<int>, i: nat, c: nat)
    requires D.OneFate(at, slots, f') && D.Gains(f, f', also) && |f.recovered| + i == |f'.recovered|
    requires Midway(pr, f, f', also, i, c) && |f.lost| + c < |f'.lost| && 0 <= f'.lost[|f.lost| + c]
    ensures f'.lost[|f.lost| + c] !in pr.arrived + pr.lost
  {
    var b, q := |f.lost|, f'.lost[|f.lost| + c];
    assert q !in f'.known;
    assert f'.recovered[|f.recovered|..|f.recovered| + i] == f'.recovered[|f.recovered|..];
    forall m | 0 <= m < |f.lost| ensures f.lost[m] != q { assert f'.lost[m] == f.lost[m]; }
    var earlier := f'.lost[b..b + c];
    forall m | 0 <= m < c ensures earlier[m] != q { assert f'.lost[b + m] != q; }
  }

  /** What a datagram brings besides itself: the symbols it repaired, then those given up. */
  method Settle(a: Assembler, c: Link.Channel, ghost parcels: seq<Parcel>, ghost pr: Progress, d: D.Delivery,
                ghost f: D.Fates,
                ghost also: set<int>, before: seq<Frame>) returns (out: seq<Frame>, ghost pr': Progress)
    requires Short(parcels) && InStep(a, parcels, pr, before) && c.Valid() && |c.encoder.sent| <= Total(parcels)
    requires c.Honest(f, d, also) && c.decoder.stream == E.StreamOf(Wire(parcels, |parcels|)) && |c.encoder.sent| < HALF
    requires Midway(pr, f, c.decoder.fates, also, 0, 0) && forall p :: p in also ==> p !in c.decoder.fates.recovered
    modifies a
    ensures InStep(a, parcels, pr', out) && Matched(pr', c.decoder.fates)
  {
    hide InStep, Midway, Matched, Wire, Start, AllLegal, Wrap, Link.Whole, D.OneFate, Link.Channel.Valid, E.StreamOf;
    ghost var f' := c.decoder.fates;
    HonestIs(c, f, d, also);
    hide Link.Channel.Honest;
    out, pr' := before, pr;
    for i := 0 to |d.recovered|
      invariant InStep(a, parcels, pr', out) && Midway(pr', f, f', also, i, 0)
    {
      ghost var q := f'.recovered[|f.recovered| + i];
      RecoveredWhole(c, parcels, d, f, also, i);
      RecoveredNew(c.decoder.at, c.decoder.slots, pr', f, f', also, i);
      ghost var pr0 := pr';
      out, pr' := Take(a, parcels, pr', d.recovered[i].esi, d.recovered[i].vector, out, q);
      MidwayRecovered(pr0, f, f', also, i, pr');
    }
    for i := 0 to |d.lost|
      invariant InStep(a, parcels, pr', out) && Midway(pr', f, f', also, |d.recovered|, i)
    {
      LostNew(c.decoder.at, c.decoder.slots, pr', f, f', also, |d.recovered|, i);
      ghost var pr0 := pr';
      LostSent(c, f, d, also, i);
      pr' := GiveUp(a, parcels, pr', d.lost[i], out, f'.lost[|f.lost| + i]);
      MidwayLost(pr0, f, f', also, |d.recovered|, i, pr');
    }
    MidwayEnd(pr', f, f', also);
  }

  lemma HonestIs(c: Link.Channel, f: D.Fates, d: D.Delivery, also: set<int>)
    requires c.Valid() && c.Honest(f, d, also) && |c.encoder.sent| < HALF
    ensures var f' := c.decoder.fates;
            && D.Gains(f, f', also) && D.OneFate(c.decoder.at, c.decoder.slots, f') && |c.decoder.slots| == S.WIDTH
            && |f'.recovered| == |f.recovered| + |d.recovered| && |f'.lost| == |f.lost| + |d.lost|
            && forall i :: 0 <= i < |d.lost| ==> 0 <= f'.lost[|f.lost| + i] && d.lost[i] == Wrap(f'.lost[|f.lost| + i])
  {
    hide Wrap;
  }

  lemma RecoveredWhole(c: Link.Channel, parcels: seq<Parcel>, d: D.Delivery, f: D.Fates, also: set<int>, i: nat)
    requires c.Valid() && c.Honest(f, d, also) && i < |d.recovered|
    requires AllLegal(parcels) && |c.encoder.sent| <= Total(parcels)
    requires c.decoder.stream == E.StreamOf(Wire(parcels, |parcels|))
    ensures |c.decoder.fates.recovered| == |f.recovered| + |d.recovered|
    ensures var q := c.decoder.fates.recovered[|f.recovered| + i];
            && 0 <= q < Total(parcels) && c.decoder.at <= q && d.recovered[i].esi == Wrap(q)
            && Wire(parcels, |parcels|)[q] <= d.recovered[i].vector
  {
    hide Wire, Start, Wrap, AllLegal, Link.Channel.Valid;
    var ps := c.decoder.fates.recovered[|f.recovered|..];
    assert Link.Whole(d.recovered[i], c.decoder.stream, ps[i]);
    assert D.Reported(c.decoder.at, c.decoder.slots, c.decoder.fates.recovered[|f.recovered| + i], d.recovered[i]);
    WireLength(parcels);
  }

  lemma LostSent(c: Link.Channel, f: D.Fates, d: D.Delivery, also: set<int>, i: nat)
    requires c.Valid() && c.Honest(f, d, also) && i < |d.lost|
    ensures |c.decoder.fates.lost| == |f.lost| + |d.lost| && c.decoder.fates.lost[|f.lost| + i] < |c.encoder.sent|
  {}

  /** One step of the conversation, and what the receiver makes of it. */
  method Step(c: Link.Channel, a: Assembler, ghost capacity: int, actions: seq<V.Action>, n: nat,
              ghost parcels: seq<Parcel>, ghost pr: Progress, before: seq<Frame>)
    returns (out: seq<Frame>, ghost pr': Progress)
    requires n < |actions| && V.Audible(capacity, actions)
    requires c.decoder.stream == E.StreamOf(V.SentBy(actions, |actions|))
    requires c.Valid() && V.Follows(c, capacity, actions, n)
    requires Short(parcels) && Wire(parcels, |parcels|) == V.SentBy(actions, |actions|)
    requires InStep(a, parcels, pr, before) && Matched(pr, c.decoder.fates)
    requires forall p :: p in c.decoder.fates.known <==> V.Knowable(capacity, actions, n, p)
    modifies c.encoder, c.decoder, a
    ensures c.Valid() && V.Follows(c, capacity, actions, n + 1)
    ensures InStep(a, parcels, pr', out) && Matched(pr', c.decoder.fates)
    ensures forall p :: p in c.decoder.fates.known <==> V.Knowable(capacity, actions, n + 1, p)
  {
    hide InStep, Midway, Matched, Wire, Start, AllLegal, E.StreamOf, Wrap;
    hide V.SentBy, V.Follows, V.Brought, V.Brings, V.Knowable, Link.Channel.Valid, Link.Channel.Honest;
    V.FollowsSent(c, capacity, actions, n);
    ghost var f, p := c.decoder.fates, |c.encoder.sent|;
    var esi := NextIdentifier(c);
    V.NextSent(actions, n);
    V.SentPrefix(actions, n + 1, |actions|);
    WireLength(parcels); ShortWire(parcels);
    AllSent(c, pr);
    var d := V.Act(c, capacity, actions, n);
    V.FollowsSent(c, capacity, actions, n + 1);
    V.KnownKnowable(c, capacity, actions, n, f, d);
    HonestIs(c, f, d, V.Brought(actions, n));
    out, pr' := before, pr;
    MidwayStart(pr, f, c.decoder.fates);
    BroughtIs(actions, n);
    if actions[n].Send? && actions[n].arrives {
      NeverMalformed(parcels, p, actions[n].vector);
      out, pr' := Take(a, parcels, pr', esi, actions[n].vector, out, p);
      MidwayBrought(pr, f, c.decoder.fates, p, pr');
    }
    out, pr' := Settle(a, c, parcels, pr', d, f, V.Brought(actions, n), out);
  }

  lemma MidwayBrought(pr: Progress, f: D.Fates, f': D.Fates, p: nat, pr': Progress)
    requires Midway(pr, f, f', {}, 0, 0) && pr'.arrived == pr.arrived + {p} && pr'.lost == pr.lost
    ensures Midway(pr', f, f', {p}, 0, 0)
  {}

  lemma BroughtIs(actions: seq<V.Action>, n: nat)
    requires n < |actions|
    ensures V.Brought(actions, n) == if actions[n].Send? && actions[n].arrives then {|V.SentBy(actions, n)|} else {}
  {}

  /** Everything known or lost was sent; the next symbol is neither. */
  lemma AllSent(c: Link.Channel, pr: Progress)
    requires c.Valid() && Matched(pr, c.decoder.fates)
    ensures forall j :: j in pr.arrived + pr.lost ==> j < |c.encoder.sent|
  {
    hide W.WindowDecoder.Good, W.WindowDecoder.Room;
  }

  lemma ShortWire(parcels: seq<Parcel>)
    requires Short(parcels)
    ensures AllLegal(parcels) && Total(parcels) < HALF
  {}

  lemma WireLength(parcels: seq<Parcel>)
    requires AllLegal(parcels)
    ensures |Wire(parcels, |parcels|)| == Total(parcels)
  {}

  method NextIdentifier(c: Link.Channel) returns (esi: uint32)
    requires c.Valid()
    ensures esi == Wrap(|c.encoder.sent|)
  {
    esi := c.encoder.next;
  }

  // ---------------------------------------------------------------- from end to end

  lemma StartInStep(a: Assembler, parcels: seq<Parcel>) returns (pr: Progress)
    requires AllLegal(parcels) && |Wire(parcels, |parcels|)| < HALF && a.View() == Table(map[], 0, false)
    ensures Short(parcels) && InStep(a, parcels, pr, []) && Matched(pr, D.NoFates)
  {
    pr := Progress({}, {}, 0, map[], []);
    hide Tracks, Start, Wire;
    WireLength(parcels);
    R.StartTracks(parcels, 0);
  }

  /** The receiver's side of a whole conversation: what is put out is what the parcels yield whose
      symbols could all be known, each once. */
  method Listen(capacity: int, actions: seq<V.Action>, ghost parcels: seq<Parcel>)
    returns (out: seq<Frame>, ghost done: seq<nat>, ghost known: set<nat>)
    requires AllLegal(parcels) && |Wire(parcels, |parcels|)| < HALF
    requires V.Audible(capacity, actions) && V.SentBy(actions, |actions|) == Wire(parcels, |parcels|)
    ensures forall p: nat :: p in known <==> V.Knowable(capacity, actions, |actions|, p)
    ensures forall u :: u in done <==> Complete(parcels, u, known)
    ensures R.Distinct(done) && R.Within(done, |parcels|) && out == R.Yields(parcels, done)
  {
    hide Wire, Start, AllLegal, InStep, Matched, Complete, E.StreamOf, Link.Channel.Valid;
    hide V.SentBy, V.Follows, V.Audible, V.Knowable, V.Top, V.HeldAt, V.RingAt, V.Accepted;
    ghost var sent := V.SentBy(actions, |actions|);
    var c := new Link.Channel(capacity, E.StreamOf(sent));
    var a := new Assembler();
    ghost var pr := StartInStep(a, parcels);
    V.Start(c, capacity, actions, E.StreamOf(sent));
    out := [];
    var n := 0;
    while n < |actions|
      invariant 0 <= n <= |actions| && fresh(c.encoder) && fresh(c.decoder) && fresh(a)
      invariant c.decoder.stream == E.StreamOf(sent)
      invariant c.Valid() && V.Follows(c, capacity, actions, n)
      invariant InStep(a, parcels, pr, out) && Matched(pr, c.decoder.fates)
      invariant forall p :: p in c.decoder.fates.known <==> V.Knowable(capacity, actions, n, p)
    {
      out, pr := Step(c, a, capacity, actions, n, parcels, pr, out);
      n := n + 1;
    }
    done, known := pr.done, pr.arrived;
    EndInStep(a, parcels, pr, out, c.decoder.fates);
  }

  lemma EndInStep(a: Assembler, parcels: seq<Parcel>, pr: Progress, out: seq<Frame>, f: D.Fates)
    requires AllLegal(parcels) && InStep(a, parcels, pr, out) && Matched(pr, f)
    ensures forall p: nat :: p in pr.arrived <==> p in f.known
    ensures forall u :: u in pr.done <==> Complete(parcels, u, pr.arrived)
    ensures R.Distinct(pr.done) && R.Within(pr.done, |parcels|) && out == R.Yields(parcels, pr.done)
  {
    hide Complete, Start, Mirrored, Fair, Remembered, Newest, R.Yields;
    R.DoneIs(parcels, pr);
  }

  /** Parcels each done at most once yield no frame more often than it was put in. */
  lemma {:induction false} YieldsSome(parcels: seq<Parcel>, done: seq<nat>, n: nat)
    requires AllLegal(parcels) && Clean(parcels) && n <= |parcels| && R.Within(done, n) && R.Distinct(done)
    ensures R.Within(done, |parcels|)
    ensures multiset(R.Yields(parcels, done)) <= multiset(Contents(parcels[..n]))
    decreases n
  {
    hide Yield, AllLegal, Clean, Legal, R.Yields;
    assert R.Within(done, |parcels|);
    if n == 0 {
      R.NoYields(parcels);
      NoneWithin(done);
    } else {
      R.ContentsPrefix(parcels, n - 1);
      if k :| 0 <= k < |done| && done[k] == n - 1 {
        var a, b := done[..k], done[k + 1..];
        SplitAt(done, k, n);
        R.YieldsWithout(parcels, a, n - 1, b);
        YieldsSome(parcels, a + b, n - 1);
      } else {
        YieldsSome(parcels, done, n - 1);
      }
    }
  }

  lemma NoneWithin(s: seq<nat>)
    requires R.Within(s, 0)
    ensures s == []
  {
    var first := if |s| > 0 then s[0] else 0;
    assert |s| > 0 ==> first < 0;
  }

  lemma SplitAt(s: seq<nat>, k: nat, n: nat)
    requires R.Within(s, n) && R.Distinct(s) && k < |s| && s[k] == n - 1
    ensures s == s[..k] + [n - 1] + s[k + 1..]
    ensures R.Within(s[..k] + s[k + 1..], n - 1) && R.Distinct(s[..k] + s[k + 1..])
    ensures forall m: nat :: n <= m ==> R.Within(s[..k], m) && R.Within(s[k + 1..], m)
  {
    forall m: nat | n <= m ensures R.Within(s[..k], m) && R.Within(s[k + 1..], m) {}
    var r := s[..k] + s[k + 1..];
    assert forall m :: 0 <= m < |r| ==> r[m] == s[if m < k then m else m + 1];
  }

  /** Every symbol of the parcel could be known: it arrived, or while it was in the receiver's window
      what had arrived determined it. */
  ghost predicate Obtainable(parcels: seq<Parcel>, capacity: int, actions: seq<V.Action>, u: nat)
    requires AllLegal(parcels)
  {
    u < |parcels| && forall j: nat :: At(parcels, u, j) ==> V.Knowable(capacity, actions, |actions|, j)
  }

  /** Frames over a channel that erases but keeps order, whatever is erased, however often repairs are
      sent and however the window is resized or dropped: what is put out is what the parcels sent
      yield, each once, whose symbols could all be known. So no frame is put out that was not sent, nor
      more often than it was, and when every symbol could be known every frame is. */
  method TransferOverErasures(frames: seq<Frame>, limits: seq<nat>, capacity: int,
                              plan: seq<seq<Byte>> -> seq<V.Action>)
    returns (wire: seq<seq<Byte>>, out: seq<Frame>, ghost parcels: seq<Parcel>, ghost done: seq<nat>)
    requires |limits| == |frames|
    requires forall n :: 0 <= n < |frames| ==>
      5 <= limits[n] < 0x1_0000 && |frames[n]| <= MAX_FRAME_BYTES && |frames[n]| <= MAX_SYMBOL_PARTS * limits[n]
    requires forall n :: 0 <= n < |frames| ==> !Stranded(frames[n], limits[n])
    requires forall w :: V.Audible(capacity, plan(w)) && V.SentBy(plan(w), |plan(w)|) == w
    ensures AllLegal(parcels) && wire == Wire(parcels, |parcels|) && Contents(parcels) == frames
    ensures |wire| < HALF ==> R.Distinct(done) && forall u ::
      u in done <==> Obtainable(parcels, capacity, plan(wire), u)
    ensures |wire| < HALF ==> R.Within(done, |parcels|) && out == R.Yields(parcels, done)
    ensures |wire| < HALF ==> multiset(out) <= multiset(frames)
    ensures |wire| < HALF && (forall p: nat :: p < |wire| ==> V.Knowable(capacity, plan(wire), |plan(wire)|, p)) ==>
      multiset(out) == multiset(frames)
  {
    hide Clean, Contents, Stranded, Wire, Start, AllLegal, Legal, Complete, Obtainable;
    hide R.Yields, R.Distinct, R.Within, V.SentBy, V.Audible, V.Knowable;
    var p := new Packer();
    assert Clean(p.parcels) by { R.NothingStranded(); }
    var taken := p.Drain(frames, limits);
    assert frames[..taken] == frames && p.Carried() == Contents(p.parcels);
    wire, out, parcels, done := p.sent, [], p.parcels, [];
    if |wire| < HALF {
      ghost var known;
      assert V.Audible(capacity, plan(wire)) && V.SentBy(plan(wire), |plan(wire)|) == wire;
      out, done, known := Listen(capacity, plan(wire), parcels);
      CompleteObtainable(parcels, capacity, plan(wire), known);
      Delivered(parcels, done, out, known, |wire|);
    }
  }

  lemma CompleteObtainable(parcels: seq<Parcel>, capacity: int, actions: seq<V.Action>, known: set<nat>)
    requires AllLegal(parcels) && forall p: nat :: p in known <==> V.Knowable(capacity, actions, |actions|, p)
    ensures forall u: nat :: Complete(parcels, u, known) <==> Obtainable(parcels, capacity, actions, u)
  {
    hide At, V.Knowable;
  }

  lemma Delivered(parcels: seq<Parcel>, done: seq<nat>, out: seq<Frame>, known: set<nat>, n: nat)
    requires AllLegal(parcels) && Clean(parcels) && n == |Wire(parcels, |parcels|)|
    requires forall u :: u in done <==> Complete(parcels, u, known)
    requires R.Distinct(done) && R.Within(done, |parcels|) && out == R.Yields(parcels, done)
    ensures multiset(out) <= multiset(Contents(parcels))
    ensures (forall p: nat :: p < n ==> p in known) ==> multiset(out) == multiset(Contents(parcels))
  {
    hide Clean, Contents, Wire, Start, AllLegal, Complete, R.Yields, R.Distinct, R.Within;
    assert parcels[..|parcels|] == parcels;
    YieldsSome(parcels, done, |parcels|);
    WireLength(parcels);
    if forall p: nat :: p < n ==> p in known {
      R.EveryComplete(parcels, known);
      BelowAll(done, |parcels|);
      R.YieldsAll(parcels, done, |parcels|);
    }
  }

  lemma BelowAll(done: seq<nat>, n: nat)
    requires R.Within(done, n) && forall u: nat :: u < n ==> u in done
    ensures R.AllBelow(done, n)
  {}
}
