/** What a lost packet means (lossmodel.go): the online estimator and the offline analysis. */
module LossModel {
  import opened Markov
  import opened LossRounds
  import opened Gaps

  const MAX_DECIDED_PER_ARRIVAL := 8 * RING_SIZE

  datatype Config = Config(roundSamples: int, rounds: int, reorderTolerance: int)

  /** Every setting has a usable default, and the tolerance fits the ring. */
  function WithDefaults(c: Config): (d: Config)
    ensures d.roundSamples > 0 && d.rounds > 0 && 0 < d.reorderTolerance < RING_SIZE
    ensures c.roundSamples > 0 && c.rounds > 0 && 0 < c.reorderTolerance < RING_SIZE ==> d == c
  {
    Config(if c.roundSamples <= 0 then 2000 else c.roundSamples, if c.rounds <= 0 then 8 else c.rounds,
           if c.reorderTolerance <= 0 then 8
           else if c.reorderTolerance >= RING_SIZE then RING_SIZE - 1 else c.reorderTolerance)
  }

  /** Rounds of two thousand, eight rounds and a tolerance of eight, and the largest tolerance that fits the
      ring of 1024. */
  lemma Defaults()
    ensures WithDefaults(Config(0, -1, 0)) == Config(2000, 8, 8)
    ensures WithDefaults(Config(5, 6, 5000)) == Config(5, 6, 1023)
  {}

  /** A rate is kept a rate. */
  function Probability(v: real): (p: real)
    ensures 0.0 <= p <= 1.0 && (0.0 <= v <= 1.0 ==> p == v)
  {
    if !(v > 0.0) then 0.0 else if v > 1.0 then 1.0 else v
  }

  /** The round in progress and the losses of the rounds closed. */
  ghost predicate InRound(log: seq<Sample>, round: nat, closed: seq<real>, roundSamples: nat, roundLosses: nat) {
    && round > 0 && |log| == |closed| * round + roundSamples && roundSamples < round
    && |closed| * round >= 0 && roundLosses == Count(log, |closed| * round, |log|, Losses)
    && forall r: nat :: r < |closed| ==> Rate(log, round, r, closed[r])
  }

  /** How much of n trials k are. */
  function Share(k: nat, n: nat): (share: real)
    requires n > 0
    ensures share * n as real == k as real
  {
    k as real / n as real
  }

  /** The loss rate of the r-th round. */
  ghost predicate Rate(log: seq<Sample>, round: nat, r: nat, loss: real) {
    round > 0 && (r + 1) * round <= |log| && loss == Share(RoundCount(log, round, r, Losses), round)
  }

  lemma RateStays(log: seq<Sample>, log': seq<Sample>, round: nat, r: nat, loss: real)
    requires Rate(log, round, r, loss) && |log| <= |log'| && log'[..|log|] == log
    ensures Rate(log', round, r, loss)
  {
    Multiples(r, r + 1, round);
    var hi := (r + 1) * round;
    assert log[..hi] == log'[..|log|][..hi] == log'[..hi];
    CountSame(log, log', r * round, hi, Losses);
  }

  /** One more fate, and the round it leaves. */
  lemma InRoundMore(log: seq<Sample>, round: nat, closed: seq<real>, roundSamples: nat, roundLosses: nat, s: Sample)
    requires InRound(log, round, closed, roundSamples, roundLosses)
    ensures var (n, k) := (roundSamples + 1, roundLosses + (if s.arrived then 0 else 1));
            && (n < round ==> InRound(log + [s], round, closed, n, k) && |log + [s]| % round != 0)
            && (n == round ==> InRound(log + [s], round, closed + [Share(k, n)], 0, 0) && |log + [s]| % round == 0)
  {
    var log', c, n, k := log + [s], |closed|, roundSamples + 1, roundLosses + (if s.arrived then 0 else 1);
    assert log'[..|log|] == log;
    CountSame(log, log', c * round, |log|, Losses);
    assert Count(log', c * round, |log'|, Losses) == k;
    forall r: nat | r < c ensures Rate(log', round, r, closed[r]) { RateStays(log, log', round, r, closed[r]); }
    assert (c + 1) * round == c * round + round;
    if n == round {
      RoundEnd(c, |log'|, round);
      var closed' := closed + [Share(k, n)];
      assert Rate(log', round, c, closed'[c]);
    } else {
      WithinRound(c, |log'|, round);
    }
  }

  lemma WeightMore(log: seq<Sample>, s: Sample, round: nat, kind: Kind)
    requires round > 0
    ensures var w := Weight(log, |log|, round, kind) + (if Hit(log + [s], |log|, kind) then 1.0 else 0.0);
            Weight(log + [s], |log + [s]|, round, kind) == if |log + [s]| % round == 0 then w * DECAY else w
  {
    assert (log + [s])[..|log|] == log[..|log|];
    WeightSame(log, log + [s], |log|, round, kind);
  }

  /** The six counters. */
  datatype Tally = Tally(
    samples: real, losses: real, fromArrival: real, lossAfterArrival: real, fromLoss: real, arrivalAfterLoss: real)

  /** What the counters should be after everything logged. */
  ghost function Weighed(log: seq<Sample>, round: nat): Tally
    requires round > 0
  {
    Tally(Weight(log, |log|, round, All), Weight(log, |log|, round, Losses),
          Weight(log, |log|, round, FromArrival), Weight(log, |log|, round, LossAfterArrival),
          Weight(log, |log|, round, FromLoss), Weight(log, |log|, round, ArrivalAfterLoss))
  }

  function Bump(w: real, log: seq<Sample>, kind: Kind): real
    requires log != []
  {
    if Hit(log, |log| - 1, kind) then w + 1.0 else w
  }

  /** The counters once the last fate logged is counted. */
  function Bumped(t: Tally, log: seq<Sample>): Tally
    requires log != []
  {
    Tally(Bump(t.samples, log, All), Bump(t.losses, log, Losses), Bump(t.fromArrival, log, FromArrival),
          Bump(t.lossAfterArrival, log, LossAfterArrival), Bump(t.fromLoss, log, FromLoss),
          Bump(t.arrivalAfterLoss, log, ArrivalAfterLoss))
  }

  function Decayed(t: Tally): Tally {
    Tally(t.samples * DECAY, t.losses * DECAY, t.fromArrival * DECAY, t.lossAfterArrival * DECAY, t.fromLoss * DECAY,
          t.arrivalAfterLoss * DECAY)
  }

  lemma WeighedMore(log: seq<Sample>, s: Sample, round: nat)
    requires round > 0
    ensures var t := Bumped(Weighed(log, round), log + [s]);
            Weighed(log + [s], round) == if |log + [s]| % round == 0 then Decayed(t) else t
  {
    hide Hit, Weight;
    WeightMore(log, s, round, All); WeightMore(log, s, round, Losses);
    WeightMore(log, s, round, FromArrival); WeightMore(log, s, round, LossAfterArrival);
    WeightMore(log, s, round, FromLoss); WeightMore(log, s, round, ArrivalAfterLoss);
  }

  /** What is believed about the path. */
  datatype Snapshot = Snapshot(
    samples: real, loss: real, lossAfterArrival: real, arrivalAfterLoss: real, meanBurst: real, burstFactor: real,
    memoryless: bool,
    floor: real, recent: real, congestive: real, reordered: nat, decided: nat)

  /** How much longer the mean burst is than a memoryless channel's. */
  function Clustering(meanBurst: real, loss: real): real {
    var factor := meanBurst * (1.0 - loss);
    if factor < 1.0 then 1.0 else factor
  }

  /** The factor is one for losses no longer than a memoryless channel's, and otherwise how much longer. */
  lemma ClusteringIs(meanBurst: real, loss: real)
    ensures var c := Clustering(meanBurst, loss);
            && c >= 1.0 && c >= meanBurst * (1.0 - loss) && (c == 1.0 || c == meanBurst * (1.0 - loss))
    ensures Clustering(0.0, loss) == 1.0
  {
    assert 0.0 * (1.0 - loss) == 0.0;
  }

  const MIN_MEMORYLESS_SAMPLES := 200.0

  /** The squares of a difference and of three standard errors, compared. */
  predicate WithinNoise(after: real, loss: real, n: real) {
    (after - loss) * (after - loss) * n < 9.0 * (loss * (1.0 - loss))
  }

  /** The verdict needs enough transitions and a loss that is not certain either way. */
  predicate Memoryless(fromArrival: real, loss: real, after: real) {
    fromArrival >= MIN_MEMORYLESS_SAMPLES && 0.0 < loss < 1.0 && WithinNoise(after, loss, fromArrival)
  }

  /** Comparing squares is comparing with three standard errors, whose square is loss times arrival
      over the number of trials. */
  lemma ThreeSigma(after: real, loss: real, n: real, stderr: real)
    requires n > 0.0 && stderr > 0.0 && stderr * stderr * n == loss * (1.0 - loss)
    ensures WithinNoise(after, loss, n) <==> (if after >= loss then after - loss else loss - after) < 3.0 * stderr
  {
    var d := if after >= loss then after - loss else loss - after;
    assert (after - loss) * (after - loss) == d * d;
    SquaresOrdered(d, 3.0 * stderr);
    ScaledOrdered(d * d, 9.0 * (stderr * stderr), n);
    assert (3.0 * stderr) * (3.0 * stderr) == 9.0 * (stderr * stderr);
    assert 9.0 * (stderr * stderr) * n == 9.0 * (stderr * stderr * n);
  }

  lemma SquaresOrdered(a: real, b: real)
    requires a >= 0.0 && b > 0.0
    ensures a < b <==> a * a < b * b
  {
    assert b * b - a * a == (b - a) * (b + a);
    Signs(b - a, b + a);
  }

  lemma Signs(x: real, y: real)
    requires y > 0.0
    ensures x > 0.0 <==> x * y > 0.0
  {}

  lemma ScaledOrdered(a: real, b: real, n: real)
    requires n > 0.0
    ensures a < b <==> a * n < b * n
  {}

  function Quotient(a: real, b: real): real
    requires b > 0.0
  {
    a / b
  }

  lemma QuotientOf(a: real, b: real)
    requires b > 0.0
    ensures Quotient(a, b) * b == a && (0.0 <= a <= b ==> 0.0 <= Quotient(a, b) <= 1.0)
    ensures a > 0.0 ==> Quotient(a, b) > 0.0
  {}

  lemma WeighedRates(log: seq<Sample>, round: nat)
    requires round > 0
    ensures var t := Weighed(log, round);
            && 0.0 <= t.losses <= t.samples && 0.0 <= t.lossAfterArrival <= t.fromArrival
            && 0.0 <= t.arrivalAfterLoss <= t.fromLoss
            && (log == [] <==> t.samples == 0.0)
  {
    OutcomesWithinTrials(log, |log|, round);
  }

  lemma {:induction false} CountWithin(log: seq<Sample>, lo: nat, hi: nat, kind: Kind)
    requires lo <= hi <= |log|
    ensures Count(log, lo, hi, kind) <= hi - lo
  {
    if lo < hi { CountWithin(log, lo, hi - 1, kind); }
  }

  lemma RoundRates(log: seq<Sample>, round: nat, closed: seq<real>, roundSamples: nat, roundLosses: nat)
    requires InRound(log, round, closed, roundSamples, roundLosses)
    ensures forall r: nat :: r < |closed| ==> 0.0 <= closed[r] <= 1.0
    ensures roundSamples > 0 ==> 0.0 <= Share(roundLosses, roundSamples) <= 1.0
    ensures log != [] <==> closed != [] || roundSamples > 0
  {
    if closed != [] { Multiples(1, |closed|, round); }

    forall r: nat | r < |closed| ensures 0.0 <= closed[r] <= 1.0 {
      assert Rate(log, round, r, closed[r]);
      Multiples(r, r + 1, round);
      CountWithin(log, r * round, (r + 1) * round, Losses);
      assert (r + 1) * round == r * round + round;
      ShareWithin(RoundCount(log, round, r, Losses), round);
    }
    CountWithin(log, |closed| * round, |log|, Losses);
    if roundSamples > 0 { ShareWithin(roundLosses, roundSamples); }
    assert closed == [] ==> |closed| * round == 0;
  }

  lemma ShareWithin(k: nat, n: nat)
    requires n > 0 && k <= n
    ensures 0.0 <= Share(k, n) <= 1.0
  {}

  lemma RingUsed(rounds: seq<real>, at: nat, losses: seq<real>, size: nat)
    requires size > 0 && Ring(rounds, at, losses, size)
    ensures |rounds| == 0 <==> losses == []
  {}

  class Estimator {
    const round: nat
    const size: nat
    const tolerance: nat
    const arrived: array<bool>
    var next: nat
    var highest: nat
    var started: bool
    var discontinuities: nat
    var samples: real
    var losses: real
    var fromArrival: real
    var lossAfterArrival: real
    var fromLoss: real
    var arrivalAfterLoss: real
    var prevLost: bool
    var havePrev: bool
    var roundSamples: nat
    var roundLosses: nat
    var rounds: seq<real>
    var roundAt: nat
    var reordered: nat
    var decided: nat
    // Every fate recorded, and the loss rate of every round closed.
    ghost var log: seq<Sample>
    ghost var closed: seq<real>
    // Since the last restart: the arrivals, the first number of the numbering, the fates decided, and
    // what had been recorded before.
    ghost var history: seq<nat>
    ghost var base: nat
    ghost var fates: seq<bool>
    ghost var prior: seq<Sample>

    ghost function Counters(): Tally
      reads this`samples, this`losses, this`fromArrival, this`lossAfterArrival, this`fromLoss, this`arrivalAfterLoss
    {
      Tally(samples, losses, fromArrival, lossAfterArrival, fromLoss, arrivalAfterLoss)
    }

    /** The counters weigh what was recorded, and the ring holds the last rounds' losses. */
    ghost predicate Counted()
      reads this`samples, this`losses, this`fromArrival, this`lossAfterArrival, this`fromLoss, this`arrivalAfterLoss
      reads this`prevLost, this`havePrev, this`roundSamples, this`roundLosses, this`rounds, this`roundAt, this`decided
      reads this`log, this`closed
    {
      && round > 0 && size > 0 && decided == |log|
      && Counters() == Weighed(log, round)
      && (havePrev ==> log != [] && prevLost == !log[|log| - 1].arrived)
      && InRound(log, round, closed, roundSamples, roundLosses) && Ring(rounds, roundAt, closed, size)
    }

    /** The numbering is tracked, and its fates are what was recorded since it began. */
    ghost predicate Valid()
      reads this, arrived
    {
      && Counted() && 0 < tolerance < RING_SIZE && arrived.Length == RING_SIZE
      && log == prior + Chain(fates) && (havePrev <==> fates != [])
      && (!started ==> history == [] && fates == [] && decided == 0 && discontinuities == 0)
      && (!started ==> forall k :: 0 <= k < RING_SIZE ==> !arrived[k])
      && (started ==> Tracked(history, base, next, highest, fates, arrived[..], tolerance, decided))
    }

    constructor (c: Config)
      ensures Valid() && fresh(arrived) && !started && log == [] && prior == []
      ensures round == WithDefaults(c).roundSamples && size == WithDefaults(c).rounds
      ensures tolerance == WithDefaults(c).reorderTolerance
    {
      var d := WithDefaults(c);
      round, size, tolerance := d.roundSamples, d.rounds, d.reorderTolerance;
      arrived := new bool[RING_SIZE](_ => false);
      next, highest, started, discontinuities := 0, 0, false, 0;
      samples, losses, fromArrival, lossAfterArrival, fromLoss, arrivalAfterLoss := 0.0, 0.0, 0.0, 0.0, 0.0, 0.0;
      prevLost, havePrev, roundSamples, roundLosses, rounds, roundAt := false, false, 0, 0, [], 0;
      reordered, decided := 0, 0;
      log, closed, history, base, fates, prior := [], [], [], 0, [], [];
    }

    /** Counts one fate and the transition to it. */
    method Tick(came: bool)
      requires havePrev ==> log != [] && prevLost == !log[|log| - 1].arrived
      modifies this`samples, this`losses, this`fromArrival, this`lossAfterArrival, this`fromLoss, this`arrivalAfterLoss
      ensures Counters() == Bumped(old(Counters()), log + [Sample(came, havePrev)])
    {
      samples := samples + 1.0;
      if !came {
        losses := losses + 1.0;
      }
      if havePrev {
        if prevLost {
          fromLoss := fromLoss + 1.0;
          if came {
            arrivalAfterLoss := arrivalAfterLoss + 1.0;
          }
        } else {
          fromArrival := fromArrival + 1.0;
          if !came {
            lossAfterArrival := lossAfterArrival + 1.0;
          }
        }
      }
    }

    /** Records one fate. */
    method Record(came: bool)
      requires Counted()
      modifies this`samples, this`losses, this`fromArrival, this`lossAfterArrival, this`fromLoss, this`arrivalAfterLoss
      modifies this`prevLost, this`havePrev, this`roundSamples, this`roundLosses, this`rounds, this`roundAt
      modifies this`decided
      modifies this`log, this`closed
      ensures Counted() && havePrev
      ensures log == old(log) + [Sample(came, old(havePrev))]
    {
      hide InRound, Ring, Weighed, Bumped, Decayed, Share;
      ghost var s := Sample(came, havePrev);
      ghost var log' := log + [s];
      WeighedMore(log, s, round);
      InRoundMore(log, round, closed, roundSamples, roundLosses, s);
      InRoundSmall(log, round, closed, roundSamples, roundLosses);
      decided := decided + 1;
      Tick(came);
      prevLost, havePrev := !came, true;
      CountInRound(came);
      log := log';
    }

    /** Counts one fate in the round in progress, and closes the round when it is full. */
    method CountInRound(came: bool)
      requires size > 0 && Ring(rounds, roundAt, closed, size) && roundSamples < round
      modifies this`samples, this`losses, this`fromArrival, this`lossAfterArrival, this`fromLoss, this`arrivalAfterLoss
      modifies this`roundSamples, this`roundLosses, this`rounds, this`roundAt, this`closed
      ensures Ring(rounds, roundAt, closed, size)
      ensures var n, k := old(roundSamples) + 1, old(roundLosses) + (if came then 0 else 1);
              if n < round
              then roundSamples == n && roundLosses == k && closed == old(closed) && Counters() == old(Counters())
              else roundSamples == 0 && roundLosses == 0 && closed == old(closed) + [Share(k, n)]
                   && Counters() == Decayed(old(Counters()))
    {
      hide Ring, Decayed, Share;
      roundSamples := roundSamples + 1;
      if !came {
        roundLosses := roundLosses + 1;
      }
      if roundSamples >= round {
        CloseRound();
      }
    }

    /** Closes the round: its loss goes to the ring, and the counters decay. */
    method CloseRound()
      requires size > 0 && roundSamples > 0 && Ring(rounds, roundAt, closed, size)
      modifies this`samples, this`losses, this`fromArrival, this`lossAfterArrival, this`fromLoss, this`arrivalAfterLoss
      modifies this`roundSamples, this`roundLosses, this`rounds, this`roundAt, this`closed
      ensures closed == old(closed) + [Share(old(roundLosses), old(roundSamples))]
      ensures Ring(rounds, roundAt, closed, size) && roundSamples == 0 && roundLosses == 0
      ensures Counters() == Decayed(old(Counters()))
    {
      var loss := roundLosses as real / roundSamples as real;
      RingTurns(rounds, roundAt, closed, size, loss);
      RingSize(rounds, roundAt, closed, size);
      if |rounds| < size {
        rounds := rounds + [loss];
      } else {
        rounds := rounds[roundAt := loss];
        roundAt := Place(roundAt + 1, size);
      }
      closed := closed + [loss];
      hide Ring;
      roundSamples, roundLosses := 0, 0;
      samples, losses := samples * DECAY, losses * DECAY;
      fromArrival, lossAfterArrival := fromArrival * DECAY, lossAfterArrival * DECAY;
      fromLoss, arrivalAfterLoss := fromLoss * DECAY, arrivalAfterLoss * DECAY;
    }

    /** Numbers are being decided against the arrivals h. */
    ghost predicate Deciding(h: seq<nat>)
      reads this, arrived
    {
      && Counted() && arrived.Length == RING_SIZE && next == base + |fates|
      && Marks(arrived[..], next, h, base, tolerance) && Decided(fates, h, base, tolerance)
      && log == prior + Chain(fates) && (havePrev <==> fates != [])
    }

    /** Retires the lowest undecided number. */
    method Decide(ghost h: seq<nat>)
      requires Deciding(h) && !Timely(h, next + RING_SIZE, tolerance)
      modifies this`samples, this`losses, this`fromArrival, this`lossAfterArrival, this`fromLoss, this`arrivalAfterLoss
      modifies this`prevLost, this`havePrev, this`roundSamples, this`roundLosses, this`rounds, this`roundAt
      modifies this`decided
      modifies this`log, this`closed, this`next, this`fates, arrived
      ensures Deciding(h) && next == old(next) + 1 && decided == old(decided) + 1 && |fates| == old(|fates|) + 1
      ensures old(fates) <= fates
    {
      hide Counted, Marks, Decided, Chain, Timely;
      ghost var ring := arrived[..];
      var slot := Slot(next);
      DecidedMore(fates, h, base, tolerance, ring);
      MarksRetire(ring, next, h, base, tolerance);
      var came := arrived[slot];
      ChainMore(fates, came);
      CountedDecided();
      arrived[slot] := false;
      assert arrived[..] == ring[slot := false];
      next := next + 1;
      fates := fates + [came];
      Record(came);
      CountedDecided();
    }

    lemma CountedDecided()
      requires Counted()
      ensures decided == |log|
    {}

    /** Decides from the bottom until what is left spans less than the gap. */
    method DecideUntil(gap: nat, ghost h: seq<nat>)
      requires Deciding(h) && gap > 0 && next <= highest && forall m :: 0 <= m < |h| ==> h[m] < next + RING_SIZE
      modifies this`samples, this`losses, this`fromArrival, this`lossAfterArrival, this`fromLoss, this`arrivalAfterLoss
      modifies this`prevLost, this`havePrev, this`roundSamples, this`roundLosses, this`rounds, this`roundAt
      modifies this`decided
      modifies this`log, this`closed, this`next, this`fates, arrived
      ensures Deciding(h) && old(fates) <= fates && decided - |fates| == old(decided - |fates|)
      ensures next == if highest - old(next) >= gap then highest + 1 - gap else old(next)
    {
      hide Deciding, Timely;
      while highest - next >= gap
        invariant Deciding(h) && old(fates) <= fates && old(next) <= next <= highest
        invariant decided - |fates| == old(decided - |fates|)
        invariant next == old(next) || highest - next >= gap - 1
        decreases highest - next
      {
        BeyondPeak(h, next + RING_SIZE - 1, next + RING_SIZE, tolerance);
        Decide(h);
      }
    }

    /** Abandons the undecided window and begins again. */
    method Restart(seen: nat)
      requires arrived.Length == RING_SIZE
      modifies arrived, this`next, this`highest, this`havePrev, this`discontinuities, this`history, this`base
      modifies this`fates, this`prior
      ensures next == seen && highest == seen && !havePrev && discontinuities == old(discontinuities) + 1
      ensures forall k :: 0 <= k < RING_SIZE ==> !arrived[k]
      ensures base == seen && fates == [] && prior == log
    {
      forall k | 0 <= k < arrived.Length { arrived[k] := false; }
      next, highest := seen, seen;
      havePrev := false;
      discontinuities := discontinuities + 1;
      history, base, fates, prior := [], seen, [], log;
    }

    /** The arrival has been marked; numbers may be ready to be decided. */
    ghost predicate Pending()
      reads this, arrived
    {
      && Deciding(history) && started && 0 < tolerance < RING_SIZE
      && Waiting(history, base, next, highest, fates, tolerance, decided)
    }

    method First(seen: nat)
      requires Valid() && !started
      modifies arrived, this`next, this`highest, this`started, this`history, this`base
      ensures Valid() && started && history == [seen] && base == seen && next == seen && highest == seen
    {
      hide Counted, Slot, Timely, Marks, Decided;
      ghost var ring := arrived[..];
      FreshTracked(seen, ring, tolerance, decided);
      started := true;
      next, highest := seen, seen;
      arrived[Slot(seen)] := true;
      assert arrived[..] == ring[Slot(seen) := true];
      history, base := [seen], seen;
    }

    method Late(seen: nat)
      requires Valid() && started && seen < next && (decided > 0 || highest - seen >= RING_SIZE)
      modifies this`reordered, this`history
      ensures Valid() && history == old(history) + [seen] && reordered == old(reordered) + 1
    {
      hide Counted, Timely, Marks, Decided;
      LateTracked(history, base, next, highest, fates, arrived[..], tolerance, decided, seen);
      reordered := reordered + 1;
      history := history + [seen];
    }

    /** Nothing has been decided yet, so the numbering starts at the earlier number. */
    method Early(seen: nat)
      requires Valid() && started && seen < next && decided == 0 && highest - seen < RING_SIZE
      modifies arrived, this`next, this`history, this`base
      ensures Pending() && history == old(history) + [seen] && base == seen && next == seen && fates == []
    {
      hide Counted, Slot, Timely, Marks, Decided;
      ghost var ring := arrived[..];
      RebasedMarks(history, base, highest, ring, tolerance, seen);
      NothingDecided(history + [seen], seen, tolerance);
      next := seen;
      arrived[Slot(seen)] := true;
      assert arrived[..] == ring[Slot(seen) := true];
      history, base := history + [seen], seen;
    }

    /** A number too far ahead to be a gap: the numbering begins again there. */
    method Jump(seen: nat)
      requires Counted() && started && 0 < tolerance < RING_SIZE && arrived.Length == RING_SIZE
      modifies arrived, this`next, this`highest, this`havePrev, this`discontinuities, this`history, this`base
      modifies this`fates, this`prior
      ensures Pending() && history == [seen] && base == seen && fates == [] && prior == log
      ensures next == seen && highest == seen && discontinuities == old(discontinuities) + 1
    {
      hide Weighed, InRound, Ring, Slot, Timely, Marks, Decided, Chain;
      Restart(seen);
      ghost var ring := arrived[..];
      FreshTracked(seen, ring, tolerance, decided);
      ChainNone();
      arrived[Slot(seen)] := true;
      assert arrived[..] == ring[Slot(seen) := true];
      history := [seen];
    }

    /** A number not yet decided, or ahead of every number seen. */
    method Onward(seen: nat)
      requires Valid() && started && seen >= next
      modifies this, arrived
      ensures Pending()
      ensures if seen - old(next) > MAX_DECIDED_PER_ARRIVAL && seen > old(highest) then
                history == [seen] && base == seen && fates == [] && prior == log == old(log)
                && next == seen && highest == seen && discontinuities == old(discontinuities) + 1
              else
                history == old(history) + [seen] && base == old(base) && old(fates) <= fates && prior == old(prior)
                && highest == (if seen > old(highest) then seen else old(highest))
                && discontinuities == old(discontinuities)
                && old(next) <= next
      ensures reordered == old(reordered)
    {
      hide Counted, Slot, Timely, Marks, Decided, Chain, Pending;
      ghost var last, from := highest, next;
      PeakBelow(history, highest);
      if seen > highest {
        highest := seen;
      }
      if highest - next > MAX_DECIDED_PER_ARRIVAL {
        Jump(seen);
        return;
      }
      if highest - next >= RING_SIZE {
        DecideUntil(RING_SIZE, history);
      }
      Mark(seen, from, last);
    }

    /** Marks an arrival in the window. */
    method Mark(seen: nat, ghost from: nat, ghost last: nat)
      requires Deciding(history) && started && 0 < tolerance < RING_SIZE
      requires Peak(history, last) && base <= from <= last < from + tolerance
      requires highest == if seen > last then seen else last
      requires from <= next <= seen < next + RING_SIZE && highest < next + RING_SIZE
      requires Founded(history, base, last, fates, decided) && (fates != [] ==> next - 1 + tolerance <= highest)
      modifies arrived, this`history
      ensures Pending() && history == old(history) + [seen]
    {
      hide Counted, Slot, Timely, Marks, Decided, Chain;
      ghost var ring := arrived[..];
      MarkedTracked(history, base, from, last, ring, tolerance, decided, next, seen);
      DecidedStays(fates, history, base, tolerance, seen);
      arrived[Slot(seen)] := true;
      assert arrived[..] == ring[Slot(seen) := true];
      history := history + [seen];
    }

    /** Decides what the arrival has moved far enough behind. */
    method Settle()
      requires Pending()
      modifies this`samples, this`losses, this`fromArrival, this`lossAfterArrival, this`fromLoss, this`arrivalAfterLoss
      modifies this`prevLost, this`havePrev, this`roundSamples, this`roundLosses, this`rounds, this`roundAt
      modifies this`decided
      modifies this`log, this`closed, this`next, this`fates, arrived
      ensures Valid() && old(fates) <= fates
      ensures next == if highest - old(next) >= tolerance then highest + 1 - tolerance else old(next)
    {
      hide Counted, Marks, Decided, Timely, Chain;
      CountedDecided();
      DecideUntil(tolerance, history);
      CountedDecided();
    }

    /** The first number of the numbering came before any number the tolerance ahead of it. */
    ghost predicate Punctual()
      reads this`history, this`base
    {
      Timely(history, base, tolerance)
    }

    /** What one more arrival does to the timeliness of the first number. */
    lemma PunctualAfter(seen: nat)
      requires Valid() && started
      ensures Timely(history + [seen], base, tolerance) <==> Punctual()
      ensures seen < next && decided == 0 && highest - seen < RING_SIZE ==>
        (Timely(history + [seen], seen, tolerance) <==> highest - seen < tolerance)
    {
      hide Counted, Marks, Decided, Timely;
      BaseStays(history, base, tolerance, seen);
      if seen < next && decided == 0 && highest - seen < RING_SIZE {
        RebasedTimely(history, base, highest, arrived[..], tolerance, seen);
      }
    }

    /** Every number was recorded as arrived exactly when it was timely, if and only if the first
        number of the numbering, once decided, was. */
    lemma RecordedTimely()
      requires Valid() && started
      ensures (forall i :: 0 <= i < |fates| ==> (fates[i] <==> Timely(history, base + i, tolerance))) <==>
        fates == [] || Punctual()
    {
      hide Counted, Marks, Timely;
      FatesTimely(fates, history, base, tolerance);
    }

    /** One arrival. It makes the first number an untimely one exactly when it starts the numbering
        earlier from the tolerance or more behind. */
    method Observe(seen: nat)
      requires Valid()
      modifies this, arrived
      ensures Valid() && started
      ensures if !old(started) then history == [seen] && base == seen && fates == [] && log == old(log)
        else if seen < old(next) && (old(decided) > 0 || old(highest) - seen >= RING_SIZE) then
          history == old(history) + [seen] && base == old(base) && fates == old(fates) && log == old(log)
          && next == old(next) && highest == old(highest) && reordered == old(reordered) + 1
        else if Skips(old(next), old(highest), seen) then
          && history == [seen] && base == seen && fates == [] && prior == log == old(log)
          && discontinuities == old(discontinuities) + 1
        else
          && history == old(history) + [seen] && base == Rebased(old(base), old(next), seen)
          && old(fates) <= fates && prior == old(prior)
          && highest == (if seen > old(highest) then seen else old(highest))
      ensures Punctual() <==>
        (if !old(started) || Skips(old(next), old(highest), seen) then true
         else if Rebases(old(decided), old(next), old(highest), seen) then old(highest) - seen < tolerance
         else old(Punctual()))
    {
      hide Valid, Pending, Timely;
      ValidIs();
      if started { PunctualAfter(seen); }
      AloneTimely(seen, tolerance);
      if !started {
        First(seen);
        ValidIs();
        return;
      }
      if seen < next {
        if decided > 0 || highest - seen >= RING_SIZE {
          Late(seen);
          return;
        }
        Early(seen);
      } else {
        Onward(seen);
      }
      PendingIs();
      Settle();
      ValidIs();
    }

    /** Records a fate the transport already resolved. */
    method ObserveOutcome(came: bool)
      requires Counted()
      modifies this`samples, this`losses, this`fromArrival, this`lossAfterArrival, this`fromLoss, this`arrivalAfterLoss
      modifies this`prevLost, this`havePrev, this`roundSamples, this`roundLosses, this`rounds, this`roundAt
      modifies this`decided
      modifies this`log, this`closed
      ensures Counted() && log == old(log) + [Sample(came, old(havePrev))]
    {
      Record(came);
    }

    /** The lowest and the latest of the per-round losses; the round in progress counts once it is a
        quarter full, or when there is no other. */
    method Floor() returns (minimum: real, recent: real)
      requires Counted()
      ensures closed == [] && roundSamples == 0 ==> minimum == 0.0 && recent == 0.0
      ensures closed == [] && roundSamples > 0 ==> minimum == recent == Share(roundLosses, roundSamples)
      ensures closed != [] ==>
        && recent == (if roundSamples * 4 >= round then Share(roundLosses, roundSamples) else closed[|closed| - 1])
        && (forall r: nat :: |closed| - size <= r < |closed| ==> minimum <= closed[r]) && minimum <= recent
        && (minimum == recent || exists r: nat :: |closed| - size <= r < |closed| && minimum == closed[r])
    {
      hide Weighed, InRound, Ring;
      InRoundSmall(log, round, closed, roundSamples, roundLosses);
      RingUsed(rounds, roundAt, closed, size);
      if |rounds| == 0 {
        if roundSamples == 0 {
          return 0.0, 0.0;
        }
        var partial := roundLosses as real / roundSamples as real;
        return partial, partial;
      }
      minimum, recent := Extremes(rounds, roundAt, size, closed);
      if roundSamples * 4 >= round {
        recent := roundLosses as real / roundSamples as real;
        if recent < minimum {
          minimum := recent;
        }
      }
    }

    /** The rates of loss and of the transitions, and the mean length of a run of losses. No quotient needs
        to be cut down to a rate. */
    method Chances() returns (loss: real, after: real, again: real, mean: real)
      requires Counted() && samples > 0.0
      ensures 0.0 <= loss <= 1.0 && 0.0 <= after <= 1.0 && 0.0 <= again <= 1.0
      ensures loss * samples == losses
      ensures after * fromArrival == lossAfterArrival && again * fromLoss == arrivalAfterLoss
      ensures (fromArrival == 0.0 ==> after == 0.0) && (fromLoss == 0.0 ==> again == 0.0)
      ensures (again > 0.0 ==> mean * again == 1.0) && (again == 0.0 ==> mean == 0.0)
    {
      hide Weighed, InRound, Ring, Weight, Probability, Quotient;
      WeighedRates(log, round);
      loss, after, again, mean := Probability(Quotient(losses, samples)), 0.0, 0.0, 0.0;
      QuotientOf(losses, samples);
      if fromArrival > 0.0 {
        QuotientOf(lossAfterArrival, fromArrival);
        after := Probability(Quotient(lossAfterArrival, fromArrival));
      }
      if fromLoss > 0.0 {
        QuotientOf(arrivalAfterLoss, fromLoss);
        again := Probability(Quotient(arrivalAfterLoss, fromLoss));
        if again > 0.0 {
          QuotientOf(1.0, again);
          mean := Quotient(1.0, again);
        }
      }
    }

    /** The lowest and the latest loss of a round, and what the latest is above the lowest. */
    method Congestion() returns (floor: real, recent: real, congestive: real)
      requires Counted() && log != []
      ensures 0.0 <= floor <= recent <= 1.0 && congestive == recent - floor
      ensures closed == [] ==> roundSamples > 0 && floor == recent == Share(roundLosses, roundSamples)
      ensures closed != [] ==>
        && recent == (if roundSamples * 4 >= round then Share(roundLosses, roundSamples) else closed[|closed| - 1])
        && (forall r: nat :: |closed| - size <= r < |closed| ==> floor <= closed[r])
        && (floor == recent || exists r: nat :: |closed| - size <= r < |closed| && floor == closed[r])
    {
      hide Weighed, InRound, Ring, Probability, Share;
      RoundRates(log, round, closed, roundSamples, roundLosses);
      floor, recent := Floor();
      floor, recent := Probability(floor), Probability(recent);
      congestive := 0.0;
      if recent > floor {
        congestive := recent - floor;
      }
    }

    /** What is believed about the path. */
    method Summary() returns (s: Snapshot)
      requires Counted()
      ensures s.reordered == reordered && s.decided == decided && s.samples == samples
      ensures log == [] ==> s == Snapshot(0.0, 0.0, 0.0, 0.0, 0.0, 0.0, false, 0.0, 0.0, 0.0, reordered, decided)
      ensures log != [] ==>
        && samples > 0.0 && s.loss * samples == losses
        && s.lossAfterArrival * fromArrival == lossAfterArrival && s.arrivalAfterLoss * fromLoss == arrivalAfterLoss
        && (fromArrival == 0.0 ==> s.lossAfterArrival == 0.0) && (fromLoss == 0.0 ==> s.arrivalAfterLoss == 0.0)
      ensures log != [] ==>
        && (s.arrivalAfterLoss > 0.0 ==> s.meanBurst * s.arrivalAfterLoss == 1.0)
        && (s.arrivalAfterLoss == 0.0 ==> s.meanBurst == 0.0 && s.burstFactor == 1.0)
        && s.burstFactor >= 1.0 && s.burstFactor >= s.meanBurst * (1.0 - s.loss)
        && (s.burstFactor == 1.0 || s.burstFactor == s.meanBurst * (1.0 - s.loss))
      ensures log != [] && closed == [] ==> roundSamples > 0 && s.floor == s.recent == Share(roundLosses, roundSamples)
      ensures closed != [] ==>
        && s.recent == (if roundSamples * 4 >= round then Share(roundLosses, roundSamples) else closed[|closed| - 1])
        && (forall r: nat :: |closed| - size <= r < |closed| ==> s.floor <= closed[r])
        && (s.floor == s.recent || exists r: nat :: |closed| - size <= r < |closed| && s.floor == closed[r])
      ensures 0.0 <= s.floor <= s.recent <= 1.0 && s.congestive == s.recent - s.floor
      ensures s.memoryless <==> log != [] && Memoryless(fromArrival, s.loss, s.lossAfterArrival)
      ensures 0.0 <= s.loss <= 1.0 && 0.0 <= s.lossAfterArrival <= 1.0 && 0.0 <= s.arrivalAfterLoss <= 1.0
    {
      hide Weighed, InRound, Ring, Weight, Share, Clustering, Memoryless;
      WeighedRates(log, round);
      RoundRates(log, round, closed, roundSamples, roundLosses);
      s := Snapshot(samples, 0.0, 0.0, 0.0, 0.0, 0.0, false, 0.0, 0.0, 0.0, reordered, decided);
      if samples <= 0.0 {
        return;
      }
      var loss, after, again, mean := Chances();
      ClusteringIs(mean, loss);
      var floor, recent, congestive := Congestion();
      s := Snapshot(samples, loss, after, again, mean, Clustering(mean, loss), Memoryless(fromArrival, loss, after),
                    floor, recent, congestive, reordered, decided);
    }

    lemma ValidIs()
      requires Valid()
      ensures (!started ==> fates == [] && decided == 0) && log == prior + Chain(fates) && |Chain(fates)| == |fates|
      ensures started ==>
        next <= highest && highest - next < tolerance && (fates == [] <==> next == base) && base <= next
      ensures started && decided == 0 ==> fates == []
      ensures arrived.Length == RING_SIZE && tolerance > 0
    {
      hide Counted, Marks, Decided, Timely, Chain;
    }

    lemma ObservedOnce()
      requires Valid() && started && |history| == 1 && fates == [] && log == []
      ensures next == base && highest == history[0] && decided == 0 && base == history[0]
    {
      hide Counted, Marks, Decided, Timely;
      CountedDecided();
    }

    lemma ObservedMore()
      requires Valid() && started && highest >= base + tolerance
      ensures fates != [] && fates[0]
    {
      hide Counted, Marks, Timely;
      FatesTimely(fates, history, base, tolerance);
    }

    lemma PendingIs()
      requires Pending()
      ensures started && next <= highest
    {}
  }

  /** Too far ahead to be a gap: the numbering begins again. */
  predicate Skips(next: nat, highest: nat, seen: nat) {
    seen - next > MAX_DECIDED_PER_ARRIVAL && seen > highest
  }

  /** Before anything is decided an earlier number, not too far behind, starts the numbering. */
  predicate Rebases(decided: nat, next: nat, highest: nat, seen: nat) {
    decided == 0 && seen < next && highest - seen < RING_SIZE
  }

  lemma AloneTimely(seen: nat, tolerance: nat)
    requires tolerance > 0
    ensures Timely([seen], seen, tolerance)
  {
    assert [seen][0] == seen && InTime([seen], 0, tolerance);
  }

  /** The first number counts as arrived even when it came too late to be timely: 50 after 100, with a
      tolerance of 8 and nothing decided, becomes the first of the numbering. */
  method FirstNeedNotBeTimely() returns (e: Estimator)
    ensures e.Valid() && e.started && e.tolerance == 8 && e.history == [100, 50] && e.base == 50
    ensures e.fates != [] && e.fates[0] && !Timely(e.history, 50, 8)
  {
    hide Estimator.Valid, Timely, Estimator.Counted;
    e := new Estimator(Config(0, 0, 0));
    e.Observe(100);
    e.ObservedOnce();
    e.Observe(50);
    e.ObservedMore();
  }

  /** The base arrived, and until something is decided only numbers far behind came before it. */
  ghost predicate Founded(history: seq<nat>, base: nat, highest: nat, fates: seq<bool>, decided: nat) {
    && base in history && |fates| <= decided
    && (decided == 0 ==> forall m :: 0 <= m < |history| ==> history[m] >= base || history[m] + RING_SIZE <= highest)
  }

  /** What is known of a numbering while numbers wait to be decided. */
  ghost predicate Waiting(history: seq<nat>, base: nat, next: nat, highest: nat, fates: seq<bool>, tolerance: nat,
                          decided: nat) {
    && Peak(history, highest) && next <= highest < next + RING_SIZE && Founded(history, base, highest, fates, decided)
    && (fates != [] ==> next - 1 + tolerance <= highest)
  }

  lemma PeakBelow(history: seq<nat>, highest: nat)
    requires Peak(history, highest)
    ensures forall m :: 0 <= m < |history| ==> history[m] <= highest
  {}

  lemma ChainNone()
    ensures Chain([]) == []
  {}

  lemma NothingDecided(history: seq<nat>, base: nat, tolerance: nat)
    ensures Decided([], history, base, tolerance)
  {}

  lemma InRoundSmall(log: seq<Sample>, round: nat, closed: seq<real>, roundSamples: nat, roundLosses: nat)
    requires InRound(log, round, closed, roundSamples, roundLosses)
    ensures roundSamples < round
  {}

  lemma RingSize(rounds: seq<real>, at: nat, losses: seq<real>, size: nat)
    requires size > 0 && Ring(rounds, at, losses, size)
    ensures |rounds| <= size && (|rounds| == size ==> at < size)
  {
    PlaceSmall(|losses|, size);
  }
}
