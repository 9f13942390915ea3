/** The loss pattern of a finished run, every fate known (lossmodel.go). */
module LossAnalysis {
  import opened Markov
  import opened LossModel

  /** A quotient as the machine's arithmetic has it: without a divisor it is infinite or undefined. */
  datatype Extended = Finite(value: real) | Infinite | Undefined

  datatype Pattern = Pattern(
    total: nat, lost: nat, loss: real, lossAfterArrival: real, arrivalAfterLoss: real,
    meanBurst: Extended, burstFactor: Extended, longestBurst: nat, bursts: map<nat, nat>)

  /** The lengths of the loss runs that have ended, in order, and the length of the one still open. */
  function Runs(arrived: seq<bool>): (seq<nat>, nat) {
    if arrived == [] then ([], 0)
    else
      var (runs, open) := Runs(arrived[..|arrived| - 1]);
      if !arrived[|arrived| - 1] then (runs, open + 1) else if open > 0 then (runs + [open], 0) else (runs, 0)
  }

  function Sum(s: seq<nat>): nat { if s == [] then 0 else Sum(s[..|s| - 1]) + s[|s| - 1] }

  /** How many of the runs there are of each length. */
  ghost predicate Histogram(bursts: map<nat, nat>, runs: seq<nat>) {
    forall k: nat :: (k in bursts <==> multiset(runs)[k] > 0) && (k in bursts ==> bursts[k] == multiset(runs)[k])
  }

  ghost predicate Longest(longest: nat, runs: seq<nat>) {
    (forall k :: k in runs ==> k <= longest) && (runs == [] ==> longest == 0) && (runs != [] ==> longest in runs)
  }

  /** The runs account for every loss, and every ended run for one arrival after a loss. */
  lemma {:induction false} RunsAccount(arrived: seq<bool>)
    ensures var (runs, open) := Runs(arrived); var (log, n) := (Chain(arrived), |arrived|);
            && Sum(runs) + open == Count(log, 0, n, Losses) && |runs| == Count(log, 0, n, ArrivalAfterLoss)
            && Count(log, 0, n, FromLoss) == Count(log, 0, n, Losses) - (if open > 0 then 1 else 0)
            && (open > 0 <==> arrived != [] && !arrived[n - 1]) && (forall k :: k in runs ==> k > 0)
  {
    var n := |arrived|;
    if n > 0 {
      hide Count;
      var before, last := arrived[..n - 1], arrived[n - 1];
      RunsAccount(before);
      LastCounted(arrived, Losses); LastCounted(arrived, FromLoss); LastCounted(arrived, ArrivalAfterLoss);
      var (runs, open) := Runs(before);
      assert (runs + [open])[..|runs|] == runs;
      assert n > 1 ==> before[n - 2] == arrived[n - 2];
    } else {
      NoneCounted();
    }
  }

  /** Every run but one at the start accounts for a loss after an arrival, and every fate but the first
      follows an arrival or a loss. */
  lemma {:induction false} StartsAccount(arrived: seq<bool>)
    ensures var (runs, open) := Runs(arrived); var (log, n) := (Chain(arrived), |arrived|);
            && Count(log, 0, n, LossAfterArrival) + (if n > 0 && !arrived[0] then 1 else 0) ==
                 |runs| + (if open > 0 then 1 else 0)
            && Count(log, 0, n, FromArrival) + Count(log, 0, n, FromLoss) == (if n > 0 then n - 1 else 0)
  {
    var n := |arrived|;
    if n > 0 {
      hide Count, Runs;
      var before := arrived[..n - 1];
      StartsAccount(before);
      RunsAccount(before); RunsNext(arrived);
      LastCounted(arrived, FromLoss); LastCounted(arrived, FromArrival); LastCounted(arrived, LossAfterArrival);
      assert n > 1 ==> before[n - 2] == arrived[n - 2] && before[0] == arrived[0];
    } else {
      NoneCounted();
    }
  }

  lemma RunsNext(arrived: seq<bool>)
    requires arrived != []
    ensures var (runs, open) := Runs(arrived[..|arrived| - 1]); var (runs', open') := Runs(arrived);
            if !arrived[|arrived| - 1] then |runs'| == |runs| && open' == open + 1
            else open' == 0 && |runs'| == |runs| + (if open > 0 then 1 else 0)
  {}

  lemma LastCounted(arrived: seq<bool>, kind: Kind)
    requires arrived != []
    ensures var n := |arrived|;
            Count(Chain(arrived), 0, n, kind) == Count(Chain(arrived[..n - 1]), 0, n - 1, kind)
              + (if Hit(Chain(arrived), n - 1, kind) then 1 else 0)
  {
    var n := |arrived|;
    var log, less := Chain(arrived), Chain(arrived[..n - 1]);
    assert log[..n - 1] == less == less[..n - 1];
    CountSame(log, less, 0, n - 1, kind);
  }

  lemma NoneCounted()
    ensures forall kind: Kind :: Count(Chain([]), 0, 0, kind) == 0
  {}

  /** With no run open at the end, the mean burst reported is the mean length of the loss runs. */
  lemma MeanBurstIsMean(arrived: seq<bool>)
    requires Runs(arrived).1 == 0 && Runs(arrived).0 != []
    ensures var (log, n) := (Chain(arrived), |arrived|); var runs := Runs(arrived).0;
            Count(log, 0, n, FromLoss) == Sum(runs) > 0 && Count(log, 0, n, ArrivalAfterLoss) == |runs|
  {
    RunsAccount(arrived);
    var runs := Runs(arrived).0;
    assert runs[|runs| - 1] in runs;
  }

  lemma {:induction false} CountSplit(log: seq<Sample>, lo: nat, hi: nat, kind: Kind)
    requires lo <= hi <= |log|
    ensures Count(log, 0, hi, kind) == Count(log, 0, lo, kind) + Count(log, lo, hi, kind)
  {
    hide Hit;
    if lo < hi { CountSplit(log, lo, hi - 1, kind); }
  }

  // ---------------------------------------------------------------- online and offline

  /** The fates logged, parted where the fate before is not known: before the first, and at every
      discontinuity. */
  function Stretches(log: seq<Sample>): (runs: seq<seq<bool>>)
    ensures log == [] <==> runs == []
  {
    if log == [] then []
    else
      var before, s := Stretches(log[..|log| - 1]), log[|log| - 1];
      if s.chained && before != [] then before[..|before| - 1] + [before[|before| - 1] + [s.arrived]]
      else before + [[s.arrived]]
  }

  /** What the offline analysis counts in the stretches, one after the other. */
  ghost function AnalyzedAll(runs: seq<seq<bool>>, kind: Kind): nat {
    if runs == [] then 0
    else
      var last := runs[|runs| - 1];
      AnalyzedAll(runs[..|runs| - 1], kind) + Count(Chain(last), 0, |last|, kind)
  }

  /** What the offline analysis counts in the first n fates. */
  ghost function Analyzed(log: seq<Sample>, n: nat, kind: Kind): nat
    requires n <= |log|
  {
    AnalyzedAll(Stretches(log[..n]), kind)
  }

  lemma AnalyzedOneMore(runs: seq<seq<bool>>, run: seq<bool>, kind: Kind)
    ensures AnalyzedAll(runs + [run], kind) == AnalyzedAll(runs, kind) + Count(Chain(run), 0, |run|, kind)
  {
    assert (runs + [run])[..|runs|] == runs;
  }

  lemma StretchEnds(log: seq<Sample>)
    requires log != []
    ensures var runs := Stretches(log); var last := runs[|runs| - 1];
            last != [] && last[|last| - 1] == log[|log| - 1].arrived
  {
    var before, s, runs := Stretches(log[..|log| - 1]), log[|log| - 1], Stretches(log);
    hide Stretches;
    if s.chained && before != [] {
      assert runs[|runs| - 1] == before[|before| - 1] + [s.arrived];
    } else {
      assert runs[|runs| - 1] == [s.arrived];
    }
  }

  /** Of any log the stretches, analyzed offline, give the same counts as the log itself. */
  lemma {:induction false} AnalyzedIs(log: seq<Sample>, kind: Kind)
    ensures AnalyzedAll(Stretches(log), kind) == Count(log, 0, |log|, kind)
  {
    hide Hit, Chain, Count, AnalyzedAll;
    var n := |log|;
    if n == 0 {
      NoneLogged(kind);
    } else {
      var before, s, runs := log[..n - 1], log[n - 1], Stretches(log[..n - 1]);
      AnalyzedIs(before, kind);
      LastLogged(log, kind);
      if s.chained && runs != [] {
        StretchEnds(before);
        var front, last := runs[..|runs| - 1], runs[|runs| - 1];
        StretchMore(log, last, kind);
        assert runs == front + [last];
        AnalyzedOneMore(front, last, kind); AnalyzedOneMore(front, last + [s.arrived], kind);
      } else {
        AnalyzedOneMore(runs, [s.arrived], kind);
        FirstCounted(log, kind);
      }
    }
  }

  lemma NoneLogged(kind: Kind)
    ensures AnalyzedAll([], kind) == 0 == Count([], 0, 0, kind)
  {}

  lemma LastLogged(log: seq<Sample>, kind: Kind)
    requires log != []
    ensures var n := |log|;
            Count(log, 0, n, kind) == Count(log[..n - 1], 0, n - 1, kind) + (if Hit(log, n - 1, kind) then 1 else 0)
  {
    var n := |log|;
    assert log[..n - 1][..n - 1] == log[..n - 1];
    CountSame(log[..n - 1], log, 0, n - 1, kind);
  }

  lemma StretchMore(log: seq<Sample>, last: seq<bool>, kind: Kind)
    requires |log| > 1 && log[|log| - 1].chained && last != [] && last[|last| - 1] == log[|log| - 2].arrived
    ensures var n, more := |log|, last + [log[|log| - 1].arrived];
            Count(Chain(more), 0, |more|, kind) == Count(Chain(last), 0, |last|, kind)
              + (if Hit(log, n - 1, kind) then 1 else 0)
  {
    var more := last + [log[|log| - 1].arrived];
    assert more[..|last|] == last;
    LastCounted(more, kind);
  }

  lemma FirstCounted(log: seq<Sample>, kind: Kind)
    requires log != [] && (log[|log| - 1].chained ==> |log| == 1)
    ensures Count(Chain([log[|log| - 1].arrived]), 0, 1, kind) == if Hit(log, |log| - 1, kind) then 1 else 0
  {
    NoneCounted();
    assert [log[|log| - 1].arrived][..0] == [];
    LastCounted([log[|log| - 1].arrived], kind);
  }

  lemma AnalyzedUpTo(log: seq<Sample>, n: nat, kind: Kind)
    requires n <= |log|
    ensures Analyzed(log, n, kind) == Count(log, 0, n, kind)
  {
    AnalyzedIs(log[..n], kind);
    assert log[..n][..n] == log[..n];
    CountSame(log[..n], log, 0, n, kind);
  }

  /** Numbers that begin again, the fate before the first of them unknown, are a stretch of their own. */
  lemma {:induction false} ChainIsStretch(prior: seq<Sample>, fates: seq<bool>)
    requires fates != []
    ensures Stretches(prior + Chain(fates)) == Stretches(prior) + [fates]
  {
    var n := |fates|;
    var less, log := fates[..n - 1], prior + Chain(fates);
    assert fates == less + [fates[n - 1]];
    ChainMore(less, fates[n - 1]);
    assert log[..|log| - 1] == prior + Chain(less);
    if n > 1 {
      ChainIsStretch(prior, less);
    } else {
      assert prior + Chain(less) == prior;
    }
  }

  /** The offline counts of the first r rounds, each discounted once for every round out of c closed
      since it began. */
  ghost function DiscountedCounts(log: seq<Sample>, round: nat, c: nat, r: nat, kind: Kind): real
    requires r <= c && c * round <= |log|
  {
    if r == 0 then 0.0
    else
      Multiples(r - 1, r, round); Multiples(r, c, round);
      var counted := Analyzed(log, r * round, kind) - Analyzed(log, (r - 1) * round, kind);
      DiscountedCounts(log, round, c, r - 1, kind) + Times(Power(c - r + 1), counted as real)
  }

  lemma {:induction false} DiscountedBoth(log: seq<Sample>, round: nat, c: nat, r: nat, kind: Kind)
    requires r <= c && c * round <= |log|
    ensures Discounted(log, round, c, r, kind) == DiscountedCounts(log, round, c, r, kind)
  {
    hide Analyzed, Count, Times, Power;
    if r > 0 {
      Multiples(r - 1, r, round); Multiples(r, c, round);
      DiscountedBoth(log, round, c, r - 1, kind);
      AnalyzedUpTo(log, r * round, kind); AnalyzedUpTo(log, (r - 1) * round, kind);
      CountSplit(log, (r - 1) * round, r * round, kind);
    }
  }

  /** After any fates, discontinuities among them included, each online counter is the offline
      analysis of the same fates, round by round: what it counted in the round in progress, and three
      quarters, once for every round closed since, of what it counted in each round before. */
  lemma OnlineIsOffline(log: seq<Sample>, round: nat, c: nat, kind: Kind)
    requires round > 0 && c * round <= |log| < (c + 1) * round
    ensures Weight(log, |log|, round, kind) ==
      DiscountedCounts(log, round, c, c, kind) + (Analyzed(log, |log|, kind) - Analyzed(log, c * round, kind)) as real
  {
    hide Weight, Analyzed, Count, Discounted;
    WeightByRounds(log, c, |log|, round, kind);
    DiscountedBoth(log, round, c, c, kind);
    AnalyzedUpTo(log, |log|, kind); AnalyzedUpTo(log, c * round, kind);
    CountSplit(log, c * round, |log|, kind);
  }

  /** Before the first round is over an uninterrupted run's counters are its offline counts. */
  lemma FirstRoundIsOffline(fates: seq<bool>, round: nat, kind: Kind)
    requires |fates| < round
    ensures Weight(Chain(fates), |fates|, round, kind) == Count(Chain(fates), 0, |fates|, kind) as real
  {
    WeightByRounds(Chain(fates), 0, |fates|, round, kind);
  }

  function Counter(t: Tally, kind: Kind): real {
    match kind
    case All => t.samples case Losses => t.losses
    case FromArrival => t.fromArrival case LossAfterArrival => t.lossAfterArrival
    case FromLoss => t.fromLoss case ArrivalAfterLoss => t.arrivalAfterLoss
  }

  /** The counters of an estimator, whatever it was given, are the offline analysis of what it
      recorded; what it recorded since its numbers last began again is the last stretch of it. */
  lemma EstimatorIsOffline(e: Estimator, kind: Kind)
    requires e.Counted()
    ensures var c := |e.closed|;
            && c * e.round <= |e.log|
            && Counter(e.Counters(), kind) ==
                 DiscountedCounts(e.log, e.round, c, c, kind)
                 + (Analyzed(e.log, |e.log|, kind) - Analyzed(e.log, c * e.round, kind)) as real
    ensures e.Valid() && e.fates != [] ==> Stretches(e.log) == Stretches(e.prior) + [e.fates]
  {
    hide Stretches, Analyzed, DiscountedCounts, Weight, Rate;
    var c := |e.closed|;
    assert (c + 1) * e.round == c * e.round + e.round;
    OnlineIsOffline(e.log, e.round, c, kind);
    if e.Valid() && e.fates != [] {
      e.ValidIs();
      ChainIsStretch(e.prior, e.fates);
    }
  }

  /** A quotient of counts. */
  function Ratio(k: nat, n: nat): (r: real)
    ensures if n > 0 then r * n as real == k as real else r == 0.0
  {
    if n > 0 then k as real / n as real else 0.0
  }

  /** The mean length of a loss run, from the chance that an arrival follows a loss. */
  function MeanBurst(fromLoss: nat, arrivalAfterLoss: nat): Extended {
    if fromLoss == 0 then Finite(0.0)
    else if arrivalAfterLoss == 0 then Infinite
    else Finite(1.0 / Ratio(arrivalAfterLoss, fromLoss))
  }

  function BurstFactor(fromLoss: nat, mean: Extended, loss: real): Extended {
    if fromLoss == 0 then Finite(1.0)
    else match mean
      case Finite(value) => Finite(if value * (1.0 - loss) < 1.0 then 1.0 else value * (1.0 - loss))
      case Infinite => if loss < 1.0 then Infinite else Undefined
      case Undefined => Undefined
  }

  /** The mean burst is finite exactly when some loss was followed by an arrival or none by anything,
      and then it is the number of fates after a loss over the number of those that arrived. */
  lemma MeanBurstExact(fromLoss: nat, arrivalAfterLoss: nat)
    requires arrivalAfterLoss <= fromLoss
    ensures MeanBurst(fromLoss, arrivalAfterLoss).Finite? <==> arrivalAfterLoss > 0 || fromLoss == 0
    ensures arrivalAfterLoss > 0 ==>
      MeanBurst(fromLoss, arrivalAfterLoss).value * arrivalAfterLoss as real == fromLoss as real
  {}

  /** The burst factor is one without a loss before another fate, and else never less than one and the mean
      burst over that of a memoryless channel when that is more. */
  lemma BurstFactorIs(fromLoss: nat, mean: real, loss: real)
    ensures var f := BurstFactor(fromLoss, Finite(mean), loss);
            && f.Finite? && f.value >= 1.0 && (fromLoss == 0 ==> f.value == 1.0)
            && (fromLoss > 0 ==> f.value >= mean * (1.0 - loss))
            && (f.value == 1.0 || f.value == mean * (1.0 - loss))
  {}

  /** The loss pattern of a run, given one fate per number in order. */
  method Analyze(arrived: seq<bool>) returns (p: Pattern)
    ensures var (log, n) := (Chain(arrived), |arrived|); var (runs, open) := Runs(arrived);
            var all := if open > 0 then runs + [open] else runs;
            && p.total == n && p.lost == Count(log, 0, n, Losses) && p.loss == Ratio(p.lost, n)
            && p.lossAfterArrival == Ratio(Count(log, 0, n, LossAfterArrival), Count(log, 0, n, FromArrival))
            && p.arrivalAfterLoss == Ratio(Count(log, 0, n, ArrivalAfterLoss), Count(log, 0, n, FromLoss))
            && p.meanBurst == MeanBurst(Count(log, 0, n, FromLoss), Count(log, 0, n, ArrivalAfterLoss))
            && p.burstFactor == BurstFactor(Count(log, 0, n, FromLoss), p.meanBurst, p.loss)
            && Histogram(p.bursts, all) && Longest(p.longestBurst, all)
  {
    hide Histogram, Longest, Ratio;
    ghost var log := Chain(arrived);
    var lost, run, fromArrival, lossAfterArrival, fromLoss, arrivalAfterLoss: nat := 0, 0, 0, 0, 0, 0;
    var bursts: map<nat, nat>, longest: nat := map[], 0;
    NoRuns();
    var i := 0;
    while i < |arrived|
      invariant 0 <= i <= |arrived|
      invariant lost == Count(log, 0, i, Losses)
      invariant fromArrival == Count(log, 0, i, FromArrival) && lossAfterArrival == Count(log, 0, i, LossAfterArrival)
      invariant fromLoss == Count(log, 0, i, FromLoss) && arrivalAfterLoss == Count(log, 0, i, ArrivalAfterLoss)
      invariant run == Runs(arrived[..i]).1 && Histogram(bursts, Runs(arrived[..i]).0)
      invariant Longest(longest, Runs(arrived[..i]).0)
    {
      assert arrived[..i + 1][..i] == arrived[..i];
      var ok := arrived[i];
      if !ok {
        lost := lost + 1;
        run := run + 1;
      } else if run > 0 {
        OneMoreRun(bursts, longest, Runs(arrived[..i]).0, run);
        bursts := bursts[run := (if run in bursts then bursts[run] else 0) + 1];
        longest := if run > longest then run else longest;
        run := 0;
      }
      if i > 0 {
        if !arrived[i - 1] {
          fromLoss := fromLoss + 1;
          if ok { arrivalAfterLoss := arrivalAfterLoss + 1; }
        } else {
          fromArrival := fromArrival + 1;
          if !ok { lossAfterArrival := lossAfterArrival + 1; }
        }
      }
      i := i + 1;
    }
    assert arrived[..i] == arrived;
    if run > 0 {
      OneMoreRun(bursts, longest, Runs(arrived).0, run);
      bursts := bursts[run := (if run in bursts then bursts[run] else 0) + 1];
      longest := if run > longest then run else longest;
    }
    var loss := Ratio(lost, |arrived|);
    var mean := MeanBurst(fromLoss, arrivalAfterLoss);
    p := Pattern(|arrived|, lost, loss, Ratio(lossAfterArrival, fromArrival), Ratio(arrivalAfterLoss, fromLoss),
                 mean, BurstFactor(fromLoss, mean, loss), longest, bursts);
  }

  lemma NoRuns()
    ensures Histogram(map[], []) && Longest(0, [])
  {}

  lemma OneMoreRun(bursts: map<nat, nat>, longest: nat, runs: seq<nat>, run: nat)
    requires Histogram(bursts, runs) && Longest(longest, runs)
    ensures Histogram(bursts[run := (if run in bursts then bursts[run] else 0) + 1], runs + [run])
    ensures Longest(if run > longest then run else longest, runs + [run])
  {}
}
