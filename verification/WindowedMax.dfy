/** The three-sample windowed maximum of the bandwidth estimator (bbr_tuic_minmax.go). */
module WindowedMax {
  const WINDOW: nat := 10
  const SECOND: int := 1_000_000_000
  const MIN_TIME_WINDOW := SECOND
  const MAX_TIME_WINDOW := 10 * SECOND

  /** A bandwidth seen in a round at a time; a time of zero is unset. */
  datatype Sample = Sample(round: nat, at: nat, value: nat)

  datatype Best = Best(first: Sample, second: Sample, third: Sample)

  const NOTHING := Best(Sample(0, 0, 0), Sample(0, 0, 0), Sample(0, 0, 0))

  /** The sample has outlived its wall-clock window. */
  predicate Expired(s: Sample, now: nat, timeWindow: int) {
    s.at != 0 && now != 0 && timeWindow > 0 && now - s.at > timeWindow
  }

  predicate RoundsApart(s: Sample, round: nat, span: nat) {
    round >= s.round && round - s.round > span
  }

  /** A sample replaces all three: none stands, it is at least the estimate, or the estimate is too old. */
  predicate Replaces(b: Best, s: Sample, window: nat, timeWindow: int) {
    || b.first.value == 0 || s.value >= b.first.value
    || RoundsApart(b.third, s.round, window) || Expired(b.first, s.at, timeWindow)
  }

  function Refreshed(b: Best, s: Sample): Best {
    if s.value >= b.second.value then Best(b.first, s, s)
    else if s.value >= b.third.value then Best(b.first, b.second, s)
    else b
  }

  function SubWindow(b: Best, s: Sample, window: nat): Best {
    if s.round < b.first.round then b
    else if s.round - b.first.round > window then
      var shifted := Best(b.second, b.third, s);
      if RoundsApart(shifted.first, s.round, window) then Best(shifted.second, shifted.third, s) else shifted
    else if b.second.value == b.first.value && RoundsApart(b.second, s.round, window / 4) then Best(b.first, s, s)
    else if b.third.value == b.second.value && RoundsApart(b.third, s.round, window / 2) then Best(b.first, b.second, s)
    else b
  }

  function Updated(b: Best, s: Sample, window: nat, timeWindow: int): Best {
    if s.value == 0 then b
    else if Replaces(b, s, window, timeWindow) then Best(s, s, s)
    else SubWindow(Refreshed(b, s), s, window)
  }

  // ---------------------------------------------------------------- what the samples are

  /** The sample is the p-th of the history and no later one exceeds it. */
  ghost predicate TopFrom(s: Sample, history: seq<Sample>, p: nat) {
    p < |history| && s == history[p] && forall j :: p <= j < |history| ==> history[j].value <= s.value
  }

  /** The three samples are the maxima of nested suffixes of the history, each the first of its suffix. */
  ghost predicate Nested(b: Best, history: seq<Sample>) {
    exists p: nat, q: nat, r: nat :: NestedAt(b, history, p, q, r)
  }

  ghost predicate NestedAt(b: Best, history: seq<Sample>, p: nat, q: nat, r: nat) {
    p <= q <= r && TopFrom(b.first, history, p) && TopFrom(b.second, history, q) && TopFrom(b.third, history, r)
  }

  /** Rounds and times never go back. */
  ghost predicate Forward(history: seq<Sample>) {
    forall i, j :: 0 <= i < j < |history| ==> history[i].round <= history[j].round && history[i].at <= history[j].at
  }

  ghost predicate Timed(history: seq<Sample>) {
    forall i :: 0 <= i < |history| ==> history[i].at != 0
  }

  /** The estimate is no more than a window of rounds behind the newest sample, nor, when every time is
      set, more than the wall-clock window. */
  ghost predicate Fresh(b: Best, history: seq<Sample>, window: nat, timeWindow: int)
    requires history != []
  {
    var last := history[|history| - 1];
    && last.round - b.first.round <= window
    && (Timed(history) && timeWindow > 0 ==> last.at - b.first.at <= timeWindow)
  }

  lemma TopStays(s: Sample, history: seq<Sample>, p: nat, newest: Sample)
    requires TopFrom(s, history, p) && newest.value <= s.value
    ensures TopFrom(s, history + [newest], p)
  {}

  lemma TopNewest(history: seq<Sample>, newest: Sample)
    ensures TopFrom(newest, history + [newest], |history|)
  {}

  /** Nested suffix maxima are ordered in value and in round. */
  lemma NestedOrdered(b: Best, history: seq<Sample>)
    requires Nested(b, history) && Forward(history)
    ensures b.first.value >= b.second.value >= b.third.value
    ensures b.first.round <= b.second.round <= b.third.round && b.first.at <= b.second.at <= b.third.at
    ensures history != [] && b.third.round <= history[|history| - 1].round && b.third.at <= history[|history| - 1].at
    ensures Timed(history) ==> b.first.at != 0 && b.second.at != 0 && b.third.at != 0
  {
    var p, q, r :| NestedAt(b, history, p, q, r);
  }

  /** An update keeps the three samples nested suffix maxima. */
  lemma UpdatedNested(b: Best, history: seq<Sample>, s: Sample, window: nat, timeWindow: int)
    requires s.value > 0 && (Nested(b, history) || b.first.value == 0)
    ensures Nested(Updated(b, s, window, timeWindow), history + [s])
  {
    hide TopFrom, Expired, RoundsApart;
    var h, n := history + [s], |history|;
    TopNewest(history, s);
    if Replaces(b, s, window, timeWindow) {
      assert NestedAt(Best(s, s, s), h, n, n, n);
    } else {
      var p: nat, q: nat, r: nat :| NestedAt(b, history, p, q, r);
      TopStays(b.first, history, p, s);
      TopIndex(b.first, history, p); TopIndex(b.second, history, q); TopIndex(b.third, history, r);
      var m := Refreshed(b, s);
      var q' := if s.value >= b.second.value then n else q;
      var r' := if s.value >= b.third.value || s.value >= b.second.value then n else r;
      if s.value < b.second.value { TopStays(b.second, history, q, s); }
      if s.value < b.third.value { TopStays(b.third, history, r, s); }
      assert NestedAt(m, h, p, q', r');
      SubWindowNested(m, h, p, q', r', s, window);
    }
  }

  lemma TopIndex(s: Sample, history: seq<Sample>, p: nat)
    requires TopFrom(s, history, p)
    ensures p < |history|
  {}

  lemma SubWindowNested(b: Best, h: seq<Sample>, p: nat, q: nat, r: nat, s: Sample, window: nat)
    requires NestedAt(b, h, p, q, r) && h != [] && TopFrom(s, h, |h| - 1)
    ensures Nested(SubWindow(b, s, window), h)
  {
    TopIndex(b.first, h, p); TopIndex(b.second, h, q); TopIndex(b.third, h, r);
    hide TopFrom, RoundsApart;
    var n, next := |h| - 1, SubWindow(b, s, window);
    if next == b {
      assert NestedAt(next, h, p, q, r);
    } else if next == Best(b.first, s, s) {
      assert NestedAt(next, h, p, n, n);
    } else if next == Best(b.first, b.second, s) {
      assert NestedAt(next, h, p, q, n);
    } else if next == Best(b.second, b.third, s) {
      assert NestedAt(next, h, q, r, n);
    } else {
      assert next == Best(b.third, s, s);
      assert NestedAt(next, h, r, n, n);
    }
  }

  /** An update leaves an estimate that is not too old. */
  lemma UpdatedFresh(b: Best, history: seq<Sample>, s: Sample, window: nat, timeWindow: int)
    requires s.value > 0 && Forward(history + [s]) && (Nested(b, history) || b.first.value == 0)
    ensures Fresh(Updated(b, s, window, timeWindow), history + [s], window, timeWindow)
  {
    var h := history + [s];
    assert h[|h| - 1] == s;
    if !Replaces(b, s, window, timeWindow) {
      assert forall i :: 0 <= i < |history| ==> history[i] == h[i];
      NestedOrdered(b, history);
      assert history[|history| - 1].round <= s.round && history[|history| - 1].at <= s.at;
      hide Nested, Forward;
    }
  }

  /** An update keeps the greatest of what it held: as long as the estimate has not expired, the new one is
      at least the newest sample and each of the three that is within the window of rounds. */
  lemma UpdatedKeeps(b: Best, history: seq<Sample>, s: Sample, window: nat, timeWindow: int)
    requires Nested(b, history) && Forward(history + [s]) && s.value > 0
    ensures var next := Updated(b, s, window, timeWindow).first;
            && next.value >= s.value
            && (!Expired(b.first, s.at, timeWindow) ==> forall x ::
                  (x == b.first || x == b.second || x == b.third) && s.round - x.round <= window ==>
                    next.value >= x.value)
    ensures s.round - b.first.round <= window && !Expired(b.first, s.at, timeWindow) ==>
      Updated(b, s, window, timeWindow).first == if s.value >= b.first.value then s else b.first
  {
    NewestLast(b, history, s);
    hide Nested, Forward;
  }

  lemma NewestLast(b: Best, history: seq<Sample>, s: Sample)
    requires Nested(b, history) && Forward(history + [s])
    ensures b.first.value >= b.second.value >= b.third.value
    ensures b.first.round <= b.second.round <= b.third.round <= s.round
    ensures b.first.at <= b.second.at <= b.third.at <= s.at
  {
    var h := history + [s];
    assert h[|h| - 1] == s && forall i :: 0 <= i < |history| ==> history[i] == h[i];
    NestedOrdered(b, history);
    assert history[|history| - 1].round <= s.round && history[|history| - 1].at <= s.at;
  }

  /** While the estimate stands, the second sample is a quarter window fresh unless it is less than the
      first, and the third half a window fresh unless it is less than the second. */
  lemma UpdatedSpaced(b: Best, history: seq<Sample>, s: Sample, window: nat, timeWindow: int)
    requires Nested(b, history) && Forward(history + [s]) && s.value > 0 && s.round - b.first.round <= window
    ensures var next := Updated(b, s, window, timeWindow);
            && (next.second.value == next.first.value ==> s.round - next.second.round <= window / 4)
            && (next.third.value == next.second.value ==> s.round - next.third.round <= window / 2)
  {
    NewestLast(b, history, s);
    hide Nested, Forward;
  }

  // ---------------------------------------------------------------- what is never forgotten

  /** The j-th sample is greater than every later one and no less than every earlier one. */
  ghost predicate Greatest(history: seq<Sample>, j: nat) {
    j < |history| && forall k :: 0 <= k < |history| ==>
      history[k].value <= history[j].value && (k > j ==> history[k].value < history[j].value)
  }

  /** The sample is within both windows of another. */
  predicate Within(x: Sample, newest: Sample, window: nat, timeWindow: int) {
    newest.round - x.round <= window && !Expired(x, newest.at, timeWindow)
  }

  ghost predicate AllWithin(history: seq<Sample>, window: nat, timeWindow: int) {
    forall j :: 0 <= j < |history| ==> Within(history[j], history[|history| - 1], window, timeWindow)
  }

  /** The greatest sample there was is the estimate as long as it is within both windows of the newest. */
  ghost predicate Kept(b: Best, history: seq<Sample>, window: nat, timeWindow: int) {
    forall j: nat :: Greatest(history, j) && Within(history[j], history[|history| - 1], window, timeWindow) ==>
      b.first == history[j]
  }

  /** Of the wall-clock windows in force at the updates the least counts. */
  lemma UpdatedKept(b: Best, history: seq<Sample>, s: Sample, window: nat, timeWindow: int, least: int, least': int)
    requires s.value > 0 && Forward(history + [s]) && (Nested(b, history) || (history == [] && b.first.value == 0))
    requires Kept(b, history, window, least) && 0 < least' <= least && (timeWindow > 0 ==> least' <= timeWindow)
    ensures Kept(Updated(b, s, window, timeWindow), history + [s], window, least')
  {
    var h := history + [s];
    forall j: nat | Greatest(h, j) && Within(h[j], s, window, least')
      ensures Updated(b, s, window, timeWindow).first == h[j]
    {
      if history != [] {
        NewestLast(b, history, s);
        if j < |history| {
          GreatestBefore(history, s, j, window, least, least');
        } else {
          NewestGreatest(b, history, s);
        }
      }
      hide Nested, Forward, Greatest;
    }
  }

  lemma GreatestBefore(history: seq<Sample>, s: Sample, j: nat, window: nat, least: int, least': int)
    requires j < |history| && Greatest(history + [s], j) && Forward(history + [s]) && 0 < least' <= least
    requires Within(history[j], s, window, least')
    ensures Greatest(history, j) && s.value < history[j].value
    ensures Within(history[j], history[|history| - 1], window, least)
  {
    var h := history + [s];
    assert forall k :: 0 <= k < |history| ==> h[k] == history[k];
    assert h[|history|] == s && h[|history| - 1] == history[|history| - 1];
  }

  lemma NewestGreatest(b: Best, history: seq<Sample>, s: Sample)
    requires Nested(b, history) && Greatest(history + [s], |history|)
    ensures b.first.value <= s.value
  {
    var h := history + [s];
    var p: nat, q: nat, r: nat :| NestedAt(b, history, p, q, r);
    TopIndex(b.first, history, p);
    assert h[p] == history[p] == b.first;
  }

  /** With every sample within both windows of the newest, the estimate is the greatest of them all. */
  lemma KeptIsGreatest(b: Best, history: seq<Sample>, window: nat, timeWindow: int)
    requires history != [] && Kept(b, history, window, timeWindow) && AllWithin(history, window, timeWindow)
    ensures b.first in history && forall j :: 0 <= j < |history| ==> history[j].value <= b.first.value
  {
    var j := LatestGreatest(history);
    assert b.first == history[j];
  }

  lemma {:induction false} LatestGreatest(history: seq<Sample>) returns (j: nat)
    requires history != []
    ensures Greatest(history, j)
  {
    var n := |history| - 1;
    j := n;
    if n > 0 {
      var i := LatestGreatest(history[..n]);
      assert forall k :: 0 <= k < n ==> history[..n][k] == history[k];
      if history[n].value < history[i].value { j := i; }
    }
  }

  /** The update leaves an estimate with a time, more than the window before the newest sample's. */
  ghost predicate Outlived(b: Best, s: Sample, window: nat, timeWindow: int) {
    var next := Updated(b, s, window, timeWindow);
    s.at != 0 && next.first.at != 0 && s.at - next.first.at > timeWindow
  }

  /** The sample next in line when the estimate is too many rounds old. */
  function Successor(b: Best, s: Sample, window: nat): Sample {
    var m := Refreshed(b, s);
    if RoundsApart(m.second, s.round, window) then m.third else m.second
  }

  /** The estimate is outlived exactly when it has no time, so that it did not expire, is too many
      rounds old, and the next in line has a time and has expired. */
  lemma OutlivedExactly(b: Best, history: seq<Sample>, s: Sample, window: nat, timeWindow: int)
    requires Nested(b, history) && Forward(history + [s]) && s.value > 0 && timeWindow > 0
    ensures Outlived(b, s, window, timeWindow) <==>
      !Replaces(b, s, window, timeWindow) && b.first.at == 0 && RoundsApart(b.first, s.round, window)
      && Expired(Successor(b, s, window), s.at, timeWindow)
  {
    var h := history + [s];
    assert h[|h| - 1] == s && forall i :: 0 <= i < |history| ==> history[i] == h[i];
    NestedOrdered(b, history);
    assert history[|history| - 1].round <= s.round && history[|history| - 1].at <= s.at;
    hide Nested, Forward;
  }

  /** With unset times among set ones the wall-clock bound fails: an estimate without a time never
      expires, and the one that takes its place may have been outlived long before. The two updates
      that lead there start from an empty filter. */
  lemma MixedTimesOutlive()
    ensures var (x, y, s) := (Sample(0, 0, 9), Sample(5, 1, 7), Sample(11, 2 + MAX_TIME_WINDOW, 5));
            var b := Updated(Updated(NOTHING, x, WINDOW, MAX_TIME_WINDOW), y, WINDOW, MAX_TIME_WINDOW);
            Nested(b, [x, y]) && Forward([x, y, s]) && Outlived(b, s, WINDOW, MAX_TIME_WINDOW)
  {
    var x, y, s := Sample(0, 0, 9), Sample(5, 1, 7), Sample(11, 2 + MAX_TIME_WINDOW, 5);
    var b := Best(x, y, y);
    assert Updated(Updated(NOTHING, x, WINDOW, MAX_TIME_WINDOW), y, WINDOW, MAX_TIME_WINDOW) == b;
    assert NestedAt(b, [x, y], 0, 1, 1);
    assert Updated(b, s, WINDOW, MAX_TIME_WINDOW).first == y;
  }

  lemma ForwardBefore(history: seq<Sample>, s: Sample)
    requires Forward(history + [s])
    ensures Forward(history)
  {
    var h := history + [s];
    assert forall i :: 0 <= i < |history| ==> h[i] == history[i];
  }

  /** What an update of a filter keeps. */
  lemma UpdatedWhole(b: Best, history: seq<Sample>, s: Sample, window: nat, timeWindow: int, least: int)
    requires s.value > 0 && (if history == [] then b.first.value == 0 else Nested(b, history))
    requires least > 0 && (Forward(history) ==> Kept(b, history, window, least))
    ensures var h, next := history + [s], Updated(b, s, window, timeWindow);
            && Nested(next, h) && next.first.value >= s.value
            && (Forward(h) ==> Fresh(next, h, window, timeWindow))
            && (Forward(h) ==> Kept(next, h, window, if 0 < timeWindow < least then timeWindow else least))
            && (history != [] && Forward(h) && Within(b.first, s, window, timeWindow) ==>
                  next.first == if s.value >= b.first.value then s else b.first)
  {
    hide Nested, Forward, Fresh, Kept, Updated, Expired;
    UpdatedNested(b, history, s, window, timeWindow);
    UpdatedCovers(b, history, s, window, timeWindow);
    if Forward(history + [s]) {
      ForwardBefore(history, s);
      UpdatedFresh(b, history, s, window, timeWindow);
      UpdatedKept(b, history, s, window, timeWindow, least, if 0 < timeWindow < least then timeWindow else least);
      if history != [] { UpdatedKeeps(b, history, s, window, timeWindow); }
    }
  }

  lemma UpdatedCovers(b: Best, history: seq<Sample>, s: Sample, window: nat, timeWindow: int)
    requires s.value > 0 && (Nested(b, history) || b.first.value == 0)
    ensures Updated(b, s, window, timeWindow).first.value >= s.value
  {
    UpdatedNested(b, history, s, window, timeWindow);
    var p: nat, q: nat, r: nat :| NestedAt(Updated(b, s, window, timeWindow), history + [s], p, q, r);
    assert (history + [s])[|history|] == s;
  }

  // ---------------------------------------------------------------- the filter

  class Filter {
    const window: nat
    var timeWindow: int
    const samples: array<Sample>
    // The samples recorded since the filter was last emptied, and the least wall-clock window in force
    // when one was.
    ghost var history: seq<Sample>
    ghost var least: int

    ghost function View(): Best
      requires samples.Length == 3
      reads this, samples
    {
      Best(samples[0], samples[1], samples[2])
    }

    ghost predicate Valid()
      reads this, samples
    {
      && samples.Length == 3 && (history == [] ==> samples[0].value == 0) && (history != [] ==> Nested(View(), history))
      && least > 0 && (Forward(history) ==> Kept(View(), history, window, least))
    }

    constructor ()
      ensures Valid() && fresh(samples) && history == [] && window == WINDOW && timeWindow == MAX_TIME_WINDOW
      ensures View() == NOTHING && least == MAX_TIME_WINDOW
    {
      window, timeWindow, history, least := WINDOW, MAX_TIME_WINDOW, [], MAX_TIME_WINDOW;
      samples := new Sample[3](_ => Sample(0, 0, 0));
    }

    /** The estimate: the greatest sample of a suffix of the history, and of the whole of it as long as no
        sample has left either window. */
    method Get() returns (value: nat)
      requires Valid()
      ensures history != [] && Forward(history) && AllWithin(history, window, least) ==>
        forall j :: 0 <= j < |history| ==> history[j].value <= value
      ensures history == [] ==> value == 0
      ensures history != [] ==> exists p: nat :: TopFrom(samples[0], history, p) && value == samples[0].value
    {
      value := samples[0].value;
      if history != [] && Forward(history) && AllWithin(history, window, least) {
        KeptIsGreatest(View(), history, window, least);
      }
      if history != [] {
        ghost var p, q, r :| NestedAt(View(), history, p, q, r);
      }
    }

    method Reset()
      requires Valid()
      modifies this`history, this`least, samples
      ensures Valid() && history == [] && View() == NOTHING && least == MAX_TIME_WINDOW
    {
      samples[0], samples[1], samples[2] := Sample(0, 0, 0), Sample(0, 0, 0), Sample(0, 0, 0);
      history, least := [], MAX_TIME_WINDOW;
    }

    /** The wall-clock window is ten round trips, but at least a second and at most ten. */
    method SetRoundTrip(rtt: int)
      modifies this`timeWindow
      ensures rtt <= 0 ==> timeWindow == old(timeWindow)
      ensures rtt > 0 ==> MIN_TIME_WINDOW <= timeWindow <= MAX_TIME_WINDOW
      ensures rtt > 0 && MIN_TIME_WINDOW <= WINDOW * rtt <= MAX_TIME_WINDOW ==> timeWindow == WINDOW * rtt
      ensures rtt > 0 && WINDOW * rtt < MIN_TIME_WINDOW ==> timeWindow == MIN_TIME_WINDOW
      ensures rtt > 0 && WINDOW * rtt > MAX_TIME_WINDOW ==> timeWindow == MAX_TIME_WINDOW
    {
      if rtt <= 0 {
        return;
      }
      if rtt >= MAX_TIME_WINDOW / WINDOW {
        timeWindow := MAX_TIME_WINDOW;
        return;
      }
      var w := WINDOW * rtt;
      if w < MIN_TIME_WINDOW {
        w := MIN_TIME_WINDOW;
      }
      timeWindow := w;
    }

    /** The standing estimate has outlived its window. */
    method Stale(now: nat) returns (stale: bool)
      requires Valid()
      ensures stale <==> samples[0].value != 0 && Expired(samples[0], now, timeWindow)
    {
      if samples[0].value == 0 {
        return false;
      }
      return Expired(samples[0], now, timeWindow);
    }

    /** Records a sample. An estimate within both its windows stands, unless the sample is as great. */
    method UpdateMax(round: nat, now: nat, value: nat)
      requires Valid()
      modifies this`history, this`least, samples
      ensures Valid() && View() == Updated(old(View()), Sample(round, now, value), window, timeWindow)
      ensures history == if value == 0 then old(history) else old(history) + [Sample(round, now, value)]
      ensures value > 0 && Forward(history) ==> Fresh(View(), history, window, timeWindow)
      ensures value > 0 ==> samples[0].value >= value
      ensures (value > 0 && old(history) != [] && Forward(history)
               && Within(old(samples[0]), Sample(round, now, value), window, timeWindow)) ==>
        samples[0] == if value >= old(samples[0].value) then Sample(round, now, value) else old(samples[0])
      ensures least == if value > 0 && 0 < timeWindow < old(least) then timeWindow else old(least)
    {
      if value == 0 {
        return;
      }
      var current := Sample(round, now, value);
      hide Nested, Forward, Fresh, Kept, Within, Updated;
      UpdatedWhole(View(), history, current, window, timeWindow, least);
      history := history + [current];
      if 0 < timeWindow < least { least := timeWindow; }
      Place(current);
    }

    /** Puts a sample among the three. */
    method Place(current: Sample)
      requires samples.Length == 3 && current.value > 0
      modifies samples
      ensures View() == Updated(old(View()), current, window, timeWindow)
    {
      var oldest := samples[2];
      var windowExpired := current.round >= oldest.round && current.round - oldest.round > window;
      if samples[0].value == 0 || current.value >= samples[0].value || windowExpired
         || Expired(samples[0], current.at, timeWindow) {
        samples[0], samples[1], samples[2] := current, current, current;
        return;
      }
      if current.value >= samples[1].value {
        samples[2] := current;
        samples[1] := current;
      } else if current.value >= samples[2].value {
        samples[2] := current;
      }
      SubWindowUpdate(current);
    }

    method SubWindowUpdate(sample: Sample)
      requires samples.Length == 3
      modifies samples
      ensures View() == SubWindow(old(View()), sample, window)
    {
      if sample.round < samples[0].round {
        return;
      }
      var delta := sample.round - samples[0].round;
      if delta > window {
        samples[0] := samples[1];
        samples[1] := samples[2];
        samples[2] := sample;
        if sample.round >= samples[0].round && sample.round - samples[0].round > window {
          samples[0] := samples[1];
          samples[1] := samples[2];
          samples[2] := sample;
        }
      } else if samples[1].value == samples[0].value && sample.round >= samples[1].round
                && sample.round - samples[1].round > window / 4 {
        samples[2] := sample;
        samples[1] := sample;
      } else if samples[2].value == samples[1].value && sample.round >= samples[2].round
                && sample.round - samples[2].round > window / 2 {
        samples[2] := sample;
      }
    }
  }

  /** The same run on the filter itself: three samples at rising rounds, the first without a time, leave
      an estimate further back than the wall-clock window. Mixed times belong to the filter's interface only: the
      connection's callbacks always give the bandwidth filter a time, the aggregate helpers and the
      acknowledgement filter never do. */
  method MixedTimesRun() returns (f: Filter)
    ensures f.Valid() && f.history == [Sample(0, 0, 9), Sample(5, 1, 7), Sample(11, 2 + MAX_TIME_WINDOW, 5)]
    ensures f.timeWindow == MAX_TIME_WINDOW && f.samples[0] == Sample(5, 1, 7)
    ensures Forward(f.history) && f.history[2].at - f.samples[0].at > f.timeWindow
  {
    hide Nested, Forward, Fresh, Updated;
    f := new Filter();
    f.UpdateMax(0, 0, 9);
    f.UpdateMax(5, 1, 7);
    f.UpdateMax(11, 2 + MAX_TIME_WINDOW, 5);
    MixedTimesSteps();
  }

  lemma MixedTimesSteps()
    ensures var (x, y, s) := (Sample(0, 0, 9), Sample(5, 1, 7), Sample(11, 2 + MAX_TIME_WINDOW, 5));
            var b := Updated(Updated(NOTHING, x, WINDOW, MAX_TIME_WINDOW), y, WINDOW, MAX_TIME_WINDOW);
            Forward([x, y, s]) && Updated(b, s, WINDOW, MAX_TIME_WINDOW).first == y
  {}
}
