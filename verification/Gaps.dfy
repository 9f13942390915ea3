/** Which numbers of a numbering arrived in time (lossmodel.go). */
module Gaps {
  const RING_SIZE := 1024

  /** Number s arrived before any number at least the tolerance ahead of it did. */
  ghost predicate Timely(history: seq<nat>, s: nat, tolerance: nat) {
    exists k :: 0 <= k < |history| && history[k] == s && InTime(history, k, tolerance)
  }

  ghost predicate InTime(history: seq<nat>, k: nat, tolerance: nat)
    requires k < |history|
  {
    forall m :: 0 <= m < k ==> history[m] < history[k] + tolerance
  }

  /** The fate of number s in a numbering that starts at base: its first number arrived, any other
      did when it was timely. */
  ghost predicate Fate(history: seq<nat>, base: nat, s: nat, tolerance: nat) {
    s == base || Timely(history, s, tolerance)
  }

  ghost predicate Peak(history: seq<nat>, highest: nat) {
    highest in history && forall k :: 0 <= k < |history| ==> history[k] <= highest
  }

  /** One more arrival changes only its own fate. */
  lemma TimelyGrows(history: seq<nat>, seen: nat, s: nat, tolerance: nat)
    ensures Timely(history, s, tolerance) ==> Timely(history + [seen], s, tolerance)
    ensures Timely(history + [seen], s, tolerance) ==>
      Timely(history, s, tolerance) || (s == seen && forall m :: 0 <= m < |history| ==> history[m] < s + tolerance)
    ensures s == seen && (forall m :: 0 <= m < |history| ==> history[m] < s + tolerance) ==>
      Timely(history + [seen], s, tolerance)
  {
    var h := history + [seen];
    if Timely(history, s, tolerance) {
      var k :| 0 <= k < |history| && history[k] == s && InTime(history, k, tolerance);
      assert h[k] == s && InTime(h, k, tolerance);
    }
    if Timely(h, s, tolerance) {
      var k :| 0 <= k < |h| && h[k] == s && InTime(h, k, tolerance);
      if k < |history| {
        assert forall m :: 0 <= m < k ==> h[m] == history[m];
        assert InTime(history, k, tolerance);
      } else {
        assert forall m :: 0 <= m < |history| ==> history[m] == h[m];
      }
    }
    if s == seen && forall m :: 0 <= m < |history| ==> history[m] < s + tolerance {
      assert h[|history|] == s && InTime(h, |history|, tolerance);
    }
  }

  // ---------------------------------------------------------------- the ring

  function Slot(s: nat): nat { s % RING_SIZE }

  /** Each slot of the ring says whether the one number of the window it stands for has arrived. */
  ghost predicate Marks(ring: seq<bool>, next: nat, history: seq<nat>, base: nat, tolerance: nat)
    requires |ring| == RING_SIZE
  {
    forall s: nat :: next <= s < next + RING_SIZE ==> (ring[Slot(s)] <==> Fate(history, base, s, tolerance))
  }

  /** The fates decided are those of the numbers from the base on, in order. */
  ghost predicate Decided(fates: seq<bool>, history: seq<nat>, base: nat, tolerance: nat) {
    forall i :: 0 <= i < |fates| ==> (fates[i] <==> Fate(history, base, base + i, tolerance))
  }

  lemma SlotsApart(s: nat, t: nat)
    requires Slot(s) == Slot(t) && s - RING_SIZE < t < s + RING_SIZE
    ensures s == t
  {}

  /** Retiring the lowest number: its slot, cleared, stands for a number that has not arrived. */
  lemma MarksRetire(ring: seq<bool>, next: nat, history: seq<nat>, base: nat, tolerance: nat)
    requires |ring| == RING_SIZE && Marks(ring, next, history, base, tolerance) && base <= next
    requires !Timely(history, next + RING_SIZE, tolerance)
    ensures Slot(next) < RING_SIZE && Marks(ring[Slot(next) := false], next + 1, history, base, tolerance)
  {
    hide Timely;
    forall s: nat | next + 1 <= s < next + 1 + RING_SIZE
      ensures ring[Slot(next) := false][Slot(s)] <==> Fate(history, base, s, tolerance)
    {
      if s < next + RING_SIZE && Slot(s) == Slot(next) { SlotsApart(s, next); }
      assert Slot(next + RING_SIZE) == Slot(next);
    }
  }

  /** The state of a numbering between arrivals: the numbers below next are decided, the rest of those
      up to the highest still wait. */
  ghost predicate Tracked(
    history: seq<nat>, base: nat, next: nat, highest: nat, fates: seq<bool>, ring: seq<bool>, tolerance: nat,
    decided: nat)
  {
    && |ring| == RING_SIZE && 0 < tolerance < RING_SIZE && next == base + |fates| && |fates| <= decided
    && next <= highest < next + tolerance && Peak(history, highest) && base in history
    && (fates != [] ==> next - 1 + tolerance <= highest)
    && (decided == 0 ==> forall m :: 0 <= m < |history| ==> history[m] >= base || history[m] + RING_SIZE <= highest)
    && Marks(ring, next, history, base, tolerance) && Decided(fates, history, base, tolerance)
  }

  lemma BeyondPeak(history: seq<nat>, highest: nat, s: nat, tolerance: nat)
    requires (forall k :: 0 <= k < |history| ==> history[k] <= highest) && highest < s
    ensures !Timely(history, s, tolerance)
  {}

  /** An arrival too late to count changes nothing. */
  lemma LateTracked(
      history: seq<nat>, base: nat, next: nat, highest: nat, fates: seq<bool>, ring: seq<bool>, tolerance: nat,
      decided: nat, seen: nat)
    requires Tracked(history, base, next, highest, fates, ring, tolerance, decided)
    requires seen < next && (decided > 0 || highest - seen >= RING_SIZE)
    ensures Tracked(history + [seen], base, next, highest, fates, ring, tolerance, decided)
  {
    hide Timely, Slot;
    forall s: nat | base <= s < next + RING_SIZE
      ensures Fate(history + [seen], base, s, tolerance) <==> Fate(history, base, s, tolerance)
    {
      TimelyGrows(history, seen, s, tolerance);
      if s == seen {
        var k :| 0 <= k < |history| && history[k] == highest;
        assert s != base ==> history[k] >= s + tolerance;
      }
    }
  }

  /** The numbering starts, or starts again, at an arrival. */
  lemma FreshTracked(seen: nat, ring: seq<bool>, tolerance: nat, decided: nat)
    requires |ring| == RING_SIZE && 0 < tolerance < RING_SIZE && forall k :: 0 <= k < RING_SIZE ==> !ring[k]
    ensures Slot(seen) < RING_SIZE
    ensures Tracked([seen], seen, seen, seen, [], ring[Slot(seen) := true], tolerance, decided)
  {
    forall s: nat | seen <= s < seen + RING_SIZE
      ensures ring[Slot(seen) := true][Slot(s)] <==> Fate([seen], seen, s, tolerance)
    {
      if Slot(s) == Slot(seen) { SlotsApart(s, seen); }
    }
  }

  /** The base an arrival leaves: before anything is decided an earlier number becomes the first. */
  function Rebased(base: nat, next: nat, seen: nat): nat {
    if seen < next then seen else base
  }

  /** Before an arrival is marked the ring speaks of the arrivals before it. */
  lemma MarkedTracked(history: seq<nat>, base: nat, next: nat, highest: nat, ring: seq<bool>, tolerance: nat,
                      decided: nat, next': nat, seen: nat)
    requires |ring| == RING_SIZE && 0 < tolerance < RING_SIZE && Peak(history, highest)
    requires base <= next <= highest < next + tolerance
    requires Marks(ring, next', history, base, tolerance) && next <= next' <= seen < next' + RING_SIZE
    ensures Slot(seen) < RING_SIZE && Marks(ring[Slot(seen) := true], next', history + [seen], base, tolerance)
  {
    hide Timely;
    forall s: nat | next' <= s < next' + RING_SIZE
      ensures ring[Slot(seen) := true][Slot(s)] <==> Fate(history + [seen], base, s, tolerance)
    {
      TimelyGrows(history, seen, s, tolerance);
      if Slot(s) == Slot(seen) { SlotsApart(s, seen); }
    }
  }

  /** Before anything is decided no number close below the base has been seen. */
  lemma NoneBelow(history: seq<nat>, base: nat, highest: nat, ring: seq<bool>, tolerance: nat, s: nat)
    requires Tracked(history, base, base, highest, [], ring, tolerance, 0) && s < base && highest - s < RING_SIZE
    ensures !Timely(history, s, tolerance)
  {
    hide Marks, Decided, Peak;
  }

  /** Before anything is decided the numbering can start earlier. */
  lemma RebasedMarks(history: seq<nat>, base: nat, highest: nat, ring: seq<bool>, tolerance: nat, seen: nat)
    requires Tracked(history, base, base, highest, [], ring, tolerance, 0)
    requires seen < base && highest - seen < RING_SIZE
    ensures Slot(seen) < RING_SIZE && Marks(ring[Slot(seen) := true], seen, history + [seen], seen, tolerance)
  {
    hide Timely, Decided;
    BaseTimely(history, base, highest, tolerance);
    forall s: nat | seen <= s < seen + RING_SIZE
      ensures ring[Slot(seen) := true][Slot(s)] <==> Fate(history + [seen], seen, s, tolerance)
    {
      TimelyGrows(history, seen, s, tolerance);
      if Slot(s) == Slot(seen) {
        SlotsApart(s, seen);
      } else if s < base {
        assert Slot(s) == Slot(s + RING_SIZE);
        BeyondPeak(history, highest, s + RING_SIZE, tolerance);
        NoneBelow(history, base, highest, ring, tolerance, s);
      }
    }
  }

  lemma BaseTimely(history: seq<nat>, base: nat, highest: nat, tolerance: nat)
    requires Peak(history, highest) && base in history && highest < base + tolerance
    ensures Timely(history, base, tolerance)
  {
    var k :| 0 <= k < |history| && history[k] == base;
    assert InTime(history, k, tolerance);
  }

  /** Deciding the lowest number appends its fate. */
  lemma DecidedMore(fates: seq<bool>, history: seq<nat>, base: nat, tolerance: nat, ring: seq<bool>)
    requires |ring| == RING_SIZE && Decided(fates, history, base, tolerance)
    requires Marks(ring, base + |fates|, history, base, tolerance)
    ensures Slot(base + |fates|) < RING_SIZE && Decided(fates + [ring[Slot(base + |fates|)]], history, base, tolerance)
  {
    hide Timely;
  }

  /** What was decided stays so. */
  lemma DecidedStays(fates: seq<bool>, history: seq<nat>, base: nat, tolerance: nat, seen: nat)
    requires Decided(fates, history, base, tolerance) && base + |fates| <= seen
    ensures Decided(fates, history + [seen], base, tolerance)
  {
    hide Timely;
    forall i | 0 <= i < |fates| ensures fates[i] <==> Fate(history + [seen], base, base + i, tolerance) {
      TimelyGrows(history, seen, base + i, tolerance);
    }
  }

  /** A number that starts the numbering later than it first began is timely exactly when it came
      within the tolerance of the highest number. */
  lemma RebasedTimely(history: seq<nat>, base: nat, highest: nat, ring: seq<bool>, tolerance: nat, seen: nat)
    requires Tracked(history, base, base, highest, [], ring, tolerance, 0)
    requires seen < base && highest - seen < RING_SIZE
    ensures Timely(history + [seen], seen, tolerance) <==> highest - seen < tolerance
  {
    TimelyGrows(history, seen, seen, tolerance);
    NoneBelow(history, base, highest, ring, tolerance, seen);
    hide Timely, Marks, Decided;
    var k :| 0 <= k < |history| && history[k] == highest;
  }

  /** Further arrivals do not change whether the base was timely. */
  lemma BaseStays(history: seq<nat>, base: nat, tolerance: nat, seen: nat)
    requires base in history
    ensures Timely(history + [seen], base, tolerance) <==> Timely(history, base, tolerance)
  {
    TimelyGrows(history, seen, base, tolerance);
    var k :| 0 <= k < |history| && history[k] == base;
    if forall m :: 0 <= m < |history| ==> history[m] < base + tolerance { assert InTime(history, k, tolerance); }
  }

  /** The fates decided are all as timeliness says exactly when the base, once decided, was timely. */
  lemma FatesTimely(fates: seq<bool>, history: seq<nat>, base: nat, tolerance: nat)
    requires Decided(fates, history, base, tolerance)
    ensures (forall i :: 0 <= i < |fates| ==> (fates[i] <==> Timely(history, base + i, tolerance)))
            <==> fates == [] || Timely(history, base, tolerance)
    ensures fates != [] ==> fates[0]
  {
    hide Timely;
    if fates != [] {
      assert fates[0] <==> Fate(history, base, base + 0, tolerance);
    }
  }
}
