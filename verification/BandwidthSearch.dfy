/** When the search for bandwidth ends (bbr_tuic.go): what a sequence of rounds says, apart from the
    counters that follow it. */
module BandwidthSearch {
  const STARTUP_GROWTH := 1.25
  const NO_GAIN_ROUNDS := 3

  /** A round not limited by the application: the bandwidth measured, and whether it lost too much. */
  datatype Round = Round(bandwidth: nat, heavyLoss: bool)

  /** What counts as growth over a bandwidth. */
  function Target(base: nat): (t: nat)
    ensures base <= t && (base < 4 ==> t == base) && (base >= 4 ==> 7 * t >= 8 * base)
  {
    TargetOf(base);
    (base as real * STARTUP_GROWTH).Floor
  }

  lemma TargetOf(base: nat)
    ensures var t := (base as real * STARTUP_GROWTH).Floor;
            base <= t && (base < 4 ==> t == base) && (base >= 4 ==> 7 * t >= 8 * base)
  {
    var t := (base as real * STARTUP_GROWTH).Floor;
    assert 4 * t <= 5 * base < 4 * t + 4;
  }

  /** Growth is by a quarter, to the byte. */
  lemma TargetIsQuarterMore(base: nat)
    ensures 4 * Target(base) <= 5 * base < 4 * (Target(base) + 1)
  {
    TargetOf(base);
  }

  /** The bandwidth of the last round that grew over the one that grew before it. */
  function Base(rounds: seq<Round>): nat {
    if rounds == [] then 0
    else
      var n, base := |rounds| - 1, Base(rounds[..|rounds| - 1]);
      if rounds[n].bandwidth >= Target(base) then rounds[n].bandwidth else base
  }

  predicate Grew(rounds: seq<Round>, i: nat)
    requires i < |rounds|
  {
    rounds[i].bandwidth >= Target(Base(rounds[..i]))
  }

  /** How many rounds in a row, up to the last, did not grow. */
  function Idle(rounds: seq<Round>): nat {
    if rounds == [] || Grew(rounds, |rounds| - 1) then 0 else Idle(rounds[..|rounds| - 1]) + 1
  }

  /** How many rounds grew. */
  function Steps(rounds: seq<Round>): nat {
    if rounds == [] then 0 else Steps(rounds[..|rounds| - 1]) + (if Grew(rounds, |rounds| - 1) then 1 else 0)
  }

  /** Round i ends the search: it did not grow, and it lost too much or is the third such in a row. */
  ghost predicate EndsAt(rounds: seq<Round>, i: nat) {
    i < |rounds| && !Grew(rounds, i)
    && (rounds[i].heavyLoss || (i >= 2 && !Grew(rounds, i - 1) && !Grew(rounds, i - 2)))
  }

  ghost predicate Ended(rounds: seq<Round>) {
    exists i: nat :: EndsAt(rounds, i)
  }

  lemma GrewBefore(rounds: seq<Round>, r: Round, i: nat)
    requires i < |rounds|
    ensures Grew(rounds + [r], i) <==> Grew(rounds, i)
  {
    assert (rounds + [r])[..i] == rounds[..i];
  }

  /** The idle rounds did not grow, and the round before them did. */
  lemma {:induction false} IdleMeans(rounds: seq<Round>)
    ensures Idle(rounds) <= |rounds| && (forall i :: |rounds| - Idle(rounds) <= i < |rounds| ==> !Grew(rounds, i))
    ensures Idle(rounds) < |rounds| ==> Grew(rounds, |rounds| - Idle(rounds) - 1)
  {
    if rounds != [] && !Grew(rounds, |rounds| - 1) {
      var before := rounds[..|rounds| - 1];
      assert rounds == before + [rounds[|rounds| - 1]];
      IdleMeans(before);
      forall i | 0 <= i < |before| ensures Grew(rounds, i) <==> Grew(before, i) {
        GrewBefore(before, rounds[|rounds| - 1], i);
      }
    }
  }

  lemma OneMoreRound(rounds: seq<Round>, r: Round)
    ensures var more := rounds + [r];
            Base(more) == (if r.bandwidth >= Target(Base(rounds)) then r.bandwidth else Base(rounds))
            && Idle(more) == (if r.bandwidth >= Target(Base(rounds)) then 0 else Idle(rounds) + 1)
            && Steps(more) == Steps(rounds) + (if r.bandwidth >= Target(Base(rounds)) then 1 else 0)
            && (Grew(more, |rounds|) <==> r.bandwidth >= Target(Base(rounds)))
  {
    hide Target;
    assert (rounds + [r])[..|rounds|] == rounds;
  }

  /** The last round ends the search exactly when it does so by the count of idle rounds. */
  lemma EndsLast(rounds: seq<Round>)
    requires rounds != []
    ensures EndsAt(rounds, |rounds| - 1) <==>
      Idle(rounds) > 0 && (rounds[|rounds| - 1].heavyLoss || Idle(rounds) >= NO_GAIN_ROUNDS)
  {
    hide Grew, Idle;
    IdleMeans(rounds);
    var n := |rounds| - 1;
    assert Idle(rounds) == 0 <==> Grew(rounds, n);
  }

  lemma EndsBefore(rounds: seq<Round>, r: Round, i: nat)
    requires i < |rounds|
    ensures EndsAt(rounds + [r], i) <==> EndsAt(rounds, i)
  {
    hide Grew;
    GrewBefore(rounds, r, i);
    if i >= 2 { GrewBefore(rounds, r, i - 1); GrewBefore(rounds, r, i - 2); }
  }

  /** One more round ends the search when it is itself the end. */
  lemma EndedMore(rounds: seq<Round>, r: Round)
    ensures var more := rounds + [r];
            Ended(more) <==> Ended(rounds) || (Idle(more) > 0 && (r.heavyLoss || Idle(more) >= NO_GAIN_ROUNDS))
  {
    hide EndsAt, Idle;
    var more := rounds + [r];
    EndsLast(more);
    if Ended(rounds) {
      var i: nat :| EndsAt(rounds, i);
      EndsInside(rounds, i);
      EndsBefore(rounds, r, i);
    }
    if Ended(more) {
      var i: nat :| EndsAt(more, i);
      EndsInside(more, i);
      if i < |rounds| { EndsBefore(rounds, r, i); }
    }
  }

  lemma EndsInside(rounds: seq<Round>, i: nat)
    requires EndsAt(rounds, i)
    ensures i < |rounds|
  {}

  /** The least bandwidth after k more steps than the first. */
  function Compound(k: nat): real { if k == 0 then 4.0 else Compound(k - 1) * 8.0 / 7.0 }

  /** A search that has not ended has grown in at least every third round, and compounds with every
      step. */
  lemma {:induction false} SearchEnds(rounds: seq<Round>)
    requires !Ended(rounds) && forall r :: r in rounds ==> r.bandwidth >= 4
    ensures |rounds| <= 3 * Steps(rounds)
    ensures Steps(rounds) > 0 ==> Compound(Steps(rounds) - 1) <= Base(rounds) as real
    ensures rounds != [] ==> |rounds| + 2 <= 3 * Steps(rounds) + Idle(rounds)
    ensures Idle(rounds) < NO_GAIN_ROUNDS
  {
    if rounds != [] {
      var n := |rounds| - 1;
      var before, last := rounds[..n], rounds[n];
      assert rounds == before + [last] && last in rounds && forall r :: r in before ==> r in rounds;
      OneMoreRound(before, last); EndedMore(before, last);
      SearchEnds(before);
      Compounds(Steps(before), Base(before), last.bandwidth);
      hide Ended, Grew, Base, Idle, Steps, Target;
    }
  }

  lemma Compounds(k: nat, base: nat, bandwidth: nat)
    requires bandwidth >= 4 && (k > 0 ==> Compound(k - 1) <= base as real)
    ensures k > 0 ==> base >= 4
    ensures bandwidth >= Target(base) ==> Compound(k) <= bandwidth as real
  {
    if k > 0 { CompoundLeast(k - 1); }
  }

  lemma {:induction false} CompoundLeast(k: nat)
    ensures Compound(k) >= 4.0
  {
    if k > 0 { CompoundLeast(k - 1); }
  }

  function Doubled(m: nat): (d: nat)
    ensures d > 0
  {
    if m == 0 then 1 else 2 * Doubled(m - 1)
  }

  /** Six steps of growth more than double a bandwidth. */
  lemma {:induction false} SixStepsDouble(m: nat)
    ensures Compound(6 * m) >= 4.0 * Doubled(m) as real
  {
    if m > 0 {
      var k := 6 * (m - 1);
      SixStepsDouble(m - 1);
      CompoundLeast(k);
      assert Compound(k + 2) == Compound(k) * 8.0 / 7.0 * 8.0 / 7.0;
      assert Compound(k + 4) == Compound(k + 2) * 8.0 / 7.0 * 8.0 / 7.0;
      assert Compound(k + 6) == Compound(k + 4) * 8.0 / 7.0 * 8.0 / 7.0;
    }
  }

  lemma {:induction false} CompoundGrows(j: nat, k: nat)
    requires j <= k
    ensures Compound(j) <= Compound(k)
  {
    if j < k { CompoundGrows(j, k - 1); CompoundLeast(k - 1); }
  }

  lemma {:induction false} BaseWithin(rounds: seq<Round>, bound: nat)
    requires bound > 0 && forall r :: r in rounds ==> r.bandwidth < bound
    ensures Base(rounds) < bound
  {
    if rounds != [] {
      var n := |rounds| - 1;
      assert rounds[n] in rounds && forall r :: r in rounds[..n] ==> r in rounds;
      BaseWithin(rounds[..n], bound);
    }
  }

  /** On a path of any bandwidth the search ends: with every bandwidth at least four and below four
      times two to the m, it has ended once there were more than 18 m rounds. */
  lemma EndsWithin(rounds: seq<Round>, m: nat)
    requires forall r :: r in rounds ==> 4 <= r.bandwidth < 4 * Doubled(m)
    requires |rounds| > 18 * m
    ensures Ended(rounds)
  {
    hide Ended, Base, Steps, Idle;
    if !Ended(rounds) {
      SearchEnds(rounds);
      BaseWithin(rounds, 4 * Doubled(m));
      CompoundGrows(6 * m, Steps(rounds) - 1);
      SixStepsDouble(m);
    }
  }

  /** At one steady bandwidth without heavy loss the search ends with the fourth round, unless the
      bandwidth is below four: growth is rounded down, and then the same bandwidth again counts as it. */
  lemma {:induction false} SteadyEnds(rounds: seq<Round>, b: nat)
    requires forall r :: r in rounds ==> r == Round(b, false)
    ensures rounds != [] ==> Base(rounds) == b && Idle(rounds) == if b < 4 then 0 else |rounds| - 1
    ensures Ended(rounds) <==> b >= 4 && |rounds| >= 4
  {
    if rounds != [] {
      var n := |rounds| - 1;
      var before := rounds[..n];
      assert rounds == before + [rounds[n]] && rounds[n] in rounds && forall r :: r in before ==> r in rounds;
      OneMoreRound(before, rounds[n]); EndedMore(before, rounds[n]);
      SteadyEnds(before, b);
    }
  }
}
