/** What the loss counters count (lossmodel.go): fates, the transitions between them, and their
    weight once rounds have been closed over them. */
module Markov {
  import Ids

  const DECAY := 0.75

  /** A packet's fate, and whether the fate before it is known. */
  datatype Sample = Sample(arrived: bool, chained: bool)

  datatype Kind = All | Losses | FromArrival | LossAfterArrival | FromLoss | ArrivalAfterLoss

  /** The fate at i is one of the kind counted. */
  predicate Hit(log: seq<Sample>, i: nat, kind: Kind)
    requires i < |log|
  {
    var after := log[i].chained && i > 0;
    match kind
    case All => true
    case Losses => !log[i].arrived
    case FromArrival => after && log[i - 1].arrived
    case LossAfterArrival => after && log[i - 1].arrived && !log[i].arrived
    case FromLoss => after && !log[i - 1].arrived
    case ArrivalAfterLoss => after && !log[i - 1].arrived && log[i].arrived
  }

  /** How many fates from lo up to hi are of the kind. */
  function Count(log: seq<Sample>, lo: nat, hi: nat, kind: Kind): nat
    requires lo <= hi <= |log|
  {
    if lo == hi then 0 else Count(log, lo, hi - 1, kind) + (if Hit(log, hi - 1, kind) then 1 else 0)
  }

  /** The weight of the first n fates of the kind: each round of the given length, once over, leaves
      three quarters of what was there. */
  function Weight(log: seq<Sample>, n: nat, round: nat, kind: Kind): real
    requires n <= |log| && round > 0
  {
    if n == 0 then 0.0
    else
      var w := Weight(log, n - 1, round, kind) + (if Hit(log, n - 1, kind) then 1.0 else 0.0);
      if n % round == 0 then w * DECAY else w
  }

  function Power(n: nat): real { if n == 0 then 1.0 else DECAY * Power(n - 1) }

  /** The count of a whole round. */
  function RoundCount(log: seq<Sample>, round: nat, r: nat, kind: Kind): nat
    requires (r + 1) * round <= |log|
  {
    Multiples(r, r + 1, round);
    Count(log, r * round, (r + 1) * round, kind)
  }

  function Times(a: real, b: real): real { a * b }

  /** The counts of the first r rounds, discounted by how many rounds out of c have closed since. */
  function Discounted(log: seq<Sample>, round: nat, c: nat, r: nat, kind: Kind): real
    requires r <= c && c * round <= |log|
  {
    if r == 0 then 0.0
    else
      Multiples(r, c, round);
      Discounted(log, round, c, r - 1, kind) + Times(Power(c - r + 1), RoundCount(log, round, r - 1, kind) as real)
  }

  lemma Multiples(a: nat, b: nat, m: nat)
    requires a <= b
    ensures a * m <= b * m
  {}

  /** One more round over discounts every earlier one once more. */
  lemma {:induction false} DiscountedOnce(log: seq<Sample>, round: nat, c: nat, r: nat, kind: Kind)
    requires r <= c && (c + 1) * round <= |log|
    ensures c * round <= |log| && Discounted(log, round, c + 1, r, kind) == DECAY * Discounted(log, round, c, r, kind)
  {
    hide Times, RoundCount;
    Multiples(c, c + 1, round);
    if r > 0 {
      DiscountedOnce(log, round, c, r - 1, kind);
      Multiples(r, c, round);
      PowerNext(c - r + 1);
      TimesScaled(Power(c - r + 1), RoundCount(log, round, r - 1, kind) as real);
    }
  }

  lemma TimesScaled(p: real, k: real)
    ensures Times(DECAY * p, k) == DECAY * Times(p, k)
  {}

  lemma PowerNext(n: nat)
    ensures Power(n + 1) == DECAY * Power(n) && 4.0 * Power(n + 1) == 3.0 * Power(n)
  {}

  /** The weight is that of every closed round, discounted by how many have closed since it did, and
      the round in progress in full. */
  lemma {:induction false} WeightByRounds(log: seq<Sample>, c: nat, n: nat, round: nat, kind: Kind)
    requires round > 0 && c * round <= n <= |log| && n < (c + 1) * round
    ensures Weight(log, n, round, kind) == Discounted(log, round, c, c, kind) + Count(log, c * round, n, kind) as real
    decreases n
  {
    if n > c * round {
      WithinRound(c, n, round);
      WeightByRounds(log, c, n - 1, round, kind);
    } else if c > 0 {
      RoundEnd(c - 1, n, round);
      WeightByRounds(log, c - 1, n - 1, round, kind);
      RoundOver(log, c - 1, n, round, kind);
    } else {
      assert n == 0;
    }
  }

  lemma RoundOver(log: seq<Sample>, b: nat, n: nat, round: nat, kind: Kind)
    requires round > 0 && n == (b + 1) * round <= |log| && b * round <= n - 1 && n % round == 0
    requires Weight(log, n - 1, round, kind) == Discounted(log, round, b, b, kind)
      + Count(log, b * round, n - 1, kind) as real
    ensures Weight(log, n, round, kind) == Discounted(log, round, b + 1, b + 1, kind) + Count(log, n, n, kind) as real
  {
    DiscountedOnce(log, round, b, b, kind);
    assert Power(1) == DECAY * Power(0) == DECAY;
    var d, k := Discounted(log, round, b, b, kind), Count(log, b * round, n - 1, kind) as real;
    var last := if Hit(log, n - 1, kind) then 1.0 else 0.0;
    assert Count(log, b * round, n, kind) as real == k + last;
    assert Times(DECAY, k + last) == DECAY * (k + last);
    assert RoundCount(log, round, b, kind) as real == k + last;
    assert Discounted(log, round, b + 1, b + 1, kind) == DECAY * d + DECAY * (k + last);
    hide Discounted, Count, Hit;
    assert Weight(log, n, round, kind) == (d + k + last) * DECAY;
  }

  lemma WithinRound(c: nat, n: nat, round: nat)
    requires round > 0 && c * round < n < (c + 1) * round
    ensures n % round != 0
  {
    assert (c + 1) * round == c * round + round;
    var q := n / round;
    if n % round == 0 {
      assert n == q * round;
      if q <= c { Multiples(q, c, round); } else { Multiples(c + 1, q, round); }
    }
  }

  lemma RoundEnd(b: nat, n: nat, round: nat)
    requires round > 0 && n == (b + 1) * round
    ensures n % round == 0 && b * round <= n - 1 < (b + 1) * round
  {
    assert (b + 1) * round == b * round + round;
    Ids.DivisionUnique(n, round, b + 1, 0);
  }

  /** Only what is logged so far matters to what has been counted. */
  lemma {:induction false} CountSame(a: seq<Sample>, b: seq<Sample>, lo: nat, hi: nat, kind: Kind)
    requires lo <= hi <= |a| && hi <= |b| && a[..hi] == b[..hi]
    ensures Count(a, lo, hi, kind) == Count(b, lo, hi, kind)
  {
    if lo < hi {
      assert a[..hi][..hi - 1] == a[..hi - 1] && b[..hi][..hi - 1] == b[..hi - 1];
      assert a[hi - 1] == a[..hi][hi - 1] && b[hi - 1] == b[..hi][hi - 1];
      assert hi > 1 ==> a[hi - 2] == a[..hi][hi - 2] && b[hi - 2] == b[..hi][hi - 2];
      CountSame(a, b, lo, hi - 1, kind);
    }
  }

  lemma {:induction false} WeightSame(a: seq<Sample>, b: seq<Sample>, n: nat, round: nat, kind: Kind)
    requires round > 0 && n <= |a| && n <= |b| && a[..n] == b[..n]
    ensures Weight(a, n, round, kind) == Weight(b, n, round, kind)
  {
    if n > 0 {
      assert a[..n][..n - 1] == a[..n - 1] && b[..n][..n - 1] == b[..n - 1];
      assert a[n - 1] == a[..n][n - 1] && b[n - 1] == b[..n][n - 1];
      assert n > 1 ==> a[n - 2] == a[..n][n - 2] && b[n - 2] == b[..n][n - 2];
      WeightSame(a, b, n - 1, round, kind);
    }
  }

  /** A count of outcomes never exceeds the count of trials it is taken from. */
  lemma {:induction false} OutcomesWithinTrials(log: seq<Sample>, n: nat, round: nat)
    requires round > 0 && n <= |log|
    ensures 0.0 <= Weight(log, n, round, Losses) <= Weight(log, n, round, All)
    ensures 0.0 <= Weight(log, n, round, LossAfterArrival) <= Weight(log, n, round, FromArrival)
    ensures 0.0 <= Weight(log, n, round, ArrivalAfterLoss) <= Weight(log, n, round, FromLoss)
    ensures n > 0 ==> Weight(log, n, round, All) > 0.0
  {
    if n > 0 { OutcomesWithinTrials(log, n - 1, round); }
  }

  /** The fates of a run of numbers as they are recorded. */
  ghost function Chain(fates: seq<bool>): (log: seq<Sample>)
    ensures |log| == |fates| && forall i :: 0 <= i < |log| ==> log[i] == Sample(fates[i], i > 0)
  {
    seq(|fates|, i requires 0 <= i < |fates| => Sample(fates[i], i > 0))
  }

  lemma ChainMore(fates: seq<bool>, fate: bool)
    ensures Chain(fates + [fate]) == Chain(fates) + [Sample(fate, fates != [])]
  {}
}
