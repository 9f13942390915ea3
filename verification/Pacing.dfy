/** A bounded token bucket (pacer.go): what may be sent now, and when the next datagram may be. */
module Pacing {
  import opened Numbers

  const NANOSECONDS: int := 1_000_000_000
  const MAX_BURST_PACKETS: int := 10

  /** The whole bytes earned at a rate over some nanoseconds. */
  function Earned(bps: int, elapsed: int): int { bps * elapsed / NANOSECONDS }

  function MaxBurst(bps: int, delay: int, datagram: int): int {
    Max(Earned(bps, delay), MAX_BURST_PACKETS * datagram)
  }

  class Pacer {
    var budgetAtLastSent: int
    var maxDatagramSize: int
    // Zero before anything was sent.
    var lastSentTime: int
    const burstPacingDelay: int

    predicate Valid()
      reads this
    {
      0 < burstPacingDelay <= NANOSECONDS && maxDatagramSize > 0 && lastSentTime >= 0 && budgetAtLastSent >= 0
    }

    constructor (burstPacingDelay: int, initialPacketSize: int)
      requires 0 < burstPacingDelay <= NANOSECONDS && initialPacketSize > 0
      ensures Valid() && lastSentTime == 0 && maxDatagramSize == initialPacketSize
      ensures this.burstPacingDelay == burstPacingDelay
    {
      budgetAtLastSent := MAX_BURST_PACKETS * initialPacketSize;
      maxDatagramSize := initialPacketSize;
      lastSentTime := 0;
      this.burstPacingDelay := burstPacingDelay;
    }

    /** What may be sent at a time, when the bandwidth is bps bytes a second. */
    function Budget(now: int, bps: int): int
      reads this
    {
      var maxBurst, elapsed := MaxBurst(bps, burstPacingDelay, maxDatagramSize), now - lastSentTime;
      if bps <= 0 then 0
      else if lastSentTime == 0 then maxBurst
      else if elapsed <= 0 then Min(maxBurst, Max(0, budgetAtLastSent))
      else if elapsed >= NANOSECONDS then maxBurst
      else Min(maxBurst, budgetAtLastSent + Earned(bps, elapsed))
    }

    /** What was left and what has been earned since is there to be sent, up to a burst; nothing more is,
        at a rate that earns ten datagrams in a second. */
    lemma LeftAndEarned(now: int, bps: int)
      requires Valid() && bps > 0 && 0 < lastSentTime <= now
      ensures Budget(now, bps) >=
        Min(MaxBurst(bps, burstPacingDelay, maxDatagramSize), budgetAtLastSent + Earned(bps, now - lastSentTime))
      ensures bps >= MAX_BURST_PACKETS * maxDatagramSize ==>
        Budget(now, bps) ==
          Min(MaxBurst(bps, burstPacingDelay, maxDatagramSize), budgetAtLastSent + Earned(bps, now - lastSentTime))
    {
      hide Earned, MaxBurst;
      NothingEarned(bps);
      BurstPositive(bps, burstPacingDelay, maxDatagramSize);
      if bps >= MAX_BURST_PACKETS * maxDatagramSize && now - lastSentTime >= NANOSECONDS {
        SecondEarnsBurst(bps, burstPacingDelay, maxDatagramSize, now - lastSentTime);
      }
    }

    method SentPacket(sendTime: int, size: int, bps: int)
      requires Valid() && sendTime > 0 && size >= 0 && bps >= 0
      modifies this`budgetAtLastSent, this`lastSentTime
      ensures Valid() && lastSentTime == sendTime && budgetAtLastSent == Max(0, old(Budget(sendTime, bps)) - size)
    {
      BurstPositive(bps, burstPacingDelay, maxDatagramSize);
      var budget := Budget(sendTime, bps);
      if size > budget {
        budgetAtLastSent := 0;
      } else {
        budgetAtLastSent := budget - size;
      }
      lastSentTime := sendTime;
    }

    /** When the next datagram may be sent; zero is at once. */
    method TimeUntilSend(bps: int, minPacingDelay: int) returns (at: int)
      requires Valid() && bps >= 0 && minPacingDelay >= 0
      ensures at == 0 <==> budgetAtLastSent >= maxDatagramSize
      ensures at > 0 && bps > 0 ==> at >= lastSentTime + minPacingDelay
      ensures at > 0 && bps == 0 ==> at == lastSentTime + NANOSECONDS
      ensures bps > 0 && at > 0 && lastSentTime > 0 ==> Budget(at, bps) >= maxDatagramSize
      ensures bps > 0 && at == 0 && lastSentTime > 0 ==>
        forall now :: now >= lastSentTime ==> Budget(now, bps) >= maxDatagramSize
      ensures bps > 0 && at > lastSentTime + minPacingDelay && lastSentTime > 0 && at - lastSentTime <= NANOSECONDS ==>
        forall now :: lastSentTime <= now < at ==> Budget(now, bps) < maxDatagramSize
    {
      hide Earned, MaxBurst;
      BurstCovers(bps, burstPacingDelay, maxDatagramSize);
      if budgetAtLastSent >= maxDatagramSize {
        forall now | bps > 0 && now >= lastSentTime > 0 ensures Budget(now, bps) >= maxDatagramSize {
          EarnedPositive(bps, now - lastSentTime);
        }
        return 0;
      }
      if bps == 0 {
        return lastSentTime + NANOSECONDS;
      }
      var short := maxDatagramSize - budgetAtLastSent;
      var diff := NANOSECONDS * short;
      var d := diff / bps;
      if diff % bps != 0 {
        d := d + 1;
      }
      CeilingEarns(bps, short, d);
      at := lastSentTime + Max(minPacingDelay, d);
      EarnedMore(bps, d, at - lastSentTime);
      forall now | 0 < lastSentTime <= now < lastSentTime + d && d <= NANOSECONDS
        ensures Budget(now, bps) < maxDatagramSize
      {
        EarnsTooLittle(bps, short, d, now - lastSentTime);
      }
    }

    method SetMaxDatagramSize(size: int)
      requires Valid()
      modifies this`maxDatagramSize
      ensures Valid() && maxDatagramSize == if size > 0 then size else old(maxDatagramSize)
    {
      if size > 0 {
        maxDatagramSize := size;
      }
    }
  }

  // ---------------------------------------------------------------- earning

  lemma BurstPositive(bps: int, delay: int, datagram: int)
    requires bps >= 0 && delay > 0 && datagram > 0
    ensures MaxBurst(bps, delay, datagram) > 0 && forall e :: e >= 0 ==> Earned(bps, e) >= 0
  {
    forall e | e >= 0 ensures Earned(bps, e) >= 0 { EarnedPositive(bps, e); }
  }

  lemma BurstCovers(bps: int, delay: int, datagram: int)
    requires datagram > 0
    ensures MaxBurst(bps, delay, datagram) >= datagram
  {}

  lemma EarnedPositive(bps: int, e: int)
    requires bps >= 0 && e >= 0
    ensures Earned(bps, e) >= 0
  {
    assert bps * e >= 0;
  }

  lemma EarnedMore(bps: int, d: int, e: int)
    requires bps >= 0 && d <= e
    ensures Earned(bps, d) <= Earned(bps, e)
  {
    assert bps * d <= bps * e;
    FloorMore(bps * d, bps * e);
  }

  lemma FloorMore(a: int, b: int)
    requires a <= b
    ensures a / NANOSECONDS <= b / NANOSECONDS
  {}

  /** The first whole number of nanoseconds that earns what is short. */
  lemma CeilingEarns(bps: int, short: int, d: int)
    requires bps > 0 && short > 0
    requires d == NANOSECONDS * short / bps + (if NANOSECONDS * short % bps != 0 then 1 else 0)
    ensures d > 0 && Earned(bps, d) >= short
    ensures bps * (d - 1) < NANOSECONDS * short
  {
    var diff := NANOSECONDS * short;
    var q, r := diff / bps, diff % bps;
    assert diff == bps * q + r && 0 <= r < bps;
    assert bps * (q + 1) == bps * q + bps && bps * (q - 1) == bps * q - bps;
    assert bps * d >= diff;
    assert d <= 0 ==> bps * d <= 0;
    FloorMore(diff, bps * d);
    assert diff / NANOSECONDS == short;
  }

  lemma EarnsTooLittle(bps: int, short: int, d: int, e: int)
    requires bps > 0 && 0 <= e < d && bps * (d - 1) < NANOSECONDS * short
    ensures Earned(bps, e) < short
  {
    assert bps * e <= bps * (d - 1);
    var q := bps * e / NANOSECONDS;
    assert q * NANOSECONDS <= bps * e;
  }

  /** A second earns the rate, and any time its share of it, to the byte. */
  lemma EarnedIsShare(bps: int, elapsed: int)
    ensures Earned(bps, NANOSECONDS) == bps
    ensures Earned(bps, elapsed) * NANOSECONDS <= bps * elapsed < (Earned(bps, elapsed) + 1) * NANOSECONDS
  {
    var b := bps * elapsed;
    assert b == b / NANOSECONDS * NANOSECONDS + b % NANOSECONDS;
    assert bps * NANOSECONDS / NANOSECONDS == bps;
  }

  /** A burst is ten datagrams, or what the burst delay earns when that is more. */
  lemma BurstIs(bps: int, delay: int, datagram: int)
    ensures var burst := MaxBurst(bps, delay, datagram);
            && burst >= 10 * datagram && burst >= Earned(bps, delay)
            && (burst == 10 * datagram || burst == Earned(bps, delay))
  {}

  /** What is earned over two spans is earned over both together. */
  lemma EarnedTogether(bps: int, d: int, e: int)
    ensures Earned(bps, d) + Earned(bps, e) <= Earned(bps, d + e)
  {
    var a, b := bps * d, bps * e;
    assert bps * (d + e) == a + b;
    var q, r := a / NANOSECONDS, b / NANOSECONDS;
    assert (q + r) * NANOSECONDS <= a + b;
    FloorMore((q + r) * NANOSECONDS, a + b);
  }

  /** A second earns a whole burst at ten datagrams a second or more. */
  lemma SecondEarnsBurst(bps: int, delay: int, datagram: int, elapsed: int)
    requires bps >= MAX_BURST_PACKETS * datagram && datagram > 0 && 0 < delay <= NANOSECONDS && elapsed >= NANOSECONDS
    ensures Earned(bps, elapsed) >= MaxBurst(bps, delay, datagram)
  {
    EarnedMore(bps, NANOSECONDS, elapsed);
    EarnedMore(bps, delay, NANOSECONDS);
    assert bps * NANOSECONDS / NANOSECONDS == bps;
  }

  // ---------------------------------------------------------------- a run of sends

  datatype Send = Send(at: int, size: int)

  function Total(sends: seq<Send>, n: nat): int
    requires n <= |sends|
  {
    if n == 0 then 0 else Total(sends, n - 1) + sends[n - 1].size
  }

  /** Sends in time order, each at most a datagram. */
  ghost predicate InOrder(sends: seq<Send>, datagram: int) {
    && (forall i :: 0 <= i < |sends| ==> sends[i].at > 0 && 0 <= sends[i].size <= datagram)
    && (forall i, j :: 0 <= i < j < |sends| ==> sends[i].at <= sends[j].at)
  }

  /** Sends as the pacer allows, each only when the budget covers a datagram: the bytes out never
      exceed a burst and what the rate earns between the first send and the last. */
  method Pace(p: Pacer, sends: seq<Send>, bps: int) returns (sent: nat)
    requires p.Valid() && p.lastSentTime == 0 && bps >= MAX_BURST_PACKETS * p.maxDatagramSize
    requires InOrder(sends, p.maxDatagramSize)
    modifies p
    ensures p.Valid() && sent <= |sends|
    ensures sent > 0 ==>
      Total(sends, sent) <= MaxBurst(bps, p.burstPacingDelay, old(p.maxDatagramSize))
        + Earned(bps, sends[sent - 1].at - sends[0].at)
    ensures sent < |sends| ==> p.Budget(sends[sent].at, bps) < p.maxDatagramSize
  {
    hide Earned, MaxBurst, Total;
    var burst := MaxBurst(bps, p.burstPacingDelay, p.maxDatagramSize);
    sent := 0;
    TotalNone(sends);
    while sent < |sends| && p.Budget(sends[sent].at, bps) >= p.maxDatagramSize
      invariant 0 <= sent <= |sends| && p.Valid() && p.maxDatagramSize == old(p.maxDatagramSize)
      invariant sent == 0 ==> p.lastSentTime == 0 && Total(sends, sent) == 0
      invariant sent > 0 ==> p.lastSentTime == sends[sent - 1].at
      invariant sent > 0 ==>
        Total(sends, sent) + p.budgetAtLastSent <= burst + Earned(bps, sends[sent - 1].at - sends[0].at)
    {
      var s := sends[sent];
      TotalNext(sends, sent);
      BudgetEarned(p, s.at, bps);
      if sent > 0 { EarnedTogether(bps, sends[sent - 1].at - sends[0].at, s.at - sends[sent - 1].at); } else {
        NothingEarned(bps);
      }
      p.SentPacket(s.at, s.size, bps);
      sent := sent + 1;
    }
  }

  lemma NothingEarned(bps: int)
    ensures Earned(bps, 0) == 0
  {}

  lemma TotalNone(sends: seq<Send>)
    ensures Total(sends, 0) == 0
  {}

  lemma TotalNext(sends: seq<Send>, n: nat)
    requires n < |sends|
    ensures Total(sends, n + 1) == Total(sends, n) + sends[n].size
  {}

  /** The budget is never more than what was left and what has been earned since. */
  lemma BudgetEarned(p: Pacer, now: int, bps: int)
    requires p.Valid() && bps >= MAX_BURST_PACKETS * p.maxDatagramSize && now >= p.lastSentTime
    ensures p.Budget(now, bps) <= MaxBurst(bps, p.burstPacingDelay, p.maxDatagramSize)
    ensures p.lastSentTime > 0 ==> p.Budget(now, bps) <= p.budgetAtLastSent + Earned(bps, now - p.lastSentTime)
  {
    if now - p.lastSentTime >= NANOSECONDS {
      SecondEarnsBurst(bps, p.burstPacingDelay, p.maxDatagramSize, now - p.lastSentTime);
    }
    EarnedPositive(bps, now - p.lastSentTime);
  }
}
