/** The mode, recovery and window state machine of the BBR sender (bbr_tuic.go). What the delivery
    sampler measures is an input of each event; gains are reals. */
module Bbr {
  import opened Wrappers
  import opened Numbers
  import opened BandwidthSearch
  import W = WindowedMax

  datatype Mode = Startup | Drain | ProbeBW | ProbeRTT
  datatype Recovery = NotInRecovery | Conservation | Growth

  const HIGH_GAIN := 2.885
  const DRAIN_GAIN := 1.0 / HIGH_GAIN
  const CWND_GAIN := 2.0
  const MAX_BYTES: nat := 0x7fff_ffff_ffff_ffff
  const MAX_RATE: nat := 0x8000_0000
  const PROBE_RTT_INTERVAL := 10_000_000_000
  const PROBE_RTT_DURATION := 200_000_000
  const PACING_GAINS := [1.25, 0.75, 1.0, 1.0, 1.0, 1.0, 1.0, 1.0]
  const STARTUP_LOSS_EVENTS := 8
  const STARTUP_LOSS_FRACTION := 0.02

  /** The pacing gain a mode dictates. */
  function GainOf(mode: Mode, cycleOffset: nat): real
    requires cycleOffset < 8
  {
    match mode
    case Startup => HIGH_GAIN
    case Drain => DRAIN_GAIN
    case ProbeBW => PACING_GAINS[cycleOffset]
    case ProbeRTT => 1.0
  }

  /** Bytes added up, as far as a byte count goes. */
  function SaturatingAdd(a: nat, b: nat): (s: nat)
    ensures s <= MAX_BYTES && (a + b <= MAX_BYTES ==> s == a + b) && (a <= MAX_BYTES ==> s >= a)
  {
    if a >= MAX_BYTES || b > MAX_BYTES - a then MAX_BYTES else a + b
  }

  /** What is left in flight of a congestion event. */
  function SaturatingRemaining(inFlight: nat, acked: nat, lost: nat): (r: nat)
    ensures acked + lost <= inFlight ==> r == inFlight - acked - lost
    ensures acked + lost > inFlight ==> r == 0
  {
    if acked >= inFlight then 0 else if lost >= inFlight - acked then 0 else inFlight - acked - lost
  }

  /** The state a packet carried when it was sent. */
  datatype SendState = SendState(bytesInFlight: nat, appLimited: bool)

  /** One congestion event: what was acknowledged and lost, and what the sampler made of it. */
  datatype Event = Event(
    priorInFlight: nat, time: nat, anyAcked: bool, ackedBytes: nat, largestAck: int, losses: nat, lostBytes: nat,
    bandwidth: nat, rttSample: nat, providerMinRTT: nat, ackHeight: nat, bytesAckedWindow: nat,
    lastSendState: Option<SendState>, draw: nat)

  /** The mode changes one event can make. */
  ghost predicate Follows(before: Mode, after: Mode, full: bool) {
    match before
    case Startup => if full then after != Startup else after == Startup || after == ProbeRTT
    case Drain => after != Startup
    case ProbeBW => after == ProbeBW || after == ProbeRTT
    case ProbeRTT => after == ProbeRTT || after == (if full then ProbeBW else Startup)
  }

  class Sender {
    const lossIsCongestion: bool
    const maxPackets: nat
    var maxDatagramSize: nat
    var mode: Mode
    var pacingGain: real
    var cwndGain: real
    var lastCycle: nat
    var cycleOffset: nat
    var initialCwnd: nat
    var minCwnd: nat
    var maxCwnd: nat
    var exitProbeRTT: nat
    var probeRTTRoundPassed: bool
    var minRTT: nat
    var minRTTAt: nat
    // The provider's minimum round trip, zero while it has none.
    var providerMinRTT: nat
    var exitingQuiescence: bool
    var maxSentPN: int
    var endRecoveryPN: int
    var cwnd: nat
    var roundEndPN: int
    var round: nat
    var bwAtLastRound: nat
    var roundsNoGain: nat
    var fullBandwidth: bool
    var lastSampleAppLimited: bool
    var lossEventsInRound: nat
    var bytesLostInRound: nat
    var ackedBytes: nat
    var recovery: Recovery
    var recoveryWindow: nat
    var pacingRate: nat
    var bytesInFlight: nat
    // The most ever measured on this connection, and when.
    var peakBandwidth: nat
    var peakBandwidthAt: nat
    // The rounds that counted in the search for bandwidth.
    ghost var rounds: seq<Round>

    /** The windows keep to their bounds. */
    ghost predicate Bounded()
      reads this`maxDatagramSize, this`initialCwnd, this`minCwnd, this`maxCwnd, this`cwnd, this`recoveryWindow
      reads this`pacingRate
    {
      && 0 < maxDatagramSize && 4 <= maxPackets && maxPackets * maxDatagramSize <= MAX_BYTES
      && minCwnd == 4 * maxDatagramSize && maxCwnd == maxPackets * maxDatagramSize
      && minCwnd <= initialCwnd <= maxCwnd && minCwnd <= cwnd <= maxCwnd
      && (recoveryWindow == 0 || recoveryWindow >= minCwnd) && recoveryWindow <= MAX_BYTES && pacingRate <= MAX_RATE
    }

    /** Mode, gain and recovery agree. */
    ghost predicate Coherent()
      reads this`cycleOffset, this`pacingGain, this`mode, this`fullBandwidth, this`recovery
    {
      && cycleOffset < 8 && pacingGain == GainOf(mode, cycleOffset)
      && (mode == Startup ==> !fullBandwidth) && (mode == Drain || mode == ProbeBW ==> fullBandwidth)
      && (recovery != NotInRecovery ==> fullBandwidth)
    }

    /** The search for bandwidth stands where the rounds so far have left it. */
    ghost predicate Searching()
      reads this`rounds, this`bwAtLastRound, this`roundsNoGain, this`fullBandwidth
    {
      bwAtLastRound == Base(rounds) && roundsNoGain == Idle(rounds) && (fullBandwidth <==> Ended(rounds))
    }

    ghost predicate Valid()
      reads this
    {
      Bounded() && Coherent() && Searching() && (recovery != NotInRecovery ==> recoveryWindow > 0)
    }

    constructor (size: nat, maxPackets: nat, lossIsCongestion: bool)
      requires 0 < size && 4 <= maxPackets && maxPackets * size <= MAX_BYTES
      ensures Valid() && mode == Startup && !fullBandwidth && recovery == NotInRecovery && rounds == []
      ensures cwnd == Min(32, maxPackets) * size
    {
      var initial := 32 * size;
      var highest := maxPackets * size;
      Products(4, maxPackets, size);
      if maxPackets < 32 { Products(maxPackets, 32, size); } else { Products(32, maxPackets, size); }
      if initial > highest {
        initial := highest;
      }
      this.lossIsCongestion, this.maxPackets, maxDatagramSize := lossIsCongestion, maxPackets, size;
      mode, pacingGain, cwndGain, lastCycle, cycleOffset := Startup, HIGH_GAIN, CWND_GAIN, 0, 0;
      initialCwnd, minCwnd, maxCwnd, cwnd := initial, 4 * size, highest, initial;
      exitProbeRTT, probeRTTRoundPassed, minRTT, minRTTAt, providerMinRTT, exitingQuiescence :=
        0, false, 0, 0, 0, false;
      maxSentPN, endRecoveryPN, roundEndPN, round := -1, -1, -1, 0;
      bwAtLastRound, roundsNoGain, fullBandwidth, lastSampleAppLimited := 0, 0, false, false;
      lossEventsInRound, bytesLostInRound, ackedBytes := 0, 0, 0;
      recovery, recoveryWindow, pacingRate, bytesInFlight := NotInRecovery, 0, 0, 0;
      peakBandwidth, peakBandwidthAt, rounds := 0, 0, [];
    }

    /** The window the model asks for: the bandwidth times the round trip, times a gain, within bounds. */
    function TargetCwnd(gain: real, bandwidth: nat): (w: nat)
      requires minCwnd <= maxCwnd
      reads this`initialCwnd, this`minRTT, this`providerMinRTT, this`minCwnd, this`maxCwnd
      ensures minCwnd <= w <= maxCwnd
    {
      var model := (if bandwidth == 0 then initialCwnd as real else bandwidth as real * RoundTrip()) * gain;
      if model < minCwnd as real then minCwnd
      else if model > maxCwnd as real then maxCwnd
      else FloorWithin(model, minCwnd, maxCwnd); model.Floor
    }

    /** The round trip in seconds: this sender's, else the provider's, else a tenth. */
    function RoundTrip(): real
      reads this`minRTT, this`providerMinRTT
    {
      if minRTT > 0 then minRTT as real / 1_000_000_000.0
      else if providerMinRTT > 0 then providerMinRTT as real / 1_000_000_000.0
      else 0.1
    }

    /** Within its bounds the target is what the bandwidth fills in a round trip, times the gain. */
    lemma TargetMeans(gain: real, bandwidth: nat)
      requires minCwnd <= maxCwnd && bandwidth > 0 && minCwnd < TargetCwnd(gain, bandwidth) < maxCwnd
      ensures var w, rtt := TargetCwnd(gain, bandwidth), if minRTT > 0 then minRTT else providerMinRTT;
              rtt > 0 ==>
                var filled := bandwidth as real * rtt as real * gain;
                w as real * 1_000_000_000.0 <= filled < (w + 1) as real * 1_000_000_000.0
    {
      var rtt := if minRTT > 0 then minRTT else providerMinRTT;
      var model := bandwidth as real * RoundTrip() * gain;
      if rtt > 0 { FilledAs(bandwidth as real, rtt as real, gain, 1_000_000_000.0); }
      assert model.Floor as real <= model < (model.Floor + 1) as real;
    }

    /** Where ProbeBW starts: anywhere in the cycle but the draining phase. */
    method NextCycleOffset(draw: nat) returns (offset: nat)
      ensures offset < 8 && offset != 1
      ensures (offset == 0 <==> draw % 7 == 0) && (offset > 0 ==> offset - 1 == draw % 7)
    {
      offset := draw % 7;
      if offset >= 1 {
        offset := offset + 1;
      }
    }

    method EnterProbeBW(now: nat, draw: nat)
      requires fullBandwidth
      modifies this`mode, this`cwndGain, this`lastCycle, this`cycleOffset, this`pacingGain
      ensures mode == ProbeBW && cycleOffset < 8 && cycleOffset != 1 && pacingGain == GainOf(ProbeBW, cycleOffset)
      ensures cwndGain == CWND_GAIN && lastCycle == now
    {
      mode := ProbeBW;
      cwndGain := CWND_GAIN;
      lastCycle := now;
      cycleOffset := NextCycleOffset(draw);
      pacingGain := PACING_GAINS[cycleOffset];
    }

    method UpdateRecoveryState(lastAcked: int, hasLosses: bool, roundStart: bool)
      requires Bounded() && Coherent()
      modifies this`endRecoveryPN, this`recovery, this`recoveryWindow, this`roundEndPN
      ensures Bounded() && Coherent()
      ensures recoveryWindow == if old(recovery) == NotInRecovery && recovery != NotInRecovery then 0
                                else old(recoveryWindow)
      ensures recovery == if !fullBandwidth then old(recovery)
        else if old(recovery) == NotInRecovery then (if hasLosses then Conservation else NotInRecovery)
        else if !hasLosses && lastAcked > old(endRecoveryPN) then NotInRecovery
        else if roundStart then Growth else old(recovery)
      ensures endRecoveryPN == if fullBandwidth && hasLosses then maxSentPN else old(endRecoveryPN)
      ensures roundEndPN == if old(recovery) == NotInRecovery && recovery != NotInRecovery then maxSentPN
                            else old(roundEndPN)
    {
      if !fullBandwidth {
        return;
      }
      if hasLosses {
        endRecoveryPN := maxSentPN;
      }
      if recovery == NotInRecovery {
        if hasLosses {
          recovery := Conservation;
          recoveryWindow := 0;
          roundEndPN := maxSentPN;
        }
        return;
      }
      if recovery == Conservation && roundStart {
        recovery := Growth;
      }
      if !hasLosses && lastAcked > endRecoveryPN {
        recovery := NotInRecovery;
      }
    }

    /** ProbeBW moves on to the next gain of the cycle, a step at a time. */
    method UpdateGainCycle(now: nat, priorInFlight: nat, inFlight: nat, hasLosses: bool, bandwidth: nat)
      requires Bounded() && Coherent() && mode == ProbeBW && minCwnd <= maxCwnd
      modifies this`cycleOffset, this`lastCycle, this`pacingGain
      ensures Coherent()
      ensures cycleOffset == (if old(Advances(now, priorInFlight, inFlight, hasLosses, bandwidth))
                              then (old(cycleOffset) + 1) % 8 else old(cycleOffset))
      ensures lastCycle == if old(Advances(now, priorInFlight, inFlight, hasLosses, bandwidth)) then now
                           else old(lastCycle)
      ensures old(pacingGain) < 1.0 && inFlight <= TargetCwnd(1.0, bandwidth) ==>
        cycleOffset == (old(cycleOffset) + 1) % 8
      ensures old(pacingGain) > 1.0 && !hasLosses && priorInFlight < TargetCwnd(old(pacingGain), bandwidth) ==>
        cycleOffset == old(cycleOffset)
      ensures (!(old(pacingGain) < 1.0 && inFlight <= TargetCwnd(1.0, bandwidth))
               && !(old(pacingGain) > 1.0 && !hasLosses && priorInFlight < TargetCwnd(old(pacingGain), bandwidth))) ==>
        (cycleOffset != old(cycleOffset) <==>
         old(lastCycle) != 0 && (now - old(lastCycle)) as real > RoundTrip() * 1_000_000_000.0)
    {
      hide TargetCwnd, RoundTrip;
      var advance := lastCycle != 0 && (now - lastCycle) as real > RoundTrip() * 1_000_000_000.0;
      if pacingGain > 1.0 && !hasLosses && priorInFlight < TargetCwnd(pacingGain, bandwidth) {
        advance := false;
      }
      if pacingGain < 1.0 && inFlight <= TargetCwnd(1.0, bandwidth) {
        advance := true;
      }
      if !advance {
        return;
      }
      cycleOffset := (cycleOffset + 1) % 8;
      lastCycle := now;
      pacingGain := PACING_GAINS[cycleOffset];
    }

    /** Draining ends as soon as the flight fits, probing not before the flight is full or something
        was lost, and every phase once it has lasted a round trip. */
    predicate Advances(now: nat, priorInFlight: nat, inFlight: nat, hasLosses: bool, bandwidth: nat)
      requires minCwnd <= maxCwnd
      reads this
    {
      if pacingGain < 1.0 && inFlight <= TargetCwnd(1.0, bandwidth) then true
      else if pacingGain > 1.0 && !hasLosses && priorInFlight < TargetCwnd(pacingGain, bandwidth) then false
      else lastCycle != 0 && (now - lastCycle) as real > RoundTrip() * 1_000_000_000.0
    }

    /** One round of the search for bandwidth: one limited by the application does not count. */
    method CheckFullBandwidth(last: Option<SendState>, bandwidth: nat)
      requires Searching()
      modifies this`bwAtLastRound, this`roundsNoGain, this`fullBandwidth, this`rounds
      ensures Searching()
      ensures old(fullBandwidth) ==> fullBandwidth
      ensures rounds == if lastSampleAppLimited then old(rounds)
                        else old(rounds) + [Round(bandwidth, ExitForLoss(last))]
      ensures !lastSampleAppLimited ==>
        (rounds[|rounds| - 1].heavyLoss <==>
         && lossEventsInRound >= 8 && last.Some? && last.value.bytesInFlight > 0
         && 50 * bytesLostInRound > last.value.bytesInFlight)
    {
      LossExit(last);
      hide Ended, Idle, Base, Grew, Steps, Target, ExitForLoss;
      if lastSampleAppLimited {
        return;
      }
      ghost var round := Round(bandwidth, ExitForLoss(last));
      OneMoreRound(rounds, round);
      EndedMore(rounds, round);
      rounds := rounds + [round];
      var target := Target(bwAtLastRound);
      if bandwidth >= target {
        bwAtLastRound := bandwidth;
        roundsNoGain := 0;
        return;
      }
      roundsNoGain := roundsNoGain + 1;
      if roundsNoGain >= NO_GAIN_ROUNDS || ExitForLoss(last) {
        fullBandwidth := true;
      }
    }

    predicate ExitForLoss(last: Option<SendState>)
      reads this`lossEventsInRound, this`bytesLostInRound
    {
      lossEventsInRound >= STARTUP_LOSS_EVENTS && last.Some? && last.value.bytesInFlight > 0 && bytesLostInRound > 0
      && bytesLostInRound as real > last.value.bytesInFlight as real * STARTUP_LOSS_FRACTION
    }

    /** A round has lost too much with eight losses or more, of more than a fiftieth of the flight. */
    lemma LossExit(last: Option<SendState>)
      ensures ExitForLoss(last) <==>
        && lossEventsInRound >= 8 && last.Some? && last.value.bytesInFlight > 0
        && 50 * bytesLostInRound > last.value.bytesInFlight
    {}

    /** Startup ends when the bandwidth is known; draining ends when the flight fits the path. */
    method MaybeExitStartupDrain(now: nat, inFlight: nat, bandwidth: nat, draw: nat)
      requires Bounded() && Settling() && minCwnd <= maxCwnd
      modifies this`mode, this`pacingGain, this`cwndGain, this`lastCycle, this`cycleOffset
      ensures Coherent()
      ensures mode == (if old(mode) == Startup && !fullBandwidth then Startup
        else if old(mode) == Startup || old(mode) == Drain
          then (if inFlight <= TargetCwnd(1.0, bandwidth) then ProbeBW else Drain)
        else old(mode))
      ensures mode == ProbeBW && old(mode) != ProbeBW ==> cycleOffset != 1
    {
      hide TargetCwnd;
      if mode == Startup && fullBandwidth {
        mode := Drain;
        pacingGain := DRAIN_GAIN;
        cwndGain := CWND_GAIN;
      }
      if mode == Drain && inFlight <= TargetCwnd(1.0, bandwidth) {
        EnterProbeBW(now, draw);
      }
    }

    /** As Coherent, while Startup may just have found the bandwidth. */
    ghost predicate Settling()
      reads this
    {
      && cycleOffset < 8 && pacingGain == GainOf(mode, cycleOffset)
      && (mode == Drain || mode == ProbeBW ==> fullBandwidth) && (recovery != NotInRecovery ==> fullBandwidth)
    }

    /** An expired round trip is measured again with a small window, for a while and at least a round. */
    method MaybeProbeRTT(now: nat, roundStart: bool, inFlight: nat, expired: bool, draw: nat)
      requires Bounded() && Coherent()
      modifies this`mode, this`pacingGain, this`cwndGain, this`lastCycle, this`cycleOffset
      modifies this`exitProbeRTT, this`probeRTTRoundPassed, this`minRTTAt, this`exitingQuiescence
      ensures Coherent() && !exitingQuiescence
      ensures var entered := old(mode) != ProbeRTT && expired && !old(exitingQuiescence);
              var until := if entered then 0 else old(exitProbeRTT);
              var settled := until == 0 && inFlight < minCwnd + maxDatagramSize;
              if old(mode) != ProbeRTT && !entered then
                && mode == old(mode) && exitProbeRTT == old(exitProbeRTT)
                && probeRTTRoundPassed == old(probeRTTRoundPassed) && minRTTAt == old(minRTTAt)
              else
                && exitProbeRTT == (if settled then now + PROBE_RTT_DURATION else until)
                && probeRTTRoundPassed == ((exitProbeRTT != 0 && roundStart) || (!settled && old(probeRTTRoundPassed)))
                && (if exitProbeRTT != 0 && probeRTTRoundPassed && now >= exitProbeRTT
                    then mode == (if fullBandwidth then ProbeBW else Startup) && minRTTAt == now
                    else mode == ProbeRTT && minRTTAt == old(minRTTAt))
      ensures old(mode) != ProbeRTT ==> (mode == old(mode) || mode == ProbeRTT) && cycleOffset == old(cycleOffset)
      ensures old(mode) == ProbeRTT ==> mode == ProbeRTT || mode == (if fullBandwidth then ProbeBW else Startup)
      ensures mode == ProbeBW && old(mode) != ProbeBW ==> cycleOffset != 1
    {
      if expired && !exitingQuiescence && mode != ProbeRTT {
        mode := ProbeRTT;
        pacingGain := 1.0;
        exitProbeRTT := 0;
      }
      if mode != ProbeRTT {
        exitingQuiescence := false;
        return;
      }
      if exitProbeRTT == 0 && inFlight < minCwnd + maxDatagramSize {
        exitProbeRTT := now + PROBE_RTT_DURATION;
        probeRTTRoundPassed := false;
      }
      if exitProbeRTT != 0 && roundStart {
        probeRTTRoundPassed := true;
      }
      if exitProbeRTT != 0 && probeRTTRoundPassed && now >= exitProbeRTT {
        minRTTAt := now;
        if fullBandwidth {
          EnterProbeBW(now, draw);
        } else {
          mode := Startup;
          pacingGain := HIGH_GAIN;
          cwndGain := CWND_GAIN;
        }
      }
      exitingQuiescence := false;
    }

    /** Where the rate has gone from an earlier one: nowhere without a bandwidth; to the bandwidth at the
        gain once that is known; before that up to it, but for a first rate of the initial window in a round
        trip; and never past the cap. */
    ghost predicate Paces(before: nat, bandwidth: nat)
      reads this`fullBandwidth, this`pacingGain, this`initialCwnd, this`providerMinRTT, this`pacingRate
    {
      && (bandwidth == 0 ==> pacingRate == before)
      && (bandwidth > 0 && fullBandwidth ==>
            pacingRate == MAX_RATE || pacingRate == Scaled(bandwidth, pacingGain))
      && (bandwidth > 0 && fullBandwidth ==> pacingRate <= MAX_RATE && pacingRate <= Scaled(bandwidth, pacingGain))
      && (bandwidth > 0 && !fullBandwidth && (before > 0 || providerMinRTT == 0) ==>
            && (pacingRate == before || pacingRate == MAX_RATE || pacingRate == Scaled(bandwidth, pacingGain))
            && (pacingRate >= MAX_RATE || pacingRate >= Scaled(bandwidth, pacingGain))
            && pacingRate <= Max(before, Scaled(bandwidth, pacingGain)))
      && (bandwidth > 0 && !fullBandwidth && before == 0 && providerMinRTT > 0 ==>
            pacingRate == Min(MAX_RATE, RateFromDelta(initialCwnd, providerMinRTT)))
    }

    method CalculatePacingRate(bandwidth: nat)
      requires Bounded() && Coherent()
      modifies this`pacingRate
      ensures Bounded() && pacingRate == NextRate(old(pacingRate), bandwidth)
      ensures !fullBandwidth ==> pacingRate >= old(pacingRate)
      ensures Paces(old(pacingRate), bandwidth)
    {
      if bandwidth == 0 {
        return;
      }
      var target := Scaled(bandwidth, pacingGain);
      if fullBandwidth {
        pacingRate := target;
      } else {
        if pacingRate == 0 && providerMinRTT > 0 {
          pacingRate := Min(MAX_RATE, RateFromDelta(initialCwnd, providerMinRTT));
          return;
        }
        if pacingRate < target {
          pacingRate := target;
        }
      }
      if pacingRate > MAX_RATE {
        pacingRate := MAX_RATE;
      }
    }

    /** The rate after an event: the bandwidth times the gain once it is known, before that never less
        than it was, and seeded from the initial window. */
    function NextRate(rate: nat, bandwidth: nat): nat
      reads this`fullBandwidth, this`pacingGain, this`initialCwnd, this`providerMinRTT
    {
      if bandwidth == 0 then rate
      else if fullBandwidth then Min(MAX_RATE, Scaled(bandwidth, pacingGain))
      else if rate == 0 && providerMinRTT > 0 then Min(MAX_RATE, RateFromDelta(initialCwnd, providerMinRTT))
      else Min(MAX_RATE, Max(rate, Scaled(bandwidth, pacingGain)))
    }

    /** The window after an event: grown by what was acknowledged, up to the target once the bandwidth
        is known, and before that only while it is short of the target or of a first window's worth. */
    function NextCwnd(window: nat, bytesAcked: nat, bandwidth: nat, ackHeight: nat): nat
      requires minCwnd <= maxCwnd
      reads this`mode, this`fullBandwidth, this`cwndGain, this`initialCwnd, this`minRTT, this`providerMinRTT
      reads this`minCwnd, this`maxCwnd, this`ackedBytes
    {
      var target := TargetCwnd(cwndGain, bandwidth);
      if mode == ProbeRTT then window
      else if fullBandwidth then Max(minCwnd, Min(Min(maxCwnd, SaturatingAdd(target, ackHeight)),
                                                  SaturatingAdd(window, bytesAcked)))
      else if window < target || ackedBytes < initialCwnd
        then Max(minCwnd, Min(maxCwnd, SaturatingAdd(window, bytesAcked)))
      else Max(minCwnd, window)
    }

    /** Where the window has gone from an earlier one: in ProbeRTT nowhere; once the bandwidth is known by
        what was acknowledged, as far as that fits under the target with what aggregation adds to it, and
        otherwise to that target; before that never down, and up by what was acknowledged while it is
        short of the target or of a first window's worth. */
    ghost predicate Moves(before: nat, bytesAcked: nat, bandwidth: nat, ackHeight: nat)
      requires minCwnd <= maxCwnd
      reads this`mode, this`fullBandwidth, this`cwndGain, this`initialCwnd, this`minRTT, this`providerMinRTT
      reads this`minCwnd, this`maxCwnd, this`ackedBytes, this`cwnd
    {
      var target := TargetCwnd(cwndGain, bandwidth);
      && (mode == ProbeRTT ==> cwnd == before)
      && (mode != ProbeRTT && fullBandwidth ==>
            && cwnd <= maxCwnd && cwnd <= Max(minCwnd, target + ackHeight)
            && (before + bytesAcked <= maxCwnd && before + bytesAcked <= target + ackHeight ==>
                  cwnd == before + bytesAcked)
            && (before + bytesAcked > maxCwnd || before + bytesAcked > target + ackHeight ==>
                  cwnd == maxCwnd || cwnd == Max(minCwnd, target + ackHeight)))
      && (mode != ProbeRTT && !fullBandwidth ==>
            && before <= cwnd
            && (before < target || ackedBytes < initialCwnd ==>
                  cwnd == maxCwnd || cwnd == before + bytesAcked)
            && (before >= target && ackedBytes >= initialCwnd ==> cwnd == before))
    }

    /** The window grows by no more than was acknowledged, and stays within its bounds. */
    method CalculateCwnd(bytesAcked: nat, bandwidth: nat, ackHeight: nat)
      requires Bounded() && Coherent()
      modifies this`cwnd
      ensures minCwnd <= maxCwnd && Bounded() && cwnd == NextCwnd(old(cwnd), bytesAcked, bandwidth, ackHeight)
      ensures cwnd <= Max(minCwnd, old(cwnd) + bytesAcked)
      ensures Moves(old(cwnd), bytesAcked, bandwidth, ackHeight)
    {
      hide TargetCwnd;
      if mode == ProbeRTT {
        return;
      }
      var target := TargetCwnd(cwndGain, bandwidth);
      if fullBandwidth {
        target := Min(maxCwnd, SaturatingAdd(target, ackHeight));
        cwnd := Min(target, SaturatingAdd(cwnd, bytesAcked));
      } else if cwnd < target || ackedBytes < initialCwnd {
        cwnd := Min(maxCwnd, SaturatingAdd(cwnd, bytesAcked));
      }
      cwnd := Max(minCwnd, cwnd);
    }

    /** The recovery window after an event: less what was lost, more what was acknowledged in Growth, and
        never less than what is in flight and was acknowledged. */
    function NextRecoveryWindow(window: nat, bytesAcked: nat, bytesLost: nat, inFlight: nat): nat
      reads this`recovery, this`minCwnd, this`maxDatagramSize
    {
      var minimum := Max(minCwnd, SaturatingAdd(inFlight, bytesAcked));
      var lost := Min(MAX_BYTES, bytesLost);
      var left := if window >= lost then window - lost else maxDatagramSize;
      if recovery == NotInRecovery then window
      else if window == 0 then minimum
      else Max(minimum, if recovery == Growth then SaturatingAdd(left, bytesAcked) else left)
    }

    /** In recovery the window is what it was less what was lost, and in Growth more by what was
        acknowledged, unless what is in flight and was acknowledged needs more. */
    ghost predicate Recovers(before: nat, bytesAcked: nat, bytesLost: nat, inFlight: nat)
      reads this`recovery, this`minCwnd, this`recoveryWindow
    {
      var grown := before - bytesLost + (if recovery == Growth then bytesAcked else 0);
      recovery != NotInRecovery && before > 0 && bytesLost <= before && grown <= MAX_BYTES
      && inFlight + bytesAcked <= MAX_BYTES ==>
        recoveryWindow == Max(grown, Max(minCwnd, inFlight + bytesAcked))
    }

    /** In recovery the window covers what is in flight and was acknowledged, and grows only in Growth. */
    method CalculateRecoveryWindow(bytesAcked: nat, bytesLost: nat, inFlight: nat)
      requires Bounded()
      modifies this`recoveryWindow
      ensures Bounded() && recoveryWindow == NextRecoveryWindow(old(recoveryWindow), bytesAcked, bytesLost, inFlight)
      ensures recovery != NotInRecovery ==> recoveryWindow >= Max(minCwnd, SaturatingAdd(inFlight, bytesAcked))
      ensures recovery == Conservation && old(recoveryWindow) > 0 ==>
        recoveryWindow <= Max(old(recoveryWindow), Max(minCwnd, SaturatingAdd(inFlight, bytesAcked)))
      ensures recovery == NotInRecovery ==> recoveryWindow == old(recoveryWindow)
      ensures Recovers(old(recoveryWindow), bytesAcked, bytesLost, inFlight)
    {
      if recovery == NotInRecovery {
        return;
      }
      var lost := Min(MAX_BYTES, bytesLost);
      if recoveryWindow == 0 {
        recoveryWindow := Max(minCwnd, SaturatingAdd(inFlight, bytesAcked));
        return;
      }
      if recoveryWindow >= lost {
        recoveryWindow := recoveryWindow - lost;
      } else {
        recoveryWindow := maxDatagramSize;
      }
      if recovery == Growth {
        recoveryWindow := SaturatingAdd(recoveryWindow, bytesAcked);
      }
      var minimum := Max(minCwnd, SaturatingAdd(inFlight, bytesAcked));
      if recoveryWindow < minimum {
        recoveryWindow := minimum;
      }
    }

    /** The round trip seen, and whether the one known had expired. */
    method RefreshRTTSample(now: nat, sample: nat) returns (expired: bool)
      modifies this`minRTT, this`minRTTAt
      ensures sample > 0 ==>
        0 < minRTT <= sample && (expired <==> old(minRTTAt) != 0 && now - old(minRTTAt) >= PROBE_RTT_INTERVAL)
      ensures sample == 0 ==> !expired && minRTT == old(minRTT) && minRTTAt == old(minRTTAt)
      ensures sample > 0 && expired ==> minRTT == sample
      ensures minRTTAt == old(minRTTAt) || minRTTAt == now
      ensures sample > 0 && (expired || old(minRTT) == 0 || sample < old(minRTT)) ==> minRTTAt == now
      ensures sample > 0 && !expired && old(minRTT) > 0 ==> minRTT == Min(old(minRTT), sample)
    {
      if sample == 0 {
        return false;
      }
      expired := minRTTAt != 0 && now - minRTTAt >= PROBE_RTT_INTERVAL;
      if minRTT == 0 || sample < minRTT || expired {
        minRTT := sample;
        minRTTAt := now;
      }
    }

    /** A round begins when a packet sent in the last one is acknowledged. */
    method BeginRound(e: Event) returns (roundStart: bool)
      modifies this`bytesInFlight, this`roundEndPN, this`round, this`providerMinRTT
      ensures bytesInFlight == SaturatingRemaining(e.priorInFlight, e.ackedBytes, e.lostBytes)
      ensures roundStart <==> e.ackedBytes > 0 && e.largestAck > old(roundEndPN)
      ensures round == old(round) + (if roundStart then 1 else 0)
    {
      bytesInFlight := SaturatingRemaining(e.priorInFlight, e.ackedBytes, e.lostBytes);
      providerMinRTT := e.providerMinRTT;
      roundStart := false;
      if e.ackedBytes > 0 && e.largestAck > roundEndPN {
        roundStart := true;
        roundEndPN := maxSentPN;
        round := round + 1;
      }
    }

    /** Takes in what the sampler made of the event. */
    method Account(e: Event) returns (expired: bool)
      modifies this`minRTT, this`minRTTAt, this`ackedBytes, this`lastSampleAppLimited, this`lossEventsInRound
      modifies this`bytesLostInRound
      modifies this`peakBandwidth, this`peakBandwidthAt
      ensures peakBandwidth == Max(old(peakBandwidth), e.bandwidth)
      ensures peakBandwidthAt == if e.bandwidth > old(peakBandwidth) then e.time else old(peakBandwidthAt)
      ensures ackedBytes == old(ackedBytes) + e.bytesAckedWindow
      ensures e.lastSendState.Some? ==> lastSampleAppLimited == e.lastSendState.value.appLimited
      ensures e.lastSendState.None? ==> lastSampleAppLimited == old(lastSampleAppLimited)
      ensures bytesLostInRound == old(bytesLostInRound) + (if e.losses != 0 then e.lostBytes else 0)
      ensures lossEventsInRound == old(lossEventsInRound) + (if e.losses != 0 then 1 else 0)
      ensures expired ==> e.ackedBytes > 0 && e.rttSample > 0
    {
      expired := false;
      if e.ackedBytes > 0 {
        expired := RefreshRTTSample(e.time, e.rttSample);
      }
      ackedBytes := ackedBytes + e.bytesAckedWindow;
      if e.bandwidth > peakBandwidth {
        peakBandwidth, peakBandwidthAt := e.bandwidth, e.time;
      }
      if e.lastSendState.Some? {
        lastSampleAppLimited := e.lastSendState.value.appLimited;
      }
      if e.losses != 0 {
        lossEventsInRound := lossEventsInRound + 1;
        bytesLostInRound := bytesLostInRound + e.lostBytes;
      }
    }

    /** One congestion event, from accounting to windows. */
    method OnCongestionEvent(e: Event)
      requires Valid()
      modifies this
      ensures Valid() && bytesInFlight == SaturatingRemaining(e.priorInFlight, e.ackedBytes, e.lostBytes)
      ensures old(fullBandwidth) ==> fullBandwidth
      ensures old(rounds) <= rounds && peakBandwidth == Max(old(peakBandwidth), e.bandwidth)
      ensures Follows(old(mode), mode, fullBandwidth)
      ensures mode == ProbeBW && old(mode) != ProbeBW ==> cycleOffset != 1
      ensures minCwnd <= maxCwnd && minCwnd == old(minCwnd) && maxCwnd == old(maxCwnd)
      ensures cwnd == NextCwnd(old(cwnd), e.bytesAckedWindow, e.bandwidth, e.ackHeight)
      ensures cwnd <= Max(minCwnd, old(cwnd) + e.bytesAckedWindow)
      ensures Moves(old(cwnd), e.bytesAckedWindow, e.bandwidth, e.ackHeight)
      ensures pacingRate == NextRate(old(pacingRate), e.bandwidth) && Paces(old(pacingRate), e.bandwidth)
      ensures recoveryWindow == NextRecoveryWindow(
        if old(recovery) == NotInRecovery && recovery != NotInRecovery then 0 else old(recoveryWindow),
        e.bytesAckedWindow, e.lostBytes, bytesInFlight)
      ensures recovery != NotInRecovery && old(recovery) == NotInRecovery ==>
        e.anyAcked && e.losses > 0 && lossIsCongestion && old(fullBandwidth)
    {
      hide Bounded, Coherent, Searching, SaturatingRemaining, SaturatingAdd, Follows, NextCwnd, NextRate;
      hide NextRecoveryWindow, Moves, Paces, Recovers;
      var roundStart := Advance(e);
      Resize(e);
      CloseRound(roundStart);
    }

    /** All of an event but what it does to the windows and the rate. */
    method Advance(e: Event) returns (roundStart: bool)
      requires Valid()
      modifies this`bytesInFlight, this`roundEndPN, this`round, this`providerMinRTT, this`endRecoveryPN, this`recovery
      modifies this`recoveryWindow
      modifies this`minRTT, this`minRTTAt, this`ackedBytes, this`lastSampleAppLimited, this`lossEventsInRound
      modifies this`bytesLostInRound
      modifies this`peakBandwidth, this`peakBandwidthAt, this`mode, this`pacingGain, this`cwndGain, this`lastCycle
      modifies this`cycleOffset
      modifies this`bwAtLastRound, this`roundsNoGain, this`fullBandwidth, this`exitProbeRTT, this`probeRTTRoundPassed
      modifies this`exitingQuiescence, this`rounds
      ensures Bounded() && Coherent() && Searching() && old(rounds) <= rounds
      ensures peakBandwidth == Max(old(peakBandwidth), e.bandwidth)
      ensures bytesInFlight == SaturatingRemaining(e.priorInFlight, e.ackedBytes, e.lostBytes)
      ensures (old(fullBandwidth) ==> fullBandwidth) && Follows(old(mode), mode, fullBandwidth)
      ensures mode == ProbeBW && old(mode) != ProbeBW ==> cycleOffset != 1
      ensures recovery != NotInRecovery && old(recovery) == NotInRecovery ==>
        e.anyAcked && e.losses > 0 && lossIsCongestion && old(fullBandwidth)
      ensures recoveryWindow == if old(recovery) == NotInRecovery && recovery != NotInRecovery then 0
                                else old(recoveryWindow)
    {
      hide Bounded, Coherent, Searching, SaturatingRemaining, Follows;
      var expired;
      roundStart, expired := Open(e);
      ChangeMode(e, roundStart, expired);
    }

    /** A round that has ended is no longer counted in. */
    method CloseRound(roundStart: bool)
      modifies this`lossEventsInRound, this`bytesLostInRound
      ensures lossEventsInRound == (if roundStart then 0 else old(lossEventsInRound))
      ensures bytesLostInRound == (if roundStart then 0 else old(bytesLostInRound))
    {
      if roundStart {
        lossEventsInRound := 0;
        bytesLostInRound := 0;
      }
    }

    lemma BoundsOrdered()
      requires Bounded()
      ensures minCwnd <= maxCwnd
    {}

    /** What an event does to the windows and the rate. */
    method Resize(e: Event)
      requires Bounded() && Coherent()
      modifies this`pacingRate, this`cwnd, this`recoveryWindow
      ensures Bounded() && minCwnd <= maxCwnd && cwnd <= Max(minCwnd, old(cwnd) + e.bytesAckedWindow)
      ensures cwnd == NextCwnd(old(cwnd), e.bytesAckedWindow, e.bandwidth, e.ackHeight)
      ensures Moves(old(cwnd), e.bytesAckedWindow, e.bandwidth, e.ackHeight)
      ensures pacingRate == NextRate(old(pacingRate), e.bandwidth) && Paces(old(pacingRate), e.bandwidth)
      ensures recoveryWindow == NextRecoveryWindow(old(recoveryWindow), e.bytesAckedWindow, e.lostBytes, bytesInFlight)
      ensures recovery != NotInRecovery ==> recoveryWindow > 0
    {
      hide SaturatingAdd, NextCwnd, NextRate, NextRecoveryWindow, Moves, Paces, Recovers;
      CalculatePacingRate(e.bandwidth);
      CalculateCwnd(e.bytesAckedWindow, e.bandwidth, e.ackHeight);
      CalculateRecoveryWindow(e.bytesAckedWindow, e.lostBytes, bytesInFlight);
    }

    /** The accounting of an event, and what it does to recovery. */
    method Open(e: Event) returns (roundStart: bool, expired: bool)
      requires Bounded() && Coherent()
      modifies this`bytesInFlight, this`roundEndPN, this`round, this`providerMinRTT, this`endRecoveryPN, this`recovery
      modifies this`recoveryWindow
      modifies this`minRTT, this`minRTTAt, this`ackedBytes, this`lastSampleAppLimited, this`lossEventsInRound
      modifies this`bytesLostInRound
      modifies this`peakBandwidth, this`peakBandwidthAt
      ensures peakBandwidth == Max(old(peakBandwidth), e.bandwidth)
      ensures Bounded() && Coherent()
      ensures bytesInFlight == SaturatingRemaining(e.priorInFlight, e.ackedBytes, e.lostBytes)
      ensures recovery != NotInRecovery && old(recovery) == NotInRecovery ==>
        e.anyAcked && e.losses > 0 && lossIsCongestion && fullBandwidth
      ensures recoveryWindow == if old(recovery) == NotInRecovery && recovery != NotInRecovery then 0
                                else old(recoveryWindow)
    {
      hide Bounded, Coherent, SaturatingRemaining;
      roundStart := BeginRound(e);
      if e.anyAcked {
        UpdateRecoveryState(e.largestAck, e.losses != 0 && lossIsCongestion, roundStart);
      }
      expired := Account(e);
    }

    /** What an event does to the mode. */
    method ChangeMode(e: Event, roundStart: bool, expired: bool)
      requires Bounded() && Coherent() && Searching()
      modifies this`mode, this`pacingGain, this`cwndGain, this`lastCycle, this`cycleOffset, this`bwAtLastRound
      modifies this`roundsNoGain
      modifies this`fullBandwidth, this`exitProbeRTT, this`probeRTTRoundPassed, this`minRTTAt, this`exitingQuiescence
      modifies this`rounds
      ensures Bounded() && Coherent() && Searching() && old(rounds) <= rounds && (old(fullBandwidth) ==> fullBandwidth)
      ensures Follows(old(mode), mode, fullBandwidth)
      ensures mode == ProbeBW && old(mode) != ProbeBW ==> cycleOffset != 1
    {
      hide GainOf, TargetCwnd, ExitForLoss, Advances, Searching, Bounded;
      BoundsOrdered();
      if mode == ProbeBW {
        UpdateGainCycle(e.time, e.priorInFlight, bytesInFlight, e.losses != 0, e.bandwidth);
      }
      if roundStart && !fullBandwidth {
        CheckFullBandwidth(e.lastSendState, e.bandwidth);
      }
      MaybeExitStartupDrain(e.time, bytesInFlight, e.bandwidth, e.draw);
      MaybeProbeRTT(e.time, roundStart, bytesInFlight, expired, e.draw);
    }

    /** A packet goes out; with nothing in flight before it the sender leaves its rest. The filter holds
        the bandwidth estimate. */
    method OnPacketSent(filter: W.Filter, now: nat, clock: nat, number: int, inFlight: nat, bytes: nat,
                        retransmittable: bool)
      requires Valid() && filter.Valid()
      modifies this`maxSentPN, this`exitingQuiescence, this`bytesInFlight, this`pacingRate, this`cwnd
      modifies filter`history, filter`least, filter`timeWindow, filter.samples
      ensures Valid() && filter.Valid() && maxSentPN == (if retransmittable then number else old(maxSentPN))
      ensures exitingQuiescence == (old(exitingQuiescence) || inFlight == 0)
      ensures bytesInFlight == if retransmittable && inFlight <= MAX_BYTES then SaturatingAdd(inFlight, bytes)
                               else inFlight
      ensures pacingRate >= old(pacingRate) && cwnd >= old(cwnd)
      ensures Min(MAX_RATE, filter.samples[0].value) >= Min(MAX_RATE, old(filter.samples[0].value))
      ensures inFlight > 0 ==> filter.history == old(filter.history) && filter.View() == old(filter.View())
      ensures inFlight == 0 ==>
        if old(Remembered(filter, now)) then Seeded(old(filter.history), filter, clock, peakBandwidth)
        else filter.history == old(filter.history) && filter.View() == old(filter.View())
    {
      hide Bounded, Coherent, Searching, Remembered, Seeded, W.Filter.Valid, W.Expired, SaturatingAdd;
      if retransmittable {
        maxSentPN := number;
      }
      if inFlight == 0 {
        exitingQuiescence := true;
        RestartFromIdle(filter, now, clock);
      }
      bytesInFlight := if retransmittable && inFlight <= MAX_BYTES then SaturatingAdd(inFlight, bytes) else inFlight;
    }

    /** The peak is above the estimate and no older than the filter's own window. */
    ghost predicate Remembered(filter: W.Filter, now: nat)
      reads this`peakBandwidth, this`peakBandwidthAt, filter, filter.samples
      requires filter.samples.Length == 3
    {
      && peakBandwidth > filter.samples[0].value
      && !W.Expired(W.Sample(0, peakBandwidthAt, peakBandwidth), now, filter.timeWindow)
    }

    /** The rate was recorded as a sample of its own, and the estimate is at least that. */
    ghost predicate Seeded(before: seq<W.Sample>, filter: W.Filter, clock: nat, rate: nat)
      reads this`round, filter, filter.samples
      requires filter.samples.Length == 3
    {
      && filter.history == before + [W.Sample(round, clock, Min(rate, MAX_RATE))]
      && filter.samples[0].value >= Min(rate, MAX_RATE)
    }

    /** What idling forgot is put back, while a measurement of its age would still stand. */
    method RestartFromIdle(filter: W.Filter, now: nat, clock: nat)
      requires Valid() && filter.Valid()
      modifies this`pacingRate, this`cwnd, filter`history, filter`least, filter`timeWindow, filter.samples
      ensures Valid() && filter.Valid() && pacingRate >= old(pacingRate) && cwnd >= old(cwnd)
      ensures Min(MAX_RATE, filter.samples[0].value) >= Min(MAX_RATE, old(filter.samples[0].value))
      ensures if old(Remembered(filter, now)) then Seeded(old(filter.history), filter, clock, peakBandwidth)
              else filter.history == old(filter.history) && filter.View() == old(filter.View())
    {
      hide Bounded, Coherent, Searching;
      var estimate := filter.Get();
      FilterEstimate(filter);
      if peakBandwidth <= estimate {
        return;
      }
      if W.Expired(W.Sample(0, peakBandwidthAt, peakBandwidth), now, filter.timeWindow) {
        return;
      }
      SeedBandwidth(filter, clock, peakBandwidth, minRTT);
    }

    /** Starts from a bandwidth measured elsewhere: nothing is lowered by it, the estimate is at least
        that afterwards, and the round trip known to this sender is left alone. */
    method SeedBandwidth(filter: W.Filter, clock: nat, rate: nat, roundTrip: nat)
      requires Valid() && filter.Valid()
      modifies this`pacingRate, this`cwnd, filter`history, filter`least, filter`timeWindow, filter.samples
      ensures Valid() && filter.Valid() && pacingRate >= old(pacingRate) && cwnd >= old(cwnd)
      ensures if rate == 0 then filter.history == old(filter.history) && filter.View() == old(filter.View())
              else Seeded(old(filter.history), filter, clock, rate)
      ensures pacingRate == if rate == 0 then old(pacingRate)
                            else Max(old(pacingRate), Min(MAX_RATE, Scaled(Min(rate, MAX_RATE), HIGH_GAIN)))
      ensures cwnd == if rate == 0 || roundTrip == 0 then old(cwnd)
        else Max(old(cwnd), Min(maxCwnd, Scaled(Min(rate, MAX_RATE), roundTrip as real / 1_000_000_000.0)))
    {
      hide Coherent, Searching, W.Nested, W.Updated, W.Fresh, W.Forward;
      if rate == 0 {
        return;
      }
      var capped := Min(rate, MAX_RATE);
      if roundTrip > 0 {
        filter.SetRoundTrip(roundTrip);
      }
      filter.UpdateMax(round, clock, capped);
      FilterEstimate(filter);
      var pacing := Scaled(capped, HIGH_GAIN);
      if pacing > pacingRate {
        pacingRate := Min(pacing, MAX_RATE);
      }
      if roundTrip == 0 {
        return;
      }
      var window := Scaled(capped, roundTrip as real / 1_000_000_000.0);
      if window > maxCwnd {
        window := maxCwnd;
      }
      if window > cwnd {
        cwnd := window;
      }
    }

    /** Another datagram size: the bounds move with it and every window is brought within them. */
    method SetMaxDatagramSize(size: int)
      requires Valid() && (size > 0 ==> maxPackets * size <= MAX_BYTES)
      modifies this`maxDatagramSize, this`initialCwnd, this`minCwnd, this`maxCwnd, this`cwnd, this`recoveryWindow
      ensures Valid() && (size > 0 ==> maxDatagramSize == size)
      ensures size <= 0 ==> maxDatagramSize == old(maxDatagramSize)
      ensures size > 0 && old(cwnd == minCwnd) ==> cwnd == minCwnd
      ensures size > 0 && old(cwnd == initialCwnd && cwnd != minCwnd) ==> cwnd == initialCwnd
      ensures size > 0 && old(cwnd != initialCwnd && cwnd != minCwnd) ==> cwnd == Min(maxCwnd, Max(minCwnd, old(cwnd)))
      ensures size > 0 ==> recoveryWindow == Min(maxCwnd, Max(minCwnd, old(recoveryWindow)))
      ensures size > 0 ==>
        initialCwnd == Min(maxCwnd, Max(minCwnd, ScaleWindow(old(initialCwnd), old(maxDatagramSize), size)))
    {
      hide Coherent, Searching, ScaleWindow, Min, Max;
      if size <= 0 {
        return;
      }
      var oldMinCwnd, oldInitialCwnd := minCwnd, initialCwnd;
      Products(4, maxPackets, size);
      var scaled := ScaleWindow(initialCwnd, maxDatagramSize, size);
      maxDatagramSize := size;
      Clamped(4 * size, maxPackets * size, scaled); Clamped(4 * size, maxPackets * size, cwnd);
      Clamped(4 * size, maxPackets * size, recoveryWindow);
      minCwnd := 4 * size;
      maxCwnd := maxPackets * size;
      initialCwnd := Min(maxCwnd, Max(minCwnd, scaled));
      if cwnd == oldMinCwnd {
        cwnd := minCwnd;
      } else if cwnd == oldInitialCwnd {
        cwnd := initialCwnd;
      } else {
        cwnd := Min(maxCwnd, Max(minCwnd, cwnd));
      }
      recoveryWindow := Min(maxCwnd, Max(minCwnd, recoveryWindow));
    }

    /** The window in force: never below the least one. */
    function CongestionWindow(): (window: nat)
      requires Valid()
      reads this
      ensures minCwnd <= window <= maxCwnd
      ensures mode == ProbeRTT ==> window == minCwnd
      ensures recovery != NotInRecovery && mode != Startup ==> window <= recoveryWindow
      ensures mode != ProbeRTT ==> window == cwnd || (window == recoveryWindow && window < cwnd)
      ensures mode != ProbeRTT && (recovery == NotInRecovery || mode == Startup) ==> window == cwnd
    {
      var window := Max(minCwnd, if mode == ProbeRTT then minCwnd else cwnd);
      if recovery != NotInRecovery && mode != Startup && recoveryWindow > 0 && window > recoveryWindow
        then recoveryWindow else window
    }
  }

  /** The estimate covers the newest sample. */
  lemma FilterEstimate(filter: W.Filter)
    requires filter.Valid()
    ensures filter.history == [] ==> filter.samples[0].value == 0
    ensures filter.history != [] ==> filter.samples[0].value >= filter.history[|filter.history| - 1].value
  {
    if filter.history != [] {
      var p: nat, q: nat, r: nat :| W.NestedAt(filter.View(), filter.history, p, q, r);
    }
  }

  /** A window in the units of another datagram size. */
  function ScaleWindow(window: nat, oldSize: nat, newSize: nat): nat
    requires oldSize > 0 && newSize > 0
  {
    if window == 0 || oldSize == newSize then window
    else if window > MAX_BYTES / newSize then MAX_BYTES
    else Quotient(window * newSize, oldSize)
  }

  function Quotient(a: nat, b: nat): nat
    requires b > 0
  {
    a / b
  }

  /** A window keeps its number of datagrams when their size changes. */
  lemma ScaledWindowKeeps(packets: nat, oldSize: nat, newSize: nat)
    requires oldSize > 0 && newSize > 0 && packets * oldSize <= MAX_BYTES / newSize
    ensures ScaleWindow(packets * oldSize, oldSize, newSize) == packets * newSize
  {
    var window := packets * oldSize;
    assert window * newSize == packets * newSize * oldSize;
    WholeQuotient(packets * newSize, oldSize);
    if window == 0 { NoPackets(packets, oldSize); }
  }

  lemma NoPackets(packets: nat, size: nat)
    requires size > 0 && packets * size == 0
    ensures packets == 0
  {}

  lemma WholeQuotient(a: nat, b: nat)
    requires b > 0
    ensures Quotient(a * b, b) == a
  {
    var q := a * b / b;
    RemainderSmall(a * b, b);
    assert q + 1 <= a ==> (q + 1) * b <= a * b;
    assert a + 1 <= q ==> (a + 1) * b <= q * b;
  }

  lemma RemainderSmall(x: nat, b: nat)
    requires b > 0
    ensures 0 <= x - x / b * b < b
  {
    assert x == x / b * b + x % b;
  }

  lemma FilledAs(bandwidth: real, rtt: real, gain: real, second: real)
    requires second > 0.0
    ensures bandwidth * (rtt / second) * gain * second == bandwidth * rtt * gain
  {}

  lemma Products(a: nat, b: nat, size: nat)
    requires a <= b
    ensures a * size <= b * size
  {}

  lemma Clamped(lo: nat, hi: nat, x: nat)
    requires lo <= hi
    ensures lo <= Min(hi, Max(lo, x)) <= hi
  {}

  lemma FloorWithin(x: real, lo: nat, hi: nat)
    requires lo as real <= x <= hi as real
    ensures lo <= x.Floor <= hi
  {}

  /** Bytes over nanoseconds as bytes a second. */
  function RateFromDelta(bytes: nat, nanos: nat): nat
    requires nanos > 0
  {
    bytes * 1_000_000_000 / nanos
  }

  /** A rate times a gain, in whole bytes a second. */
  function Scaled(bandwidth: nat, gain: real): nat {
    if gain < 0.0 then 0 else ScaledPositive(bandwidth, gain); (bandwidth as real * gain).Floor
  }

  /** A rate at a gain is their product, to the byte. */
  lemma ScaledIsProduct(bandwidth: nat, gain: real)
    requires gain >= 0.0
    ensures Scaled(bandwidth, gain) as real <= bandwidth as real * gain < Scaled(bandwidth, gain) as real + 1.0
    ensures Scaled(1_000_000, 1.25) == 1_250_000
  {
    ScaledPositive(bandwidth, gain);
    assert 1_000_000 as real * 1.25 == 1_250_000.0;
  }

  /** A rate over a time gives back the bytes, short of one more byte a second. */
  lemma RateGives(bytes: nat, nanos: nat)
    requires nanos > 0
    ensures var r := RateFromDelta(bytes, nanos);
            r * nanos <= bytes * 1_000_000_000 < (r + 1) * nanos
  {
    var b := bytes * 1_000_000_000;
    assert b == b / nanos * nanos + b % nanos;
  }

  lemma ScaledPositive(bandwidth: nat, gain: real)
    requires gain >= 0.0
    ensures (bandwidth as real * gain).Floor >= 0
  {
    assert bandwidth as real * gain >= 0.0;
  }
}
