/** The controller as it runs: each handler updates the state in place, in the order the events come. */
module BbrSender {
  import opened Wrappers
  import opened Bbr

  class Sender {
    var b: State

    constructor (packetSize: nat, maxPackets: nat)
      requires maxPackets >= 4
      ensures b == New(packetSize, maxPackets) && Windows(b) && Phases(b)
    {
      b := New(packetSize, maxPackets);
      NewSane(packetSize, maxPackets);
    }

    /** The window the sender may fill now, within its limits. */
    method GetCongestionWindow() returns (window: nat)
      requires Windows(b) && Phases(b)
      ensures window == CongestionWindow(b) && b.minCwnd <= window <= b.maxCwnd
    {
      window := b.cwnd;
      if b.mode == ProbeRtt {
        window := b.minCwnd;
      }
      if window < b.minCwnd {
        window := b.minCwnd;
      }
      if b.recovery != NotInRecovery && b.mode != Startup && b.recoveryWindow > 0 && window > b.recoveryWindow {
        window := b.recoveryWindow;
      }
    }

    method SeedRate(s: Seed)
      requires Windows(b)
      modifies this
      ensures b == SeedBandwidth(old(b), s)
      ensures Windows(b) && b.cwnd >= old(b.cwnd) && b.mode == old(b.mode) && b.full == old(b.full)
    {
      hide Windows, SeedPacing, SeedWindow;
      SeedSane(b, s);
      if s.rate == 0 {
        return;
      }
      var rate := Min(s.rate, MAX_RATE);
      var pacing := SeedPacing(rate);
      if pacing > b.pacingRate {
        b := b.(pacingRate := Max(0, Min(pacing, MAX_RATE)));
      }
      if s.roundTrip == 0 {
        return;
      }
      var window := SeedWindow(rate, s.roundTrip);
      if window > b.maxCwnd {
        window := b.maxCwnd;
      }
      if window > b.cwnd {
        b := b.(cwnd := window);
      }
    }

    method OnPacketSent(number: int, inFlight: int, bytes: int, retransmittable: bool, idleSeed: Option<Seed>)
      requires Windows(b) && Phases(b)
      modifies this
      ensures b == OnSent(old(b), number, inFlight, bytes, retransmittable, idleSeed) && Windows(b) && Phases(b)
    {
      SentSane(b, number, inFlight, bytes, retransmittable, idleSeed);
      hide SeedBandwidth;
      b := b.(maxSent := number);
      if PreSend(inFlight, bytes, retransmittable) == 0 {
        b := b.(exitingQuiescence := true);
        if idleSeed.Some? {
          SeedRate(idleSeed.value);
        }
      }
      b := b.(inFlight := Max(0, inFlight));
    }

    method UpdateRecoveryState(largestAck: int, hasLosses: bool, roundStart: bool)
      requires Phases(b)
      modifies this
      ensures b == UpdateRecovery(old(b), largestAck, hasLosses, roundStart) && Phases(b) && b.mode == old(b.mode)
    {
      RecoveryStep(b, largestAck, hasLosses, roundStart);
      if !b.full {
        return;
      }
      if hasLosses {
        b := b.(endRecovery := b.maxSent);
      }
      if b.recovery == NotInRecovery {
        if hasLosses {
          b := b.(recovery := Conservation, recoveryWindow := 0);
          b := b.(roundEnd := b.maxSent);
        }
      } else {
        if b.recovery == Conservation && roundStart {
          b := b.(recovery := Growth);
        }
        if !hasLosses && largestAck > b.endRecovery {
          b := b.(recovery := NotInRecovery);
        }
      }
    }

    method UpdateCycle(r: Report)
      modifies this
      ensures b == UpdateGainCycle(old(b), r, old(b.inFlight))
    {
      hide TargetCwnd;
      var advance := b.lastCycle != 0 && r.now - b.lastCycle > Rtt(b, r.providerRtt);
      if b.pacingGain > 1.0 && r.lossCount == 0 && r.prior < TargetCwnd(b, r.bandwidth, r.providerRtt, b.pacingGain) {
        advance := false;
      }
      if b.pacingGain < 1.0 && b.inFlight <= TargetCwnd(b, r.bandwidth, r.providerRtt, 1.0) {
        advance := true;
      }
      if !advance {
        return;
      }
      b := b.(cycleOffset := (b.cycleOffset + 1) % 8, lastCycle := r.now);
      b := b.(pacingGain := PacingGain(b.cycleOffset));
    }

    method MaybeExitStartupDrain(r: Report)
      requires (b.mode == Drain || b.mode == ProbeBw ==> b.full) && (b.recovery != NotInRecovery ==> b.full)
      modifies this
      ensures b == ExitStartupDrain(old(b), r, old(b.inFlight)) && Phases(b)
    {
      hide TargetCwnd, StartPhase;
      if b.mode == Startup && b.full {
        b := b.(mode := Drain, pacingGain := 1.0 / HIGH_GAIN, cwndGain := CWND_GAIN);
      }
      if b.mode == Drain && b.inFlight <= TargetCwnd(b, r.bandwidth, r.providerRtt, 1.0) {
        b := b.(mode := ProbeBw, cwndGain := CWND_GAIN, lastCycle := r.now, cycleOffset := StartPhase(r.phase));
        b := b.(pacingGain := PacingGain(b.cycleOffset));
      }
    }

    method CheckFullBandwidth(bandwidth: nat, lastSend: Option<SendState>)
      modifies this
      ensures b == CheckFull(old(b), bandwidth, lastSend)
    {
      if b.lastSampleAppLimited {
        return;
      }
      var target := (b.bwAtLastRound as real * 1.25).Floor;
      if bandwidth >= target {
        b := b.(bwAtLastRound := bandwidth, roundsNoGain := 0);
        return;
      }
      b := b.(roundsNoGain := b.roundsNoGain + 1);
      if b.roundsNoGain >= 3 || ExitsForLoss(b, lastSend) {
        b := b.(full := true);
      }
    }

    method ProbeRoundTrip(r: Report, roundStart: bool, expired: bool)
      requires Phases(b)
      modifies this
      ensures b == MaybeProbeRtt(old(b), r, roundStart, old(b.inFlight), expired) && Phases(b)
    {
      ProbeRttStep(b, r, roundStart, b.inFlight, expired);
      if expired && !b.exitingQuiescence && b.mode != ProbeRtt {
        b := b.(mode := ProbeRtt, pacingGain := 1.0, exitProbeRtt := 0);
      }
      if b.mode != ProbeRtt {
        b := b.(exitingQuiescence := false);
        return;
      }
      ProbeUntilDone(r, roundStart);
      b := b.(exitingQuiescence := false);
    }

    /** The part of the probe that arms its end and leaves it. */
    method ProbeUntilDone(r: Report, roundStart: bool)
      modifies this
      ensures b == LeaveProbeRtt(ArmProbeRtt(old(b), r, roundStart, old(b.inFlight)), r)
    {
      hide StartPhase;
      if b.exitProbeRtt == 0 && b.inFlight < b.minCwnd + b.datagram {
        b := b.(exitProbeRtt := r.now + PROBE_RTT_DURATION, probeRttRoundPassed := false);
      }
      if b.exitProbeRtt != 0 && roundStart {
        b := b.(probeRttRoundPassed := true);
      }
      assert b == ArmProbeRtt(old(b), r, roundStart, old(b.inFlight));
      if b.exitProbeRtt != 0 && b.probeRttRoundPassed && r.now >= b.exitProbeRtt {
        b := b.(minRttAt := r.now);
        if b.full {
          b := b.(mode := ProbeBw, cwndGain := CWND_GAIN, lastCycle := r.now, cycleOffset := StartPhase(r.phase));
          b := b.(pacingGain := PacingGain(b.cycleOffset));
        } else {
          b := b.(mode := Startup, pacingGain := HIGH_GAIN, cwndGain := CWND_GAIN);
        }
      }
    }

    method UpdatePacing(r: Report)
      requires Windows(b)
      modifies this
      ensures b == CalculatePacing(old(b), r) && Windows(b)
    {
      hide Windows, RateOf, PacingTarget;
      PacingStep(b, r);
      if r.bandwidth == 0 {
        return;
      }
      var target := PacingTarget(r.bandwidth, b.pacingGain);
      if b.full {
        b := b.(pacingRate := target);
      } else {
        if b.pacingRate == 0 && r.providerRtt > 0 {
          b := b.(pacingRate := RateOf(b.initialCwnd, r.providerRtt));
          if b.pacingRate > MAX_RATE {
            b := b.(pacingRate := MAX_RATE);
          }
          return;
        }
        if b.pacingRate < target {
          b := b.(pacingRate := target);
        }
      }
      if b.pacingRate > MAX_RATE {
        b := b.(pacingRate := MAX_RATE);
      }
    }

    method UpdateCwnd(r: Report)
      requires Windows(b)
      modifies this
      ensures b == CalculateCwnd(old(b), r) && Windows(b)
    {
      CwndStep(b, r);
      hide TargetCwnd, AddBytes;
      if b.mode == ProbeRtt {
        return;
      }
      TargetBounded(b, r.bandwidth, r.providerRtt, b.cwndGain);
      var target := TargetCwnd(b, r.bandwidth, r.providerRtt, b.cwndGain);
      if b.full {
        target := Min(b.maxCwnd, AddBytes(target, r.ackHeight));
        b := b.(cwnd := Max(0, Min(target, AddBytes(b.cwnd, r.bytesAckedWindow))));
      } else if b.cwnd < target || b.ackedBytes < b.initialCwnd {
        b := b.(cwnd := Max(0, Min(b.maxCwnd, AddBytes(b.cwnd, r.bytesAckedWindow))));
      }
      if b.cwnd < b.minCwnd {
        b := b.(cwnd := b.minCwnd);
      }
    }

    method UpdateRecoveryWindow(bytesAcked: nat, bytesLost: nat)
      requires Windows(b)
      modifies this
      ensures b == CalculateRecoveryWindow(old(b), bytesAcked, bytesLost, old(b.inFlight)) && Windows(b)
    {
      hide Windows, AddBytes;
      RecoveryWindowStep(b, bytesAcked, bytesLost, b.inFlight);
      if b.recovery == NotInRecovery {
        return;
      }
      var floor := Max(b.minCwnd, AddBytes(b.inFlight, bytesAcked));
      if b.recoveryWindow == 0 {
        b := b.(recoveryWindow := floor);
        return;
      }
      var lost, window := Min(bytesLost, MAX_BYTES), b.recoveryWindow as int;
      if window >= lost {
        window := window - lost;
      } else {
        window := b.datagram;
      }
      if b.recovery == Growth {
        window := AddBytes(window, bytesAcked);
      }
      if window < floor {
        window := floor;
      }
      b := b.(recoveryWindow := window);
    }

    /** The handlers that decide rounds, recovery and mode. */
    method AdvanceModes(r: Report) returns (roundStart: bool)
      requires Phases(b)
      modifies this
      ensures b == Advance(old(b), r) && roundStart == StartsRound(old(b), r) && Phases(b)
    {
      AdvanceSane(b, r);
      hide Rounds, Measure, Modes;
      roundStart := StartRound(r);
      var expired := RttExpires(b, r);
      MeasureStep(b, r);
      b := Measure(b, r);
      ChangeMode(r, roundStart, expired);
    }

    /** Counts the round and moves recovery on. */
    method StartRound(r: Report) returns (roundStart: bool)
      requires Phases(b)
      modifies this
      ensures b == Rounds(old(b), r) && roundStart == StartsRound(old(b), r) && Phases(b)
    {
      RoundsStep(b, r);
      hide UpdateRecovery, Remaining;
      roundStart := r.ackedBytes > 0 && r.largestAck > b.roundEnd;
      b := b.(inFlight := Remaining(r.prior, r.ackedBytes, r.lostBytes));
      if roundStart {
        b := b.(roundEnd := b.maxSent, round := b.round + 1);
      }
      if r.ackCount > 0 {
        UpdateRecoveryState(r.largestAck, r.lossCount > 0 && r.lossIsCongestion, roundStart);
      }
    }

    method ChangeMode(r: Report, roundStart: bool, expired: bool)
      requires Phases(b)
      modifies this
      ensures b == Modes(old(b), r, roundStart, expired) && Phases(b)
    {
      ModesStep(b, r, roundStart, expired);
      hide UpdateGainCycle, CheckFull, ExitStartupDrain, MaybeProbeRtt;
      GainCycleStep(b, r, b.inFlight);
      if b.mode == ProbeBw {
        UpdateCycle(r);
      }
      CheckFullStep(b, r.bandwidth, r.lastSend);
      if roundStart && !b.full {
        CheckFullBandwidth(r.bandwidth, r.lastSend);
      }
      ExitFlight(b, r);
      MaybeExitStartupDrain(r);
      ProbeRoundTrip(r, roundStart, expired);
    }

    /** One acknowledgement and loss event. */
    method OnCongestionEvent(r: Report)
      requires Windows(b) && Phases(b)
      modifies this
      ensures b == OnEvent(old(b), r) && Windows(b) && Phases(b)
    {
      hide Advance, CalculateCwnd, CalculatePacing, CalculateRecoveryWindow, Windows, Phases;
      EventSane(b, r);
      AdvanceWindows(b, r);
      var roundStart := AdvanceModes(r);
      UpdatePacing(r);
      UpdateCwnd(r);
      UpdateRecoveryWindow(r.bytesAckedWindow, r.lostBytes);
      if roundStart {
        b := b.(lossEvents := 0, bytesLost := 0);
      }
    }

    method SetMaxDatagramSize(size: int)
      requires Windows(b) && Phases(b)
      modifies this
      ensures b == Resize(old(b), size) && Windows(b) && Phases(b)
    {
      ResizeSane(b, size);
      hide ScaleWindow;
      if size <= 0 {
        return;
      }
      LimitsOrdered(b.maxPackets, size);
      var oldSize := if b.datagram == 0 then size else b.datagram;
      var oldMin, oldInitial := b.minCwnd, b.initialCwnd;
      b := b.(datagram := size, minCwnd := 4 * size, maxCwnd := b.maxPackets * size);
      b := b.(initialCwnd := Max(0, Min(b.maxCwnd, Max(b.minCwnd, ScaleWindow(oldInitial, oldSize, size)))));
      if b.cwnd == oldMin {
        b := b.(cwnd := b.minCwnd);
      } else if b.cwnd == oldInitial {
        b := b.(cwnd := b.initialCwnd);
      } else {
        b := b.(cwnd := Max(0, Min(b.maxCwnd, Max(b.minCwnd, b.cwnd))));
      }
      b := b.(recoveryWindow := Max(0, Min(b.maxCwnd, Max(b.minCwnd, b.recoveryWindow))));
    }
  }

  lemma ExitFlight(b: State, r: Report)
    ensures ExitStartupDrain(b, r, b.inFlight).inFlight == b.inFlight
  {
    hide TargetCwnd, StartPhase;
  }

  lemma WindowFlight(b: State, r: Report)
    ensures CalculateCwnd(CalculatePacing(b, r), r).inFlight == b.inFlight
  {
    hide TargetCwnd, AddBytes, RateOf;
  }

  /** Before the windows are recalculated they are still within their limits, and the flight is what the event left. */
  lemma AdvanceWindows(b: State, r: Report)
    requires Windows(b) && Phases(b)
    ensures Windows(Advance(b, r)) && Windows(CalculatePacing(Advance(b, r), r))
    ensures CalculateCwnd(CalculatePacing(Advance(b, r), r), r).inFlight
            == Remaining(r.prior, r.ackedBytes, r.lostBytes)
  {
    hide Advance, CalculateCwnd, CalculatePacing, Remaining;
    AdvanceSane(b, r);
    PacingStep(Advance(b, r), r);
    WindowFlight(Advance(b, r), r);
  }
}
