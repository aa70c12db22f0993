/**
 The congestion controller's state machine: modes, recovery and windows, over
 every sequence of sends, acknowledgement and loss events and changes of datagram
 size. The delivery sampler, the clock and the random phase are inputs of each
 event; rates and gains are reals, windows are bytes, times nanoseconds with zero
 for never.
 */
module Bbr {
  import opened Wrappers

  const HIGH_GAIN: real := 2.885
  const CWND_GAIN: real := 2.0
  const MAX_BYTES: nat := 0x7FFF_FFFF_FFFF_FFFF
  const MAX_COUNT: nat := 0xFFFF_FFFF_FFFF_FFFF
  const MAX_RATE: nat := 2 * 1024 * 1024 * 1024
  const PROBE_RTT_INTERVAL: nat := 10_000_000_000
  const PROBE_RTT_DURATION: nat := 200_000_000
  const DEFAULT_RTT: nat := 100_000_000
  const SECOND: real := 1_000_000_000.0

  datatype Mode = Startup | Drain | ProbeBw | ProbeRtt
  datatype Recovery = NotInRecovery | Conservation | Growth

  datatype State = State(
    // the windows
    maxPackets: nat, datagram: nat, initialCwnd: nat, minCwnd: nat, maxCwnd: nat, cwnd: nat,
    recovery: Recovery, recoveryWindow: nat, endRecovery: int,
    // the mode
    mode: Mode, pacingGain: real, cwndGain: real, lastCycle: nat, cycleOffset: nat,
    exitProbeRtt: nat, probeRttRoundPassed: bool, exitingQuiescence: bool,
    // the path model
    minRtt: nat, minRttAt: nat, maxSent: int, roundEnd: int, round: nat,
    bwAtLastRound: nat, roundsNoGain: nat, full: bool, lastSampleAppLimited: bool,
    lossEvents: nat, bytesLost: nat, ackedBytes: nat, pacingRate: nat, inFlight: nat)

  /** A packet's state when it was sent, as the sampler kept it. */
  datatype SendState = SendState(appLimited: bool, bytesInFlight: nat)

  /** What one acknowledgement and loss event brings, including what the sampler says after taking it in. */
  datatype Report = Report(
    now: nat, prior: int, ackCount: nat, ackedBytes: nat, largestAck: int,
    lossCount: nat, lostBytes: nat, lossIsCongestion: bool,
    bandwidth: nat, ackHeight: nat, bytesAckedWindow: nat, rttSample: nat, providerRtt: nat,
    lastSend: Option<SendState>, phase: nat)

  datatype Seed = Seed(rate: nat, roundTrip: nat)

  datatype Event =
    /** idleSeed is what restarting from idle would put back, if the pipe was empty. */
    | Sent(number: int, inFlight: int, bytes: int, retransmittable: bool, idleSeed: Option<Seed>)
    | Joined(seed: Seed)
    | Acked(report: Report)
    | Resized(size: int)

  function Min(a: int, b: int): int {
    if a < b then a else b
  }

  function Max(a: int, b: int): int {
    if a > b then a else b
  }

  function AddBytes(a: int, b: nat): (r: nat)
    ensures r <= MAX_BYTES
  {
    var base := Max(a, 0);
    if base >= MAX_BYTES || b > MAX_BYTES - base then MAX_BYTES else base + b
  }

  function AddCount(a: nat, b: nat): nat {
    if a + b > MAX_COUNT then MAX_COUNT else a + b
  }

  /** What is left of the flight after an event. */
  function Remaining(inFlight: int, acked: nat, lost: nat): nat {
    if inFlight <= 0 || acked >= inFlight || lost >= inFlight - acked then 0 else inFlight - acked - lost
  }

  function PreSend(postSend: int, bytes: int, retransmittable: bool): nat {
    if postSend <= 0 || !retransmittable || bytes <= 0 then Max(0, postSend)
    else if postSend <= bytes then 0 else postSend - bytes
  }

  function New(packetSize: nat, maxPackets: nat): State {
    var low, high := 4 * packetSize, maxPackets * packetSize;
    var initial := Min(high, Max(low, 32 * packetSize));
    State(maxPackets, packetSize, initial, low, high, initial, NotInRecovery, 0, -1,
          Startup, HIGH_GAIN, CWND_GAIN, 0, 0, 0, false, false,
          0, 0, -1, -1, 0, 0, 0, false, false, 0, 0, 0, 0, 0)
  }

  function Rtt(b: State, providerRtt: nat): nat {
    if b.minRtt > 0 then b.minRtt else if providerRtt > 0 then providerRtt else DEFAULT_RTT
  }

  /** The window that holds gain times the measured bandwidth-delay product, within the limits. */
  function TargetCwnd(b: State, bandwidth: nat, providerRtt: nat, gain: real): int {
    if bandwidth == 0 then
      var target := b.initialCwnd as real * gain;
      if target > b.maxCwnd as real then b.maxCwnd else Max(b.minCwnd, target.Floor)
    else
      var bdp := bandwidth as real * (Rtt(b, providerRtt) as real / SECOND) * gain;
      if bdp < b.minCwnd as real then b.minCwnd
      else if bdp > b.maxCwnd as real then b.maxCwnd
      else bdp.Floor
  }

  function PacingGain(offset: nat): real {
    if offset == 0 then 1.25 else if offset == 1 then 0.75 else 1.0
  }

  /** The random starting phase, never the draining one. */
  function StartPhase(phase: nat): (r: nat)
    ensures r < 8 && r != 1
  {
    if phase % 7 >= 1 then phase % 7 + 1 else 0
  }

  // ---------- the handlers ----------

  function SeedPacing(rate: int): int {
    (rate as real * HIGH_GAIN).Floor
  }

  function SeedWindow(rate: int, roundTrip: nat): int {
    (rate as real * (roundTrip as real / SECOND)).Floor
  }

  /** The pacing rate raised to this. */
  function Paced(b: State, pacing: int): State {
    if pacing > b.pacingRate then b.(pacingRate := Max(0, Min(pacing, MAX_RATE))) else b
  }

  /** The window raised to this, up to its maximum. */
  function Widened(b: State, window: int): State {
    if Min(window, b.maxCwnd) > b.cwnd then b.(cwnd := Min(window, b.maxCwnd)) else b
  }

  function SeedBandwidth(b: State, s: Seed): State {
    if s.rate == 0 then b else
      var rate := Min(s.rate, MAX_RATE);
      var paced := Paced(b, SeedPacing(rate));
      if s.roundTrip == 0 then paced else Widened(paced, SeedWindow(rate, s.roundTrip))
  }

  function OnSent(
    b: State, number: int, inFlight: int, bytes: int, retransmittable: bool, idleSeed: Option<Seed>): State {
    var s := b.(maxSent := number);
    var t := if PreSend(inFlight, bytes, retransmittable) == 0 then
               (if idleSeed.Some? then SeedBandwidth(s.(exitingQuiescence := true), idleSeed.value)
                else s.(exitingQuiescence := true))
             else s;
    t.(inFlight := Max(0, inFlight))
  }

  function UpdateRecovery(b: State, largestAck: int, hasLosses: bool, roundStart: bool): State {
    if !b.full then b else
      var c := if hasLosses then b.(endRecovery := b.maxSent) else b;
      if c.recovery == NotInRecovery then
        if hasLosses then c.(recovery := Conservation, recoveryWindow := 0, roundEnd := c.maxSent) else c
      else if !hasLosses && largestAck > c.endRecovery then c.(recovery := NotInRecovery)
      else if c.recovery == Conservation && roundStart then c.(recovery := Growth)
      else c
  }

  /** Takes the sample if it is lower or the old one has expired; says whether it had. */
  function RefreshRtt(b: State, now: nat, sample: nat): (State, bool) {
    if sample == 0 then (b, false) else
      var expired := b.minRttAt != 0 && now - b.minRttAt >= PROBE_RTT_INTERVAL;
      (if b.minRtt == 0 || sample < b.minRtt || expired then b.(minRtt := sample, minRttAt := now) else b, expired)
  }

  function UpdateGainCycle(b: State, r: Report, inFlight: nat): State {
    var timely := b.lastCycle != 0 && r.now - b.lastCycle > Rtt(b, r.providerRtt);
    var filling := b.pacingGain > 1.0 && r.lossCount == 0
        && r.prior < TargetCwnd(b, r.bandwidth, r.providerRtt, b.pacingGain);
    var drained := b.pacingGain < 1.0 && inFlight <= TargetCwnd(b, r.bandwidth, r.providerRtt, 1.0);
    if (timely && !filling) || drained then
      var offset := (b.cycleOffset + 1) % 8;
      b.(cycleOffset := offset, lastCycle := r.now, pacingGain := PacingGain(offset))
    else b
  }

  function ExitsForLoss(b: State, lastSend: Option<SendState>): bool {
    && b.lossEvents >= 8 && lastSend.Some? && lastSend.value.bytesInFlight != 0 && b.bytesLost != 0
    && b.bytesLost as real > lastSend.value.bytesInFlight as real * 0.02
  }

  function CheckFull(b: State, bandwidth: nat, lastSend: Option<SendState>): State {
    if b.lastSampleAppLimited then b
    else if bandwidth >= (b.bwAtLastRound as real * 1.25).Floor then b.(bwAtLastRound := bandwidth, roundsNoGain := 0)
    else
      var c := b.(roundsNoGain := b.roundsNoGain + 1);
      if c.roundsNoGain >= 3 || ExitsForLoss(c, lastSend) then c.(full := true) else c
  }

  function EnterProbeBw(b: State, now: nat, phase: nat): State {
    b.(mode := ProbeBw, cwndGain := CWND_GAIN, lastCycle := now, cycleOffset := StartPhase(phase),
       pacingGain := PacingGain(StartPhase(phase)))
  }

  function ExitStartupDrain(b: State, r: Report, inFlight: nat): State {
    var c :=
      if b.mode == Startup && b.full then
        b.(mode := Drain, pacingGain := 1.0 / HIGH_GAIN, cwndGain := CWND_GAIN)
      else b;
    if c.mode == Drain && inFlight <= TargetCwnd(c, r.bandwidth, r.providerRtt, 1.0) then
      EnterProbeBw(c, r.now, r.phase)
    else c
  }

  function MaybeProbeRtt(b: State, r: Report, roundStart: bool, inFlight: nat, expired: bool): State {
    var c := if expired && !b.exitingQuiescence && b.mode != ProbeRtt
             then b.(mode := ProbeRtt, pacingGain := 1.0, exitProbeRtt := 0) else b;
    if c.mode != ProbeRtt then c.(exitingQuiescence := false)
    else LeaveProbeRtt(ArmProbeRtt(c, r, roundStart, inFlight), r).(exitingQuiescence := false)
  }

  /** Sets the probe's end once the flight has drained, and notes the round that passes after it. */
  function ArmProbeRtt(c: State, r: Report, roundStart: bool, inFlight: nat): State {
    var d := if c.exitProbeRtt == 0 && inFlight < c.minCwnd + c.datagram
             then c.(exitProbeRtt := r.now + PROBE_RTT_DURATION, probeRttRoundPassed := false) else c;
    if d.exitProbeRtt != 0 && roundStart then d.(probeRttRoundPassed := true) else d
  }

  function LeaveProbeRtt(e: State, r: Report): State {
    if e.exitProbeRtt != 0 && e.probeRttRoundPassed && r.now >= e.exitProbeRtt then
      var g := e.(minRttAt := r.now);
      if g.full then EnterProbeBw(g, r.now, r.phase)
      else g.(mode := Startup, pacingGain := HIGH_GAIN, cwndGain := CWND_GAIN)
    else e
  }

  function RateOf(bytes: nat, elapsed: nat): nat {
    if bytes == 0 || elapsed == 0 then 0 else
      var q := bytes * 1_000_000_000 / elapsed;
      if q > MAX_COUNT then MAX_COUNT else q
  }

  function PacingTarget(bandwidth: nat, gain: real): nat {
    Max(0, (bandwidth as real * gain).Floor)
  }

  function CalculatePacing(b: State, r: Report): State {
    if r.bandwidth == 0 then b else
      var target := PacingTarget(r.bandwidth, b.pacingGain);
      if b.full then b.(pacingRate := Min(target, MAX_RATE))
      else if b.pacingRate == 0 && r.providerRtt > 0 then
        b.(pacingRate := Min(RateOf(b.initialCwnd, r.providerRtt), MAX_RATE))
      else b.(pacingRate := Min(Max(b.pacingRate, target), MAX_RATE))
  }

  function CalculateCwnd(b: State, r: Report): State {
    if b.mode == ProbeRtt then b else
      var target := TargetCwnd(b, r.bandwidth, r.providerRtt, b.cwndGain);
      var grown := AddBytes(b.cwnd, r.bytesAckedWindow);
      var window :=
        if b.full then Min(Min(b.maxCwnd, AddBytes(target, r.ackHeight)), grown)
        else if b.cwnd < target || b.ackedBytes < b.initialCwnd then Min(b.maxCwnd, grown)
        else b.cwnd;
      b.(cwnd := Max(window, b.minCwnd))
  }

  function CalculateRecoveryWindow(b: State, bytesAcked: nat, bytesLost: nat, inFlight: nat): State {
    if b.recovery == NotInRecovery then b else
      var floor := Max(b.minCwnd, AddBytes(inFlight, bytesAcked));
      if b.recoveryWindow == 0 then b.(recoveryWindow := floor) else
        var lost := Min(bytesLost, MAX_BYTES);
        var less := if b.recoveryWindow >= lost then b.recoveryWindow - lost else b.datagram;
        var grown := if b.recovery == Growth then AddBytes(less, bytesAcked) else less;
        b.(recoveryWindow := Max(grown, floor))
  }

  predicate StartsRound(b: State, r: Report) {
    r.ackedBytes > 0 && r.largestAck > b.roundEnd
  }

  /** The round and the recovery state. */
  function Rounds(b: State, r: Report): State {
    var inFlight := Remaining(r.prior, r.ackedBytes, r.lostBytes);
    var c := if StartsRound(b, r) then b.(inFlight := inFlight, roundEnd := b.maxSent, round := b.round + 1)
             else b.(inFlight := inFlight);
    if r.ackCount > 0 then UpdateRecovery(c, r.largestAck, r.lossCount > 0 && r.lossIsCongestion, StartsRound(b, r))
    else c
  }

  /** Whether the minimum round trip expires with this event. */
  predicate RttExpires(b: State, r: Report) {
    r.ackedBytes > 0 && RefreshRtt(b, r.now, r.rttSample).1
  }

  /** The round trip and the counts of the round. */
  function Measure(b: State, r: Report): State {
    var c := if r.ackedBytes > 0 then RefreshRtt(b, r.now, r.rttSample).0 else b;
    c.(ackedBytes := AddCount(c.ackedBytes, r.bytesAckedWindow),
       lastSampleAppLimited := if r.lastSend.Some? then r.lastSend.value.appLimited else c.lastSampleAppLimited,
       lossEvents := if r.lossCount > 0 then AddCount(c.lossEvents, 1) else c.lossEvents,
       bytesLost := if r.lossCount > 0 then AddCount(c.bytesLost, r.lostBytes) else c.bytesLost)
  }

  /** The gain cycle, the bandwidth test and the mode. */
  function Modes(b: State, r: Report, roundStart: bool, expired: bool): State {
    var c := if b.mode == ProbeBw then UpdateGainCycle(b, r, b.inFlight) else b;
    var d := if roundStart && !c.full then CheckFull(c, r.bandwidth, r.lastSend) else c;
    MaybeProbeRtt(ExitStartupDrain(d, r, b.inFlight), r, roundStart, b.inFlight, expired)
  }

  /** Everything before the windows are recalculated. */
  function Advance(b: State, r: Report): State {
    var c := Rounds(b, r);
    Modes(Measure(c, r), r, StartsRound(b, r), RttExpires(c, r))
  }

  function OnEvent(b: State, r: Report): State {
    var c := CalculateCwnd(CalculatePacing(Advance(b, r), r), r);
    var d := CalculateRecoveryWindow(c, r.bytesAckedWindow, r.lostBytes, Remaining(r.prior, r.ackedBytes, r.lostBytes));
    if StartsRound(b, r) then d.(lossEvents := 0, bytesLost := 0) else d
  }

  function ScaleWindow(window: nat, oldSize: nat, newSize: nat): nat {
    if window == 0 || oldSize == 0 || newSize == 0 || oldSize == newSize then window
    else if window > MAX_BYTES / newSize then MAX_BYTES
    else window * newSize / oldSize
  }

  function Resize(b: State, size: int): State {
    if size <= 0 then b else
      var low, high := 4 * size, b.maxPackets * size;
      var from := if b.datagram == 0 then size else b.datagram;
      var initial := Min(high, Max(low, ScaleWindow(b.initialCwnd, from, size)));
      var window := if b.cwnd == b.minCwnd then low else if b.cwnd == b.initialCwnd then initial
          else Min(high, Max(low, b.cwnd));
      b.(datagram := size, minCwnd := low, maxCwnd := high, initialCwnd := Max(0, initial), cwnd := Max(0, window),
         recoveryWindow := Max(0, Min(high, Max(low, b.recoveryWindow))))
  }

  function Step(b: State, e: Event): State {
    match e
    case Sent(number, inFlight, bytes, retransmittable, idleSeed) =>
      OnSent(b, number, inFlight, bytes, retransmittable, idleSeed)
    case Joined(seed) => SeedBandwidth(b, seed)
    case Acked(r) => OnEvent(b, r)
    case Resized(size) => Resize(b, size)
  }

  /** The window the sender may fill now. */
  function CongestionWindow(b: State): nat {
    var window := if b.mode == ProbeRtt then b.minCwnd else b.cwnd;
    var floored := if window < b.minCwnd then b.minCwnd else window;
    if b.recovery != NotInRecovery && b.mode != Startup && b.recoveryWindow > 0 && floored > b.recoveryWindow
    then b.recoveryWindow else floored
  }

  // ---------- the invariant ----------

  /** The windows lie within the limits, which follow the datagram size. */
  ghost predicate Windows(b: State) {
    && b.maxPackets >= 4 && b.minCwnd == 4 * b.datagram && b.maxCwnd == b.maxPackets * b.datagram
    && b.minCwnd <= b.initialCwnd <= b.maxCwnd
    && b.minCwnd <= b.cwnd <= b.maxCwnd
    && (b.recoveryWindow == 0 || b.minCwnd <= b.recoveryWindow)
    && b.pacingRate <= MAX_RATE
  }

  /** Startup is only for a path whose bandwidth is not known; draining, probing and recovery only for one whose is. */
  ghost predicate Phases(b: State) {
    && (b.mode == Startup ==> !b.full)
    && (b.mode == Drain || b.mode == ProbeBw ==> b.full)
    && (b.recovery != NotInRecovery ==> b.full)
  }

  lemma LimitsOrdered(maxPackets: nat, size: nat)
    requires maxPackets >= 4
    ensures 4 * size <= maxPackets * size
  {
  }

  lemma NewSane(packetSize: nat, maxPackets: nat)
    requires maxPackets >= 4
    ensures Windows(New(packetSize, maxPackets)) && Phases(New(packetSize, maxPackets))
  {
    LimitsOrdered(maxPackets, packetSize);
  }

  /** The target is within the limits whatever the sampler says. */
  lemma TargetBounded(b: State, bandwidth: nat, providerRtt: nat, gain: real)
    requires Windows(b)
    ensures b.minCwnd <= TargetCwnd(b, bandwidth, providerRtt, gain) <= b.maxCwnd
  {
  }

  lemma SeedSane(b: State, s: Seed)
    requires Windows(b)
    ensures var c := SeedBandwidth(b, s);
            && Windows(c) && c.mode == b.mode && c.full == b.full && c.recovery == b.recovery && c.cwnd >= b.cwnd
  {
    hide SeedPacing, SeedWindow, Windows, Paced, Widened, Min;
    var rate := Min(s.rate, MAX_RATE);
    PacedSane(b, SeedPacing(rate));
    WidenedSane(Paced(b, SeedPacing(rate)), SeedWindow(rate, s.roundTrip));
  }

  lemma PacedSane(b: State, pacing: int)
    requires Windows(b)
    ensures var c := Paced(b, pacing); Windows(c) && c == b.(pacingRate := c.pacingRate)
  {
  }

  lemma WidenedSane(b: State, window: int)
    requires Windows(b)
    ensures var c := Widened(b, window); Windows(c) && c == b.(cwnd := c.cwnd) && c.cwnd >= b.cwnd
  {
  }

  lemma SentSane(b: State, number: int, inFlight: int, bytes: int, retransmittable: bool, idleSeed: Option<Seed>)
    requires Windows(b) && Phases(b)
    ensures var c := OnSent(b, number, inFlight, bytes, retransmittable, idleSeed);
            && Windows(c) && Phases(c) && c.full == b.full && c.mode == b.mode
  {
    hide SeedBandwidth;
    if idleSeed.Some? {
      SeedSane(b.(maxSent := number, exitingQuiescence := true), idleSeed.value);
    }
  }

  /** What the handlers before the windows leave alone: the windows but for a recovery window that starts anew. */
  ghost predicate Kept(b: State, c: State) {
    && c.maxPackets == b.maxPackets && c.datagram == b.datagram && c.minCwnd == b.minCwnd && c.maxCwnd == b.maxCwnd
    && c.initialCwnd == b.initialCwnd && c.cwnd == b.cwnd && c.pacingRate == b.pacingRate && c.inFlight == b.inFlight
    && (c.recoveryWindow == b.recoveryWindow || c.recoveryWindow == 0)
    && (b.full ==> c.full)
  }

  lemma RecoveryStep(b: State, largestAck: int, hasLosses: bool, roundStart: bool)
    requires Phases(b)
    ensures var c := UpdateRecovery(b, largestAck, hasLosses, roundStart);
            Kept(b, c) && Phases(c) && c.full == b.full && c.mode == b.mode
  {
  }

  lemma GainCycleStep(b: State, r: Report, inFlight: nat)
    ensures var c := UpdateGainCycle(b, r, inFlight);
            Kept(b, c) && c.full == b.full && c.mode == b.mode && c.recovery == b.recovery
  {
  }

  lemma CheckFullStep(b: State, bandwidth: nat, lastSend: Option<SendState>)
    ensures var c := CheckFull(b, bandwidth, lastSend); Kept(b, c) && c.mode == b.mode && c.recovery == b.recovery
  {
  }

  /** Leaving startup, entering and leaving the round-trip probe re-establish the phases once full may have been set. */
  lemma ModeStep(b: State, r: Report, roundStart: bool, inFlight: nat, expired: bool)
    requires (b.mode == Drain || b.mode == ProbeBw ==> b.full) && (b.recovery != NotInRecovery ==> b.full)
    ensures var c := MaybeProbeRtt(ExitStartupDrain(b, r, inFlight), r, roundStart, inFlight, expired);
            Kept(b, c) && Phases(c) && c.full == b.full
  {
    hide TargetCwnd;
    var d := ExitStartupDrain(b, r, inFlight);
    assert Kept(b, d) && Phases(d) && d.full == b.full;
    ProbeRttStep(d, r, roundStart, inFlight, expired);
  }

  lemma ProbeRttStep(b: State, r: Report, roundStart: bool, inFlight: nat, expired: bool)
    requires Phases(b)
    ensures var c := MaybeProbeRtt(b, r, roundStart, inFlight, expired); Kept(b, c) && Phases(c) && c.full == b.full
  {
    hide ArmProbeRtt, LeaveProbeRtt;
    var c := if expired && !b.exitingQuiescence && b.mode != ProbeRtt
             then b.(mode := ProbeRtt, pacingGain := 1.0, exitProbeRtt := 0) else b;
    ArmStep(c, r, roundStart, inFlight);
    LeaveStep(ArmProbeRtt(c, r, roundStart, inFlight), r);
  }

  lemma ArmStep(b: State, r: Report, roundStart: bool, inFlight: nat)
    ensures var c := ArmProbeRtt(b, r, roundStart, inFlight);
            Kept(b, c) && c.full == b.full && c.mode == b.mode && c.recovery == b.recovery
  {
  }

  lemma LeaveStep(b: State, r: Report)
    ensures var c := LeaveProbeRtt(b, r);
            && Kept(b, c) && c.full == b.full && c.recovery == b.recovery
            && (c.mode == b.mode || c.mode == if b.full then ProbeBw else Startup)
  {
    hide StartPhase, PacingGain;
  }

  /** The state with only the flight updated. */
  function Left(b: State, r: Report): State {
    b.(inFlight := Remaining(r.prior, r.ackedBytes, r.lostBytes))
  }

  lemma RoundsStep(b: State, r: Report)
    requires Phases(b)
    ensures var c := Rounds(b, r); Kept(Left(b, r), c) && Phases(c) && c.full == b.full
  {
    hide UpdateRecovery, Remaining;
    var inFlight := Remaining(r.prior, r.ackedBytes, r.lostBytes);
    var c := if StartsRound(b, r) then b.(inFlight := inFlight, roundEnd := b.maxSent, round := b.round + 1)
             else b.(inFlight := inFlight);
    RecoveryStep(c, r.largestAck, r.lossCount > 0 && r.lossIsCongestion, StartsRound(b, r));
  }

  lemma MeasureStep(b: State, r: Report)
    ensures var c := Measure(b, r);
            Kept(b, c) && c.full == b.full && c.mode == b.mode && c.recovery == b.recovery
  {
    hide AddCount;
  }

  lemma ModesStep(b: State, r: Report, roundStart: bool, expired: bool)
    requires Phases(b)
    ensures var c := Modes(b, r, roundStart, expired); Kept(b, c) && Phases(c)
  {
    hide UpdateGainCycle, CheckFull, MaybeProbeRtt, ExitStartupDrain;
    GainCycleStep(b, r, b.inFlight);
    var c := if b.mode == ProbeBw then UpdateGainCycle(b, r, b.inFlight) else b;
    CheckFullStep(c, r.bandwidth, r.lastSend);
    var d := if roundStart && !c.full then CheckFull(c, r.bandwidth, r.lastSend) else c;
    ModeStep(d, r, roundStart, b.inFlight, expired);
  }

  lemma AdvanceSane(b: State, r: Report)
    requires Phases(b)
    ensures Kept(Left(b, r), Advance(b, r)) && Phases(Advance(b, r))
  {
    hide Rounds, Measure, Modes, Remaining;
    RoundsStep(b, r);
    MeasureStep(Rounds(b, r), r);
    ModesStep(Measure(Rounds(b, r), r), r, StartsRound(b, r), RttExpires(Rounds(b, r), r));
  }

  lemma PacingStep(b: State, r: Report)
    requires Windows(b)
    ensures var c := CalculatePacing(b, r);
            && Windows(c) && c.mode == b.mode && c.full == b.full && c.recovery == b.recovery
  {
    hide RateOf, PacingTarget;
  }

  lemma CwndStep(b: State, r: Report)
    requires Windows(b)
    ensures var c := CalculateCwnd(b, r);
            && Windows(c) && c.mode == b.mode && c.full == b.full && c.recovery == b.recovery
  {
    hide TargetCwnd, AddBytes;
    TargetBounded(b, r.bandwidth, r.providerRtt, b.cwndGain);
  }

  lemma RecoveryWindowStep(b: State, bytesAcked: nat, bytesLost: nat, inFlight: nat)
    requires Windows(b)
    ensures var c := CalculateRecoveryWindow(b, bytesAcked, bytesLost, inFlight);
            && Windows(c) && c.mode == b.mode && c.full == b.full && c.recovery == b.recovery
  {
  }

  lemma EventSane(b: State, r: Report)
    requires Windows(b) && Phases(b)
    ensures Windows(OnEvent(b, r)) && Phases(OnEvent(b, r)) && (b.full ==> OnEvent(b, r).full)
  {
    hide Advance, CalculateCwnd, CalculatePacing, CalculateRecoveryWindow;
    AdvanceSane(b, r);
    var a := Advance(b, r);
    PacingStep(a, r);
    CwndStep(CalculatePacing(a, r), r);
    RecoveryWindowStep(CalculateCwnd(CalculatePacing(a, r), r), r.bytesAckedWindow, r.lostBytes,
                       Remaining(r.prior, r.ackedBytes, r.lostBytes));
  }

  lemma ResizeSane(b: State, size: int)
    requires Windows(b) && Phases(b)
    ensures Windows(Resize(b, size)) && Phases(Resize(b, size)) && Resize(b, size).full == b.full
  {
    if size > 0 {
      LimitsOrdered(b.maxPackets, size);
    }
  }

  lemma StepSane(b: State, e: Event)
    requires Windows(b) && Phases(b)
    ensures Windows(Step(b, e)) && Phases(Step(b, e)) && (b.full ==> Step(b, e).full)
  {
    hide OnEvent, Resize, SeedBandwidth, OnSent;
    match e
    case Sent(number, inFlight, bytes, retransmittable, idleSeed) =>
      SentSane(b, number, inFlight, bytes, retransmittable, idleSeed);
    case Joined(seed) => SeedSane(b, seed);
    case Acked(r) => EventSane(b, r);
    case Resized(size) => ResizeSane(b, size);
  }

  function Run(b: State, events: seq<Event>): State
    decreases |events|
  {
    if events == [] then b else Run(Step(b, events[0]), events[1..])
  }

  /**
   Over every sequence of sends, seeds, acknowledgement and loss events and
   datagram-size changes: the congestion window, and the window actually offered,
   stay between four datagrams and the maximum; recovery, draining and probing are
   entered only once full bandwidth has been found, and once it has, startup is
   never entered again.
   */
  lemma {:induction false} BbrInvariant(b: State, events: seq<Event>)
    requires Windows(b) && Phases(b)
    ensures var c := Run(b, events);
            && Windows(c) && Phases(c)
            && c.minCwnd <= CongestionWindow(c) <= c.maxCwnd
            && (b.full ==> c.full && c.mode != Startup)
    decreases |events|
  {
    hide Step, Windows, Phases;
    if events == [] {
      OfferedWindow(b);
    } else {
      StepSane(b, events[0]);
      BbrInvariant(Step(b, events[0]), events[1..]);
    }
  }

  lemma OfferedWindow(b: State)
    requires Windows(b) && Phases(b)
    ensures b.minCwnd <= CongestionWindow(b) <= b.maxCwnd && (b.full ==> b.mode != Startup)
  {
  }
}
