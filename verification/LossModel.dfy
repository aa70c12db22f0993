/**
 The loss estimator as a value: a ring of arrivals not yet decided, and the
 decaying statistics of the outcomes decided so far. The counters are reals.
 */
module LossModel {
  const RING: nat := 1024
  /** A jump past this is a break in the numbering rather than a gap in it. */
  const MAX_GAP: nat := 8 * RING

  datatype Config = Config(roundSamples: nat, rounds: nat, tolerance: nat)

  predicate Proper(cfg: Config) {
    cfg.roundSamples > 0 && cfg.rounds > 0 && 0 < cfg.tolerance < RING
  }

  function WithDefaults(roundSamples: int, rounds: int, tolerance: int): (cfg: Config)
    ensures Proper(cfg)
  {
    Config(if roundSamples <= 0 then 2000 else roundSamples, if rounds <= 0 then 8 else rounds,
           if tolerance <= 0 then 8 else if tolerance >= RING then RING - 1 else tolerance)
  }

  // ---------- the statistics ----------

  /** The decaying transition counters, the round in progress, and the loss rates of recent rounds. */
  datatype Stats = Stats(
    samples: real, losses: real,
    fromArrival: real, lossAfterArrival: real, fromLoss: real, arrivalAfterLoss: real,
    prevLost: bool, havePrev: bool,
    roundSamples: nat, roundLosses: nat, rounds: seq<real>, roundAt: nat)

  function NoStats(): Stats {
    Stats(0.0, 0.0, 0.0, 0.0, 0.0, 0.0, false, false, 0, 0, [], 0)
  }

  function One(b: bool): real {
    if b then 1.0 else 0.0
  }

  /** One more outcome counted, before any round is closed. */
  function Tally(s: Stats, arrived: bool): Stats {
    s.(samples := s.samples + 1.0, losses := s.losses + One(!arrived),
       fromLoss := s.fromLoss + One(s.havePrev && s.prevLost),
       arrivalAfterLoss := s.arrivalAfterLoss + One(s.havePrev && s.prevLost && arrived),
       fromArrival := s.fromArrival + One(s.havePrev && !s.prevLost),
       lossAfterArrival := s.lossAfterArrival + One(s.havePrev && !s.prevLost && !arrived),
       prevLost := !arrived, havePrev := true,
       roundSamples := s.roundSamples + 1, roundLosses := s.roundLosses + if arrived then 0 else 1)
  }

  function CloseRound(cfg: Config, s: Stats): Stats
    requires Proper(cfg) && s.roundSamples > 0
  {
    var loss := s.roundLosses as real / s.roundSamples as real;
    var full := |s.rounds| >= cfg.rounds && s.roundAt < |s.rounds|;
    s.(rounds := if |s.rounds| < cfg.rounds then s.rounds + [loss]
                 else if full then s.rounds[s.roundAt := loss]
                 else s.rounds,
       roundAt := if |s.rounds| < cfg.rounds then s.roundAt else (s.roundAt + 1) % cfg.rounds,
       roundSamples := 0, roundLosses := 0,
       samples := s.samples * 0.75, losses := s.losses * 0.75,
       fromArrival := s.fromArrival * 0.75, lossAfterArrival := s.lossAfterArrival * 0.75,
       fromLoss := s.fromLoss * 0.75, arrivalAfterLoss := s.arrivalAfterLoss * 0.75)
  }

  function Record(cfg: Config, s: Stats, arrived: bool): Stats
    requires Proper(cfg)
  {
    var t := Tally(s, arrived);
    if t.roundSamples >= cfg.roundSamples then CloseRound(cfg, t) else t
  }

  // ---------- the ring ----------

  /** log is every outcome recorded so far, oldest first; true is an arrival. */
  datatype Estimator = Estimator(
    ring: seq<bool>, next: nat, highest: nat, started: bool,
    discontinuities: nat, reordered: nat, stats: Stats, log: seq<bool>)

  type Ring = s: seq<bool> | |s| == RING witness seq(RING, _ => false)

  function Clear(): Ring {
    seq(RING, _ => false)
  }

  function Fresh(): Estimator {
    Estimator(Clear(), 0, 0, false, 0, 0, NoStats(), [])
  }

  function Decide(cfg: Config, e: Estimator): Estimator
    requires Proper(cfg) && |e.ring| == RING
  {
    var arrived := e.ring[e.next % RING];
    e.(ring := e.ring[e.next % RING := false], next := e.next + 1,
       stats := Record(cfg, e.stats, arrived), log := e.log + [arrived])
  }

  /** Decides from the bottom until fewer than bound identifiers precede the highest. */
  function DecideUntil(cfg: Config, e: Estimator, bound: nat): (r: Estimator)
    requires Proper(cfg) && |e.ring| == RING && bound > 0
    ensures |r.ring| == RING
    decreases e.highest - e.next
  {
    if e.highest - e.next < bound then e else DecideUntil(cfg, Decide(cfg, e), bound)
  }

  function Restart(e: Estimator, x: nat): Estimator {
    e.(ring := Clear(), next := x, highest := x,
       stats := e.stats.(havePrev := false), discontinuities := e.discontinuities + 1)
  }

  /** The base lowered and the highest raised to take in x. */
  function Stretch(e: Estimator, x: nat): Estimator {
    e.(next := if x < e.next then x else e.next, highest := if x > e.highest then x else e.highest)
  }

  function Rejects(e: Estimator, x: nat): bool {
    x < e.next && (e.log != [] || e.highest - x >= RING)
  }

  /** Retires what no longer fits the ring, marks x, and decides up to the reorder tolerance. */
  function Settle(cfg: Config, e: Estimator, x: nat): Estimator
    requires Proper(cfg) && |e.ring| == RING
  {
    var fit := DecideUntil(cfg, e, RING);
    DecideUntil(cfg, fit.(ring := fit.ring[x % RING := true]), cfg.tolerance)
  }

  function Observe(cfg: Config, e: Estimator, x: nat): (r: Estimator)
    requires Proper(cfg) && |e.ring| == RING
    ensures |r.ring| == RING
  {
    if !e.started then
      e.(started := true, next := x, highest := x, ring := e.ring[x % RING := true])
    else if Rejects(e, x) then
      e.(reordered := e.reordered + 1)
    else
      var wide := Stretch(e, x);
      Settle(cfg, if wide.highest - wide.next > MAX_GAP then Restart(wide, x) else wide, x)
  }

  function ObserveAll(cfg: Config, arrivals: seq<nat>): (e: Estimator)
    requires Proper(cfg)
    ensures |e.ring| == RING
  {
    if arrivals == [] then Fresh() else
      Observe(cfg, ObserveAll(cfg, arrivals[..|arrivals| - 1]), arrivals[|arrivals| - 1])
  }
}
