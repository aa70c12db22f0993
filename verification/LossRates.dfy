/** The rates the estimator reports, the offline analysis of a finished run, and when the two agree. */
module LossRates {
  import opened LossModel

  // ---------- counting a log ----------

  /** How many outcomes of this kind directly follow one of that kind. */
  function Follows(log: seq<bool>, that: bool, this_: bool): nat {
    if |log| <= 1 then 0 else
      var n := |log| - 1;
      Follows(log[..n], that, this_) + if log[n - 1] == that && log[n] == this_ then 1 else 0
  }

  function Lost(log: seq<bool>): nat {
    if log == [] then 0 else Lost(log[..|log| - 1]) + if log[|log| - 1] then 0 else 1
  }

  datatype Rates = Rates(loss: real, lossAfterArrival: real, arrivalAfterLoss: real)

  function Ratio(a: nat, b: nat): real {
    if b > 0 then a as real / b as real else 0.0
  }

  /** The three rates of a finished run. */
  function RatesOf(log: seq<bool>): Rates {
    Rates(Ratio(Lost(log), |log|),
          Ratio(Follows(log, true, false), Follows(log, true, false) + Follows(log, true, true)),
          Ratio(Follows(log, false, true), Follows(log, false, true) + Follows(log, false, false)))
  }

  method Analyze(arrived: seq<bool>) returns (r: Rates, lost: nat)
    ensures r == RatesOf(arrived) && lost == Lost(arrived)
  {
    hide Lost, Follows;
    var fromArrival: nat, lossAfterArrival: nat, fromLoss: nat, arrivalAfterLoss: nat := 0, 0, 0, 0;
    lost := 0;
    var i: nat := 0;
    NothingCounted();
    assert arrived[..0] == [];
    while i < |arrived|
      invariant i <= |arrived| && lost == Lost(arrived[..i])
      invariant lossAfterArrival == Follows(arrived[..i], true, false)
      invariant fromArrival == lossAfterArrival + Follows(arrived[..i], true, true)
      invariant arrivalAfterLoss == Follows(arrived[..i], false, true)
      invariant fromLoss == arrivalAfterLoss + Follows(arrived[..i], false, false)
    {
      CountStep(arrived, i);
      var ok := arrived[i];
      if !ok {
        lost := lost + 1;
      }
      if i > 0 {
        if !arrived[i - 1] {
          fromLoss := fromLoss + 1;
          if ok {
            arrivalAfterLoss := arrivalAfterLoss + 1;
          }
        } else {
          fromArrival := fromArrival + 1;
          if !ok {
            lossAfterArrival := lossAfterArrival + 1;
          }
        }
      }
      i := i + 1;
    }
    assert arrived[..|arrived|] == arrived;
    r := Rates(0.0, 0.0, 0.0);
    if |arrived| > 0 {
      r := r.(loss := lost as real / |arrived| as real);
    }
    if fromArrival > 0 {
      r := r.(lossAfterArrival := lossAfterArrival as real / fromArrival as real);
    }
    if fromLoss > 0 {
      r := r.(arrivalAfterLoss := arrivalAfterLoss as real / fromLoss as real);
    }
  }

  lemma NothingCounted()
    ensures Lost([]) == 0 && forall a, b :: Follows([], a, b) == 0
  {
  }

  lemma CountStep(log: seq<bool>, i: nat)
    requires i < |log|
    ensures Lost(log[..i + 1]) == Lost(log[..i]) + if log[i] then 0 else 1
    ensures forall a, b :: Follows(log[..i + 1], a, b)
                        == Follows(log[..i], a, b) + if i > 0 && log[i - 1] == a && log[i] == b then 1 else 0
  {
    assert log[..i + 1][..i] == log[..i];
  }

  // ---------- the estimator's counters ----------

  function Probability(v: real): real {
    if v <= 0.0 then 0.0 else if v > 1.0 then 1.0 else v
  }

  function RatesNow(s: Stats): Rates {
    if s.samples <= 0.0 then Rates(0.0, 0.0, 0.0) else
      Rates(Probability(s.losses / s.samples),
            if s.fromArrival > 0.0 then Probability(s.lossAfterArrival / s.fromArrival) else 0.0,
            if s.fromLoss > 0.0 then Probability(s.arrivalAfterLoss / s.fromLoss) else 0.0)
  }

  /** Every counter of outcomes stays between zero and its counter of trials, and no rate exceeds its round. */
  ghost predicate Bounded(s: Stats) {
    && 0.0 <= s.losses <= s.samples
    && 0.0 <= s.lossAfterArrival <= s.fromArrival
    && 0.0 <= s.arrivalAfterLoss <= s.fromLoss
    && s.roundLosses <= s.roundSamples
    && forall i :: 0 <= i < |s.rounds| ==> 0.0 <= s.rounds[i] <= 1.0
  }

  lemma RatioBounded(a: real, b: real)
    requires 0.0 <= a <= b && b > 0.0
    ensures 0.0 <= a / b <= 1.0
  {
    var q := a / b;
    assert q * b == a;
    assert q * b <= b ==> q <= 1.0;
    assert q * b >= 0.0 ==> q >= 0.0;
  }

  lemma RecordBounded(cfg: Config, s: Stats, arrived: bool)
    requires Proper(cfg) && Bounded(s)
    ensures Bounded(Record(cfg, s, arrived))
  {
    var t := Tally(s, arrived);
    RatioBounded(t.roundLosses as real, t.roundSamples as real);
  }

  lemma {:induction false} DecideUntilBounded(cfg: Config, e: Estimator, bound: nat)
    requires Proper(cfg) && |e.ring| == RING && bound > 0 && Bounded(e.stats)
    ensures Bounded(DecideUntil(cfg, e, bound).stats)
    decreases e.highest - e.next
  {
    hide Bounded, Record;
    if e.highest - e.next >= bound {
      RecordBounded(cfg, e.stats, e.ring[e.next % RING]);
      DecideUntilBounded(cfg, Decide(cfg, e), bound);
    }
  }

  lemma ObserveBounded(cfg: Config, e: Estimator, x: nat)
    requires Proper(cfg) && |e.ring| == RING && Bounded(e.stats)
    ensures Bounded(Observe(cfg, e, x).stats)
  {
    hide DecideUntil;
    if e.started && !Rejects(e, x) {
      var wide := Stretch(e, x);
      var ready := if wide.highest - wide.next > MAX_GAP then Restart(wide, x) else wide;
      DecideUntilBounded(cfg, ready, RING);
      var fit := DecideUntil(cfg, ready, RING);
      DecideUntilBounded(cfg, fit.(ring := fit.ring[x % RING := true]), cfg.tolerance);
    }
  }

  /** The clamp on reported rates never binds: in every run each rate is the exact quotient of its counters. */
  lemma {:induction false} ClampNeverBinds(cfg: Config, arrivals: seq<nat>)
    requires Proper(cfg)
    ensures var s := ObserveAll(cfg, arrivals).stats;
            var r := RatesNow(s);
            && Bounded(s)
            && (s.samples > 0.0 ==> r.loss == s.losses / s.samples)
            && (s.fromArrival > 0.0 && s.samples > 0.0 ==> r.lossAfterArrival == s.lossAfterArrival / s.fromArrival)
            && (s.fromLoss > 0.0 && s.samples > 0.0 ==> r.arrivalAfterLoss == s.arrivalAfterLoss / s.fromLoss)
  {
    hide Observe;
    if arrivals != [] {
      var n := |arrivals| - 1;
      ClampNeverBinds(cfg, arrivals[..n]);
      ObserveBounded(cfg, ObserveAll(cfg, arrivals[..n]), arrivals[n]);
    }
    BoundedRates(ObserveAll(cfg, arrivals).stats);
  }

  lemma BoundedRates(s: Stats)
    requires Bounded(s)
    ensures var r := RatesNow(s);
            && (s.samples > 0.0 ==> r.loss == s.losses / s.samples)
            && (s.fromArrival > 0.0 && s.samples > 0.0 ==> r.lossAfterArrival == s.lossAfterArrival / s.fromArrival)
            && (s.fromLoss > 0.0 && s.samples > 0.0 ==> r.arrivalAfterLoss == s.arrivalAfterLoss / s.fromLoss)
  {
    if s.samples > 0.0 {
      RatioBounded(s.losses, s.samples);
    }
    if s.fromArrival > 0.0 {
      RatioBounded(s.lossAfterArrival, s.fromArrival);
    }
    if s.fromLoss > 0.0 {
      RatioBounded(s.arrivalAfterLoss, s.fromLoss);
    }
  }

  // ---------- agreement with the offline analysis ----------

  function RecordAll(cfg: Config, log: seq<bool>): Stats
    requires Proper(cfg)
  {
    if log == [] then NoStats() else Record(cfg, RecordAll(cfg, log[..|log| - 1]), log[|log| - 1])
  }

  /** Without a restart the statistics depend on nothing but the log. */
  ghost predicate FromLog(cfg: Config, e: Estimator)
    requires Proper(cfg)
  {
    e.discontinuities == 0 ==> e.stats == RecordAll(cfg, e.log)
  }

  lemma {:induction false} DecideUntilFromLog(cfg: Config, e: Estimator, bound: nat)
    requires Proper(cfg) && |e.ring| == RING && bound > 0 && FromLog(cfg, e)
    ensures var r := DecideUntil(cfg, e, bound); FromLog(cfg, r) && r.discontinuities == e.discontinuities
    decreases e.highest - e.next
  {
    hide Record;
    if e.highest - e.next >= bound {
      var d := Decide(cfg, e);
      assert d.log[..|d.log| - 1] == e.log;
      DecideUntilFromLog(cfg, d, bound);
    }
  }

  lemma {:induction false} ObserveAllFromLog(cfg: Config, arrivals: seq<nat>)
    requires Proper(cfg)
    ensures FromLog(cfg, ObserveAll(cfg, arrivals))
  {
    hide DecideUntil, RecordAll;
    if arrivals != [] {
      var n := |arrivals| - 1;
      ObserveAllFromLog(cfg, arrivals[..n]);
      var e, x := ObserveAll(cfg, arrivals[..n]), arrivals[n];
      var wide := Stretch(e, x);
      var ready := if wide.highest - wide.next > MAX_GAP then Restart(wide, x) else wide;
      DecideUntilFromLog(cfg, ready, RING);
      var fit := DecideUntil(cfg, ready, RING);
      DecideUntilFromLog(cfg, fit.(ring := fit.ring[x % RING := true]), cfg.tolerance);
    } else {
      assert RecordAll(cfg, []) == NoStats() by { RecordNone(cfg); }
    }
  }

  lemma RecordNone(cfg: Config)
    requires Proper(cfg)
    ensures RecordAll(cfg, []) == NoStats()
  {
  }

  /** The counters are the log's counts scaled by one factor. */
  ghost predicate Scaled(s: Stats, log: seq<bool>, c: real) {
    && s.samples == c * |log| as real && s.losses == c * Lost(log) as real
    && s.lossAfterArrival == c * Follows(log, true, false) as real
    && s.fromArrival == c * (Follows(log, true, false) + Follows(log, true, true)) as real
    && s.arrivalAfterLoss == c * Follows(log, false, true) as real
    && s.fromLoss == c * (Follows(log, false, true) + Follows(log, false, false)) as real
  }

  /** The counters are the log's counts, and the chain of transitions stands at its last outcome. */
  ghost predicate Counted(s: Stats, log: seq<bool>) {
    && s.samples == |log| as real && s.losses == Lost(log) as real
    && s.lossAfterArrival == Follows(log, true, false) as real
    && s.fromArrival == (Follows(log, true, false) + Follows(log, true, true)) as real
    && s.arrivalAfterLoss == Follows(log, false, true) as real
    && s.fromLoss == (Follows(log, false, true) + Follows(log, false, false)) as real
    && s.roundSamples == |log| && s.havePrev == (log != []) && (log != [] ==> s.prevLost == !log[|log| - 1])
  }

  lemma TallyCounts(s: Stats, log: seq<bool>)
    requires log != [] && Counted(s, log[..|log| - 1])
    ensures Counted(Tally(s, log[|log| - 1]), log)
  {
    hide Lost, Follows;
    var n := |log| - 1;
    CountStep(log, n);
    assert log[..n + 1] == log;
  }

  lemma {:induction false} RecordAllCounts(cfg: Config, log: seq<bool>)
    requires Proper(cfg) && |log| < cfg.roundSamples
    ensures Counted(RecordAll(cfg, log), log)
  {
    hide Counted, Tally;
    if log != [] {
      RecordAllCounts(cfg, log[..|log| - 1]);
      TallyCounts(RecordAll(cfg, log[..|log| - 1]), log);
      CountedRound(Tally(RecordAll(cfg, log[..|log| - 1]), log[|log| - 1]), log);
    } else {
      NoneCounted();
    }
  }

  lemma CountedRound(s: Stats, log: seq<bool>)
    requires Counted(s, log)
    ensures s.roundSamples == |log|
  {
  }

  lemma NoneCounted()
    ensures Counted(NoStats(), [])
  {
  }

  lemma CountedScaled(cfg: Config, s: Stats, log: seq<bool>)
    requires Proper(cfg) && Counted(s, log)
    ensures Scaled(s, log, 1.0) && (log != [] ==> Scaled(CloseRound(cfg, s), log, 0.75))
  {
    hide Lost, Follows;
  }

  lemma RoundCounts(cfg: Config, log: seq<bool>)
    requires Proper(cfg) && |log| <= cfg.roundSamples
    ensures exists c :: c > 0.0 && Scaled(RecordAll(cfg, log), log, c)
  {
    hide Counted, Scaled, Tally, CloseRound;
    if |log| < cfg.roundSamples {
      RecordAllCounts(cfg, log);
      CountedScaled(cfg, RecordAll(cfg, log), log);
      assert Scaled(RecordAll(cfg, log), log, 1.0);
    } else {
      var s := RecordAll(cfg, log[..|log| - 1]);
      RecordAllCounts(cfg, log[..|log| - 1]);
      TallyCounts(s, log);
      var t := Tally(s, log[|log| - 1]);
      CountedRound(t, log);
      CountedScaled(cfg, t, log);
      assert Scaled(RecordAll(cfg, log), log, 0.75);
    }
  }

  lemma ScaledRatio(c: real, a: nat, b: nat)
    requires c > 0.0 && b > 0
    ensures c * b as real > 0.0 && (c * a as real) / (c * b as real) == a as real / b as real
  {
  }

  lemma {:induction false} CountsFit(log: seq<bool>)
    ensures Lost(log) <= |log|
  {
    if log != [] {
      CountsFit(log[..|log| - 1]);
    }
  }

  /** Up to one round, and without a restart, the rates reported are those of the offline analysis of the record. */
  lemma OnlineEqualsOffline(cfg: Config, arrivals: seq<nat>)
    requires Proper(cfg)
    ensures var e := ObserveAll(cfg, arrivals);
            e.discontinuities == 0 && |e.log| <= cfg.roundSamples ==> RatesNow(e.stats) == RatesOf(e.log)
  {
    hide Follows, Lost, ObserveAll, RecordAll;
    ObserveAllFromLog(cfg, arrivals);
    var e := ObserveAll(cfg, arrivals);
    if e.discontinuities == 0 && |e.log| <= cfg.roundSamples {
      RoundCounts(cfg, e.log);
      var c :| c > 0.0 && Scaled(e.stats, e.log, c);
      ScaledRates(e.stats, e.log, c);
    }
  }

  lemma ScaledPair(c: real, a: nat, b: nat, trials: real, outcomes: real)
    requires c > 0.0 && a <= b && trials == c * b as real && outcomes == c * a as real
    ensures trials > 0.0 <==> b > 0
    ensures b > 0 ==> Probability(outcomes / trials) == Ratio(a, b)
  {
    if b > 0 {
      ScaledRatio(c, a, b);
      RatioBounded(a as real, b as real);
    }
  }

  lemma ScaledRates(s: Stats, log: seq<bool>, c: real)
    requires c > 0.0 && Scaled(s, log, c)
    ensures RatesNow(s) == RatesOf(log)
  {
    hide Follows, Lost, Probability, Ratio;
    CountsFit(log);
    ScaledPair(c, Lost(log), |log|, s.samples, s.losses);
    var la, aa := Follows(log, true, false), Follows(log, true, true);
    ScaledPair(c, la, la + aa, s.fromArrival, s.lossAfterArrival);
    var al, ll := Follows(log, false, true), Follows(log, false, false);
    ScaledPair(c, al, al + ll, s.fromLoss, s.arrivalAfterLoss);
    RatioOfNothing(la);
    RatioOfNothing(al);
    RatioOfNothing(Lost(log));
    if |log| == 0 {
      NothingCounted();
    }
  }

  lemma RatioOfNothing(a: nat)
    ensures Ratio(a, 0) == 0.0
  {
  }
}
