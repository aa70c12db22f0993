/** The estimator as it runs: a fixed ring, cursors and counters updated in place, one arrival at a time. */
module LossEstimator {
  import M = LossModel
  import opened LossRates

  class Estimator {
    const cfg: M.Config
    const arrived: array<bool>
    var next: nat
    var highest: nat
    var started: bool
    var discontinuities: nat
    /** The decaying counters and the rounds. */
    var stats: M.Stats
    var reordered: nat
    var decided: nat
    /** Every outcome recorded, oldest first. */
    ghost var log: seq<bool>

    ghost function Model(): M.Estimator
      reads this, arrived
    {
      M.Estimator(arrived[..], next, highest, started, discontinuities, reordered, stats, log)
    }

    ghost predicate Valid()
      reads this
    {
      && M.Proper(cfg) && arrived.Length == M.RING && decided == |log|
      && stats.roundAt < cfg.rounds && |stats.rounds| <= cfg.rounds
    }

    constructor (roundSamples: int, rounds: int, tolerance: int)
      ensures Valid() && Model() == M.Fresh() && cfg == M.WithDefaults(roundSamples, rounds, tolerance)
      ensures fresh(arrived)
    {
      cfg := M.WithDefaults(roundSamples, rounds, tolerance);
      arrived := new bool[M.RING](_ => false);
      next, highest, started, discontinuities, reordered, decided := 0, 0, false, 0, 0, 0;
      stats := M.NoStats();
      log := [];
      new;
      assert arrived[..] == M.Clear();
    }

    method CloseRound()
      requires Valid() && stats.roundSamples > 0
      modifies this`stats
      ensures Valid() && stats == M.CloseRound(cfg, old(stats))
    {
      var s := stats;
      var loss := s.roundLosses as real / s.roundSamples as real;
      if |s.rounds| < cfg.rounds {
        s := s.(rounds := s.rounds + [loss]);
      } else {
        s := s.(rounds := s.rounds[s.roundAt := loss]);
        s := s.(roundAt := (s.roundAt + 1) % cfg.rounds);
      }
      s := s.(roundSamples := 0, roundLosses := 0);
      s := s.(samples := s.samples * 0.75, losses := s.losses * 0.75);
      s := s.(fromArrival := s.fromArrival * 0.75, lossAfterArrival := s.lossAfterArrival * 0.75);
      s := s.(fromLoss := s.fromLoss * 0.75, arrivalAfterLoss := s.arrivalAfterLoss * 0.75);
      stats := s;
    }

    method Record(ok: bool)
      requires Valid()
      modifies this`stats, this`decided, this`log
      ensures Valid() && log == old(log) + [ok] && stats == M.Record(cfg, old(stats), ok)
    {
      hide M.CloseRound;
      decided, log := decided + 1, log + [ok];
      var s := stats;
      s := s.(samples := s.samples + 1.0);
      if !ok {
        s := s.(losses := s.losses + 1.0);
      }
      if s.havePrev {
        if s.prevLost {
          s := s.(fromLoss := s.fromLoss + 1.0);
          if ok {
            s := s.(arrivalAfterLoss := s.arrivalAfterLoss + 1.0);
          }
        } else {
          s := s.(fromArrival := s.fromArrival + 1.0);
          if !ok {
            s := s.(lossAfterArrival := s.lossAfterArrival + 1.0);
          }
        }
      }
      s := s.(prevLost := !ok, havePrev := true, roundSamples := s.roundSamples + 1);
      if !ok {
        s := s.(roundLosses := s.roundLosses + 1);
      }
      stats := s;
      if stats.roundSamples >= cfg.roundSamples {
        CloseRound();
      }
    }

    /** Retires the lowest undecided identifier. */
    method Decide()
      requires Valid()
      modifies this, arrived
      ensures Valid() && Model() == M.Decide(cfg, old(Model()))
    {
      hide M.Record;
      var slot := next % M.RING;
      var ok := arrived[slot];
      arrived[slot] := false;
      assert arrived[..] == old(arrived[..])[slot := false];
      next := next + 1;
      Record(ok);
    }

    method DecideWhile(bound: nat)
      requires Valid() && bound > 0 && next <= highest
      modifies this, arrived
      ensures Valid() && Model() == M.DecideUntil(cfg, old(Model()), bound)
    {
      hide M.Record;
      while highest - next >= bound
        invariant Valid() && next <= highest
        invariant M.DecideUntil(cfg, Model(), bound) == M.DecideUntil(cfg, old(Model()), bound)
        decreases highest - next
      {
        Decide();
      }
    }

    method RestartAt(x: nat)
      requires Valid()
      modifies this, arrived
      ensures Valid() && Model() == M.Restart(old(Model()), x)
    {
      var i := 0;
      while i < arrived.Length
        invariant i <= arrived.Length && forall j :: 0 <= j < i ==> !arrived[j]
        modifies arrived
      {
        arrived[i] := false;
        i := i + 1;
      }
      assert arrived[..] == M.Clear();
      next, highest, discontinuities := x, x, discontinuities + 1;
      stats := stats.(havePrev := false);
    }

    /** Records that identifier x arrived. */
    method Observe(x: nat)
      requires Valid() && (started ==> next <= highest)
      modifies this, arrived
      ensures Valid() && Model() == M.Observe(cfg, old(Model()), x) && (started ==> next <= highest)
    {
      hide M.DecideUntil;
      ghost var before := Model();
      if !started {
        started, next, highest := true, x, x;
        arrived[x % M.RING] := true;
        assert arrived[..] == old(arrived[..])[x % M.RING := true];
        return;
      }
      if x < next {
        if decided > 0 || highest - x >= M.RING {
          reordered := reordered + 1;
          return;
        }
        next := x;
      }
      if x > highest {
        highest := x;
      }
      assert Model() == M.Stretch(before, x);
      if highest - next > M.MAX_GAP {
        RestartAt(x);
      }
      ghost var ready := Model();
      DecideWhile(M.RING);
      ghost var fit := Model();
      arrived[x % M.RING] := true;
      assert arrived[..] == fit.ring[x % M.RING := true];
      Keeps(cfg, ready, M.RING);
      DecideWhile(cfg.tolerance);
      Keeps(cfg, fit.(ring := fit.ring[x % M.RING := true]), cfg.tolerance);
    }

    /** The three rates reported now. */
    method Snapshot() returns (r: Rates)
      requires Valid()
      ensures r == RatesNow(stats)
    {
      r := Rates(0.0, 0.0, 0.0);
      if stats.samples <= 0.0 {
        return;
      }
      r := r.(loss := Probability(stats.losses / stats.samples));
      if stats.fromArrival > 0.0 {
        r := r.(lossAfterArrival := Probability(stats.lossAfterArrival / stats.fromArrival));
      }
      if stats.fromLoss > 0.0 {
        r := r.(arrivalAfterLoss := Probability(stats.arrivalAfterLoss / stats.fromLoss));
      }
    }
  }

  lemma {:induction false} Keeps(cfg: M.Config, e: M.Estimator, bound: nat)
    requires M.Proper(cfg) && |e.ring| == M.RING && bound > 0 && e.next <= e.highest
    ensures var r := M.DecideUntil(cfg, e, bound); r.next <= r.highest && r.started == e.started
    decreases e.highest - e.next
  {
    hide M.Record;
    if e.highest - e.next >= bound {
      Keeps(cfg, M.Decide(cfg, e), bound);
    }
  }
}
