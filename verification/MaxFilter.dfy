/**
 The windowed maximum: three samples stand for all those of the last ten rounds.
 Times are nanoseconds; zero means unknown.
 */
module MaxFilter {
  const WINDOW: nat := 10
  const MIN_TIME: nat := 1_000_000_000
  const MAX_TIME: nat := 10_000_000_000

  datatype Sample = Sample(round: nat, at: nat, value: nat)

  datatype Filter = Filter(timeWindow: nat, best: Sample, second: Sample, third: Sample)

  const NONE := Sample(0, 0, 0)

  function Empty(): Filter {
    Filter(MAX_TIME, NONE, NONE, NONE)
  }

  /** The sample has stood longer than the time window allows. */
  predicate Expired(timeWindow: nat, s: Sample, now: nat) {
    s.at != 0 && now != 0 && timeWindow > 0 && now - s.at > timeWindow
  }

  function TimeWindowFor(rtt: int, current: nat): nat {
    if rtt <= 0 then current
    else if rtt >= MAX_TIME / WINDOW then MAX_TIME
    else if WINDOW * rtt < MIN_TIME then MIN_TIME
    else WINDOW * rtt
  }

  function Shift(f: Filter, s: Sample): Filter {
    f.(best := f.second, second := f.third, third := s)
  }

  /** Promotes the runners-up as the window moves past the samples before them. */
  function SubWindow(f: Filter, s: Sample): Filter {
    if s.round < f.best.round then f
    else if s.round - f.best.round > WINDOW then
      var g := Shift(f, s);
      if s.round >= g.best.round && s.round - g.best.round > WINDOW then Shift(g, s) else g
    else if f.second.value == f.best.value && s.round >= f.second.round && s.round - f.second.round > WINDOW / 4 then
      f.(third := s, second := s)
    else if f.third.value == f.second.value && s.round >= f.third.round && s.round - f.third.round > WINDOW / 2 then
      f.(third := s)
    else f
  }

  function Update(f: Filter, s: Sample): Filter {
    if s.value == 0 then f
    else if || f.best.value == 0 || s.value >= f.best.value
            || (s.round >= f.third.round && s.round - f.third.round > WINDOW)
            || Expired(f.timeWindow, f.best, s.at)
    then f.(best := s, second := s, third := s)
    else SubWindow(Ranked(f, s), s)
  }

  /** The sample takes the places of the runners-up it beats. */
  function Ranked(f: Filter, s: Sample): Filter {
    if s.value >= f.second.value then f.(third := s, second := s)
    else if s.value >= f.third.value then f.(third := s)
    else f
  }

  class TuicMinMax {
    var timeWindow: nat
    const samples: array<Sample>

    ghost predicate Valid()
      reads this
    {
      samples.Length == 3
    }

    ghost function Model(): Filter
      reads this, samples
      requires Valid()
    {
      Filter(timeWindow, samples[0], samples[1], samples[2])
    }

    constructor ()
      ensures Valid() && Model() == Empty() && fresh(samples)
    {
      timeWindow := MAX_TIME;
      samples := new Sample[3](_ => NONE);
    }

    method SetRoundTrip(rtt: int)
      requires Valid()
      modifies this
      ensures Valid() && Model() == old(Model()).(timeWindow := TimeWindowFor(rtt, old(timeWindow)))
      ensures rtt > 0 ==> MIN_TIME <= timeWindow <= MAX_TIME
    {
      if rtt <= 0 {
        return;
      }
      if rtt >= MAX_TIME / WINDOW {
        timeWindow := MAX_TIME;
        return;
      }
      var window := WINDOW * rtt;
      if window < MIN_TIME {
        window := MIN_TIME;
      }
      timeWindow := window;
    }

    method UpdateMax(round: nat, now: nat, value: nat)
      requires Valid()
      modifies samples
      ensures Valid() && Model() == Update(old(Model()), Sample(round, now, value))
    {
      if value == 0 {
        return;
      }
      var current, oldest := Sample(round, now, value), samples[2];
      var windowExpired := round >= oldest.round && round - oldest.round > WINDOW;
      if samples[0].value == 0 || value >= samples[0].value || windowExpired || Expired(timeWindow, samples[0], now) {
        samples[0] := current;
        samples[1] := current;
        samples[2] := current;
        return;
      }
      if value >= samples[1].value {
        samples[2] := current;
        samples[1] := current;
      } else if value >= samples[2].value {
        samples[2] := current;
      }
      SubWindowUpdate(current);
    }

    method SubWindowUpdate(s: Sample)
      requires Valid()
      modifies samples
      ensures Valid() && Model() == SubWindow(old(Model()), s)
    {
      if s.round < samples[0].round {
        return;
      }
      var delta := s.round - samples[0].round;
      if delta > WINDOW {
        samples[0] := samples[1];
        samples[1] := samples[2];
        samples[2] := s;
        if s.round >= samples[0].round && s.round - samples[0].round > WINDOW {
          samples[0] := samples[1];
          samples[1] := samples[2];
          samples[2] := s;
        }
      } else if samples[1].value == samples[0].value && s.round >= samples[1].round
          && s.round - samples[1].round > WINDOW / 4 {
        samples[2] := s;
        samples[1] := s;
      } else if samples[2].value == samples[1].value && s.round >= samples[2].round
          && s.round - samples[2].round > WINDOW / 2 {
        samples[2] := s;
      }
    }
  }

  // ---------- what the estimate means ----------

  /** A positive sample arrives, or the measured round trip resets the time window. */
  datatype Event = Observe(sample: Sample) | RoundTrip(rtt: int)

  function Step(f: Filter, e: Event): Filter {
    match e
    case Observe(s) => Update(f, s)
    case RoundTrip(rtt) => f.(timeWindow := TimeWindowFor(rtt, f.timeWindow))
  }

  /** Samples are positive and come at known times, with neither rounds nor times going back. */
  ghost predicate Orderly(history: seq<Sample>) {
    && (forall i :: 0 <= i < |history| ==> history[i].value > 0 && history[i].at > 0)
    && (forall i, j :: 0 <= i < j < |history| ==>
          history[i].round <= history[j].round && history[i].at <= history[j].at)
  }

  /** Where in the history the three kept samples were observed. */
  datatype Places = Places(best: nat, second: nat, third: nat)

  /** The sample was observed at this place, and nothing observed since then is larger. */
  ghost predicate StandsAt(history: seq<Sample>, s: Sample, p: nat) {
    p < |history| && history[p] == s && forall j :: p <= j < |history| ==> history[j].value <= s.value
  }

  /** The kept samples, by place. */
  ghost predicate Tracks(f: Filter, history: seq<Sample>, p: Places) {
    if history == [] then f.best == f.second == f.third == NONE else
      && StandsAt(history, f.best, p.best) && StandsAt(history, f.second, p.second)
         && StandsAt(history, f.third, p.third)
      && p.best <= p.second <= p.third
  }

  lemma StandsOn(history: seq<Sample>, s: Sample, k: Sample, p: nat)
    requires StandsAt(history, k, p) && s.value <= k.value
    ensures StandsAt(history + [s], k, p)
  {
  }

  lemma StandsNew(history: seq<Sample>, s: Sample)
    ensures StandsAt(history + [s], s, |history|)
  {
  }

  /**
   The value of the newest sample bounds every kept one from below, and the order of places
   gives the order of values.
   */
  lemma TracksSorted(f: Filter, history: seq<Sample>, p: Places)
    requires Orderly(history) && history != [] && Tracks(f, history, p)
    ensures f.best.value >= f.second.value >= f.third.value >= history[|history| - 1].value > 0
    ensures f.best.round <= f.second.round <= f.third.round <= history[|history| - 1].round
    ensures 0 < f.best.at <= f.second.at <= f.third.at <= history[|history| - 1].at
  {
    var n := |history| - 1;
    assert history[p.second].value <= f.best.value;
    assert history[p.third].value <= f.second.value;
    assert history[n].value <= f.third.value;
    assert p.third < n ==> history[p.third].round <= history[n].round && history[p.third].at <= history[n].at;
    assert p.second < p.third ==>
      history[p.second].round <= history[p.third].round && history[p.second].at <= history[p.third].at;
    assert p.best < p.second ==>
      history[p.best].round <= history[p.second].round && history[p.best].at <= history[p.second].at;
  }

  /** Whether the update starts the filter again from this sample alone. */
  predicate Restarts(f: Filter, s: Sample) {
    || f.best.value == 0 || s.value >= f.best.value
    || (s.round >= f.third.round && s.round - f.third.round > WINDOW)
    || Expired(f.timeWindow, f.best, s.at)
  }

  /** The sample is within the last ten rounds and inside the time window. */
  ghost predicate Current(timeWindow: nat, kept: Sample, newest: Sample) {
    newest.round - kept.round <= WINDOW && !Expired(timeWindow, kept, newest.at)
  }

  lemma RankedTracks(f: Filter, history: seq<Sample>, p: Places, s: Sample) returns (q: Places)
    requires Tracks(f, history, p) && history != [] && s.value < f.best.value
    ensures var g := Ranked(f, s);
            && Tracks(g, history + [s], q) && s.value <= g.third.value && g.best == f.best
               && g.timeWindow == f.timeWindow
            && (g.third == s || g.third == f.third) && (g.second == s || g.second == f.second)
  {
    hide StandsAt;
    var n := |history|;
    StandsOn(history, s, f.best, p.best);
    StandsNew(history, s);
    PlaceBound(history, f.third, p.third);
    if s.value >= f.second.value {
      q := Places(p.best, n, n);
    } else if s.value >= f.third.value {
      StandsOn(history, s, f.second, p.second);
      q := Places(p.best, p.second, n);
    } else {
      StandsOn(history, s, f.second, p.second);
      StandsOn(history, s, f.third, p.third);
      q := p;
    }
  }

  lemma PlaceBound(history: seq<Sample>, s: Sample, p: nat)
    requires StandsAt(history, s, p)
    ensures p < |history|
  {
  }

  /** Promotion keeps every kept sample the largest since it was observed. */
  lemma SubWindowTracks(f: Filter, history: seq<Sample>, p: Places) returns (q: Places)
    requires history != [] && Orderly(history) && Tracks(f, history, p)
    requires var s := history[|history| - 1];
             s.round - f.third.round <= WINDOW && !Expired(f.timeWindow, f.best, s.at)
    ensures var s := history[|history| - 1];
            var g := SubWindow(f, s);
            && Tracks(g, history, q) && Current(f.timeWindow, g.best, s) && g.timeWindow == f.timeWindow
  {
    var n := |history| - 1;
    var s := history[n];
    TracksSorted(f, history, p);
    assert StandsAt(history, s, n);
    hide StandsAt, Orderly;
    PlaceBound(history, f.third, p.third);
    if s.round - f.best.round > WINDOW {
      q := if s.round - f.second.round > WINDOW then Places(p.third, n, n) else Places(p.second, p.third, n);
    } else if f.second.value == f.best.value && s.round - f.second.round > WINDOW / 4 {
      q := Places(p.best, n, n);
    } else if f.third.value == f.second.value && s.round - f.third.round > WINDOW / 2 {
      q := Places(p.best, p.second, n);
    } else {
      q := p;
    }
  }

  lemma UpdateTracks(f: Filter, history: seq<Sample>, p: Places, s: Sample) returns (q: Places)
    requires Tracks(f, history, p) && Orderly(history + [s])
    ensures var g := Update(f, s);
            && Tracks(g, history + [s], q) && Current(g.timeWindow, g.best, s) && g.timeWindow == f.timeWindow
  {
    hide StandsAt, Ranked, SubWindow;
    var all := history + [s];
    assert all[|history|] == s;
    assert Orderly(history) by { OrderlyPrefix(history, s); }
    if Restarts(f, s) {
      StandsNew(history, s);
      q := Places(|history|, |history|, |history|);
    } else {
      TracksSorted(f, history, p);
      var m := RankedTracks(f, history, p, s);
      q := SubWindowTracks(Ranked(f, s), all, m);
    }
  }

  lemma OrderlyPrefix(history: seq<Sample>, s: Sample)
    requires Orderly(history + [s])
    ensures Orderly(history)
  {
    var all := history + [s];
    assert forall i :: 0 <= i < |history| ==> all[i] == history[i];
  }

  function Run(events: seq<Event>): Filter {
    if events == [] then Empty() else Step(Run(events[..|events| - 1]), events[|events| - 1])
  }

  /** The samples observed, oldest first. */
  function Observed(events: seq<Event>): seq<Sample> {
    if events == [] then [] else
      var e := events[|events| - 1];
      Observed(events[..|events| - 1]) + if e.Observe? then [e.sample] else []
  }

  lemma {:induction false} RunTracks(events: seq<Event>) returns (p: Places)
    requires Orderly(Observed(events))
    ensures Tracks(Run(events), Observed(events), p)
    ensures events != [] && events[|events| - 1].Observe? ==>
              Current(Run(events).timeWindow, Run(events).best, events[|events| - 1].sample)
  {
    hide Update, StandsAt, Current, Orderly;
    p := Places(0, 0, 0);
    if events != [] {
      var n := |events| - 1;
      var e := events[n];
      if e.Observe? {
        OrderlyPrefix(Observed(events[..n]), e.sample);
        p := RunTracks(events[..n]);
        p := UpdateTracks(Run(events[..n]), Observed(events[..n]), p, e.sample);
      } else {
        assert Observed(events) == Observed(events[..n]);
        p := RunTracks(events[..n]);
      }
    }
  }

  /**
   The sandwich: after every positive update the estimate is a sample observed
   within the last ten rounds and the current time window, and it is the largest of
   all samples observed since, the newest included; the three samples are sorted
   down by value and up by round.
   */
  lemma EstimateIsWindowedMaximum(events: seq<Event>) returns (p: nat)
    requires events != [] && events[|events| - 1].Observe? && Orderly(Observed(events))
    ensures var f, h, newest := Run(events), Observed(events), events[|events| - 1].sample;
            && p < |h| && h[p] == f.best && (forall j :: p <= j < |h| ==> h[j].value <= f.best.value)
            && newest.round - f.best.round <= WINDOW && newest.at - f.best.at <= f.timeWindow
            && f.best.value >= f.second.value >= f.third.value >= newest.value
            && f.best.round <= f.second.round <= f.third.round <= newest.round
  {
    hide Run, Observed;
    var q := RunTracks(events);
    var f, h := Run(events), Observed(events);
    ObservedLast(events);
    TracksSorted(f, h, q);
    TimeWindowPositive(events);
    p := q.best;
  }

  lemma ObservedLast(events: seq<Event>)
    requires events != [] && events[|events| - 1].Observe?
    ensures var h := Observed(events); h != [] && h[|h| - 1] == events[|events| - 1].sample
  {
  }

  lemma {:induction false} TimeWindowPositive(events: seq<Event>)
    ensures MIN_TIME <= Run(events).timeWindow <= MAX_TIME
  {
    if events != [] {
      TimeWindowPositive(events[..|events| - 1]);
      hide Ranked, SubWindow;
      UpdateKeepsTime(Run(events[..|events| - 1]), events[|events| - 1]);
    }
  }

  lemma UpdateKeepsTime(f: Filter, e: Event)
    ensures e.Observe? ==> Step(f, e).timeWindow == f.timeWindow
  {
  }
}
