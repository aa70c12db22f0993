/**
 What the estimator's record means. The reference reads nothing but the list of
 arrivals: an identifier arrived if it came while every earlier arrival was less
 than a tolerance past it, and it is decided once some arrival is. The ring, its
 wrap-around and its two retiring loops refine that reading exactly.
 */
module LossRecord {
  import opened LossModel

  // ---------- the reference ----------

  ghost function Top(arr: seq<nat>): nat {
    if arr == [] then 0 else
      var n := |arr| - 1;
      if n > 0 && Top(arr[..n]) > arr[n] then Top(arr[..n]) else arr[n]
  }

  /** Whether nothing had been decided before the first of these arrivals, and the reorder tolerance. */
  datatype Rule = Rule(first: bool, tolerance: nat)

  /** Where counting starts: the first arrival, or an earlier identifier that came before anything was decided. */
  ghost function Base(arr: seq<nat>, w: Rule): nat {
    if arr == [] then 0 else
      var n := |arr| - 1;
      if n == 0 then arr[0] else
        var b := Base(arr[..n], w);
        if w.first && Top(arr[..n]) < b + w.tolerance && arr[n] < b && Top(arr[..n]) - arr[n] < RING then arr[n] else b
  }

  /** Counting has reached the identifier and some arrival is a tolerance past it. */
  ghost predicate Decided(arr: seq<nat>, w: Rule, id: nat) {
    arr != [] && Base(arr, w) <= id && id + w.tolerance <= Top(arr)
  }

  /** The identifier arrived before it was decided. */
  ghost predicate Timely(arr: seq<nat>, w: Rule, id: nat) {
    exists j :: 0 <= j < |arr| && arr[j] == id && !Decided(arr[..j], w, id)
  }

  /** The arrivals since the last restart, whether nothing had been decided before it, and the outcomes before it. */
  datatype Reading = Reading(arr: seq<nat>, first: bool, past: seq<bool>)

  ghost function Start(r: Reading, tolerance: nat): nat {
    Base(r.arr, Rule(r.first, tolerance))
  }

  /** The lowest identifier not yet a tolerance behind the highest. */
  ghost function Undecided(r: Reading, tolerance: nat): (u: nat)
    ensures u >= Start(r, tolerance)
  {
    var b := Start(r, tolerance);
    if Top(r.arr) < b + tolerance then b else Top(r.arr) - tolerance + 1
  }

  ghost function Fates(arr: seq<nat>, w: Rule, from: nat, to: nat): (s: seq<bool>)
    requires from <= to
    ensures |s| == to - from
  {
    seq(to - from, i requires 0 <= i => Timely(arr, w, from + i))
  }

  ghost function Outcomes(r: Reading, tolerance: nat): seq<bool> {
    Fates(r.arr, Rule(r.first, tolerance), Start(r, tolerance), Undecided(r, tolerance))
  }

  ghost function Log(r: Reading, tolerance: nat): seq<bool> {
    r.past + Outcomes(r, tolerance)
  }

  /** One more arrival; one past the largest gap starts the reading again. */
  ghost function Read(r: Reading, x: nat, tolerance: nat): Reading {
    if r.arr != [] && x > Undecided(r, tolerance) + MAX_GAP then
      Reading([x], Log(r, tolerance) == [], Log(r, tolerance))
    else
      r.(arr := r.arr + [x])
  }

  ghost function ReadAll(arrivals: seq<nat>, tolerance: nat): (r: Reading) {
    if arrivals == [] then Reading([], true, []) else
      Read(ReadAll(arrivals[..|arrivals| - 1], tolerance), arrivals[|arrivals| - 1], tolerance)
  }

  // ---------- facts about the reference ----------

  lemma {:induction false} TopBounds(arr: seq<nat>)
    ensures forall i :: 0 <= i < |arr| ==> arr[i] <= Top(arr)
    ensures arr != [] ==> Top(arr) in arr
  {
    if |arr| > 1 {
      TopBounds(arr[..|arr| - 1]);
      assert arr == arr[..|arr| - 1] + [arr[|arr| - 1]];
    }
  }

  lemma TopSnoc(arr: seq<nat>, x: nat)
    ensures Top(arr + [x]) == if arr != [] && Top(arr) > x then Top(arr) else x
  {
    assert (arr + [x])[..|arr|] == arr;
  }

  lemma BaseSnoc(arr: seq<nat>, x: nat, w: Rule)
    requires arr != []
    ensures Base(arr + [x], w)
         == (var b := Base(arr, w);
             if w.first && Top(arr) < b + w.tolerance && x < b && Top(arr) - x < RING then x else b)
  {
    assert (arr + [x])[..|arr|] == arr;
  }

  lemma TimelySnoc(arr: seq<nat>, x: nat, id: nat, w: Rule)
    ensures Timely(arr + [x], w, id) <==> Timely(arr, w, id) || (x == id && !Decided(arr, w, id))
  {
    hide Decided;
    var all := arr + [x];
    assert forall j :: 0 <= j <= |arr| ==> all[..j] == arr[..j];
    assert arr[..|arr|] == arr;
    if j :| 0 <= j < |arr| && arr[j] == id && !Decided(arr[..j], w, id) {
      assert all[j] == id && !Decided(all[..j], w, id);
    }
    if j :| 0 <= j < |all| && all[j] == id && !Decided(all[..j], w, id) {
      assert j < |arr| ==> arr[j] == id && !Decided(arr[..j], w, id);
    }
    if x == id && !Decided(arr, w, id) {
      assert all[|arr|] == id && !Decided(all[..|arr|], w, id);
    }
  }

  lemma NoneAbove(arr: seq<nat>, id: nat, w: Rule)
    requires forall i :: 0 <= i < |arr| ==> arr[i] < id
    ensures !Timely(arr, w, id)
  {
  }

  lemma FatesJoin(arr: seq<nat>, w: Rule, from: nat, mid: nat, to: nat)
    requires from <= mid <= to
    ensures Fates(arr, w, from, mid) + Fates(arr, w, mid, to) == Fates(arr, w, from, to)
  {
    hide Timely;
  }

  /** An arrival at or past the end of a stretch, or too late for its own place in it, changes none of its fates. */
  lemma FatesSettled(arr: seq<nat>, x: nat, w: Rule, from: nat, to: nat)
    requires from <= to && (x < from || x >= to || Decided(arr, w, x))
    ensures Fates(arr + [x], w, from, to) == Fates(arr, w, from, to)
  {
    hide Timely;
    forall id: nat | from <= id < to
      ensures Timely(arr + [x], w, id) == Timely(arr, w, id)
    {
      TimelySnoc(arr, x, id, w);
    }
    var a, b := Fates(arr + [x], w, from, to), Fates(arr, w, from, to);
    assert forall i :: 0 <= i < |a| ==> a[i] == b[i];
  }

  // ---------- the ring refines the reference ----------

  /** Every slot says whether the one identifier of the next RING that falls in it has arrived in time. */
  ghost predicate RingHolds(ring: seq<bool>, next: nat, arr: seq<nat>, w: Rule) {
    && |ring| == RING
    && forall id: nat :: next <= id < next + RING ==> ring[id % RING] == Timely(arr, w, id)
  }

  ghost predicate AllBelow(arr: seq<nat>, bound: nat) {
    forall i :: 0 <= i < |arr| ==> arr[i] < bound
  }

  lemma RingMark(ring: seq<bool>, next: nat, arr: seq<nat>, x: nat, w: Rule)
    requires RingHolds(ring, next, arr, w) && next <= x < next + RING
    requires !Decided(arr, w, x)
    ensures RingHolds(ring[x % RING := true], next, arr + [x], w)
  {
    hide Timely, Top;
    forall id: nat | next <= id < next + RING
      ensures ring[x % RING := true][id % RING] == Timely(arr + [x], w, id)
    {
      TimelySnoc(arr, x, id, w);
      Residues(next, id, x);
    }
  }

  lemma Residues(next: nat, a: nat, b: nat)
    requires next <= a < next + RING && next <= b < next + RING
    ensures a % RING == b % RING <==> a == b
  {
  }

  lemma DecideHolds(cfg: Config, e: Estimator, arr: seq<nat>, w: Rule)
    requires Proper(cfg) && RingHolds(e.ring, e.next, arr, w) && AllBelow(arr, e.next + RING)
    ensures var r := Decide(cfg, e);
            && RingHolds(r.ring, r.next, arr, w) && AllBelow(arr, r.next + RING)
            && r.log == e.log + [Timely(arr, w, e.next)]
            && r.highest == e.highest && r.next == e.next + 1 && r.started == e.started
  {
    hide Timely, Record;
    var r := Decide(cfg, e);
    forall id: nat | r.next <= id < r.next + RING
      ensures r.ring[id % RING] == Timely(arr, w, id)
    {
      if id == e.next + RING {
        NoneAbove(arr, id, w);
      } else {
        Residues(e.next, id, e.next);
      }
    }
  }

  lemma {:induction false} DecideUntilHolds(cfg: Config, e: Estimator, bound: nat, arr: seq<nat>, w: Rule)
    requires Proper(cfg) && bound > 0 && e.next <= e.highest
    requires RingHolds(e.ring, e.next, arr, w) && AllBelow(arr, e.next + RING)
    ensures var r := DecideUntil(cfg, e, bound);
            && r.next == (if e.highest - e.next < bound then e.next else e.highest - bound + 1)
            && e.next <= r.next <= r.highest == e.highest && r.started == e.started
            && RingHolds(r.ring, r.next, arr, w)
            && r.log == e.log + Fates(arr, w, e.next, r.next)
    decreases e.highest - e.next
  {
    hide RingHolds, AllBelow, Decide, Timely;
    assert |e.ring| == RING by { RingSize(e.ring, e.next, arr, w); }
    if e.highest - e.next < bound {
      assert e.log == e.log + Fates(arr, w, e.next, e.next);
    } else {
      DecideHolds(cfg, e, arr, w);
      var d := Decide(cfg, e);
      assert |d.ring| == RING by { RingSize(d.ring, d.next, arr, w); }
      DecideUntilHolds(cfg, d, bound, arr, w);
      var r := DecideUntil(cfg, e, bound);
      FatesJoin(arr, w, e.next, d.next, r.next);
      assert Fates(arr, w, e.next, d.next) == [Timely(arr, w, e.next)];
    }
  }

  lemma RingSize(ring: seq<bool>, next: nat, arr: seq<nat>, w: Rule)
    requires RingHolds(ring, next, arr, w)
    ensures |ring| == RING
  {
  }

  /** The estimator's state is what the reference reads off the arrivals. */
  ghost predicate Matches(cfg: Config, e: Estimator, r: Reading) {
    && Proper(cfg) && e.started && r.arr != []
    && e.highest == Top(r.arr) && e.next == Undecided(r, cfg.tolerance) <= e.highest
    && e.log == Log(r, cfg.tolerance)
    && RingHolds(e.ring, e.next, r.arr, Rule(r.first, cfg.tolerance))
    && (r.first <==> r.past == [])
    && (e.log == [] ==> Unfit(r.arr, e.next))
  }

  /** While nothing is decided, an arrival below the base was out of the ring's reach when it came. */
  ghost predicate Unfit(arr: seq<nat>, base: nat) {
    forall i :: 0 <= i < |arr| ==> arr[i] >= base || Top(arr) - arr[i] >= RING
  }

  /** Marking an accepted arrival between the two retiring loops. */
  lemma SettleHolds(cfg: Config, e: Estimator, arr: seq<nat>, x: nat, w: Rule)
    requires Proper(cfg) && e.next <= x <= e.highest && e.started
    requires RingHolds(e.ring, e.next, arr, w) && AllBelow(arr, e.next + RING)
    requires !Decided(arr, w, x)
    requires e.highest == Top(arr + [x]) && (e.highest - e.next >= RING ==> x == e.highest)
    ensures var r := Settle(cfg, e, x);
            && r.next == (if e.highest - e.next < cfg.tolerance then e.next else e.highest - cfg.tolerance + 1)
            && e.next <= r.next <= r.highest == e.highest && r.started
            && RingHolds(r.ring, r.next, arr + [x], w)
            && r.log == e.log + Fates(arr + [x], w, e.next, r.next)
  {
    hide RingHolds, AllBelow, Top, Decided, Timely, DecideUntil, Fates;
    RingSize(e.ring, e.next, arr, w);
    DecideUntilHolds(cfg, e, RING, arr, w);
    var fit := DecideUntil(cfg, e, RING);
    RingMark(fit.ring, fit.next, arr, x, w);
    var marked := fit.(ring := fit.ring[x % RING := true]);
    BelowTop(arr + [x], fit.next + RING);
    DecideUntilHolds(cfg, marked, cfg.tolerance, arr + [x], w);
    var r := DecideUntil(cfg, marked, cfg.tolerance);
    FatesSettled(arr, x, w, e.next, fit.next);
    FatesJoin(arr + [x], w, e.next, fit.next, r.next);
  }

  lemma BelowTop(arr: seq<nat>, bound: nat)
    requires Top(arr) < bound
    ensures AllBelow(arr, bound)
  {
    TopBounds(arr);
  }

  lemma StartHolds(ring: Ring, x: nat, w: Rule)
    requires ring == Clear()
    ensures RingHolds(ring, x, [], w) && AllBelow([], x + RING)
  {
  }

  lemma FirstMatches(cfg: Config, x: nat)
    requires Proper(cfg)
    ensures Matches(cfg, Observe(cfg, Fresh(), x), Reading([x], true, []))
  {
    hide RingHolds, Timely;
    StartHolds(Clear(), x, Rule(true, cfg.tolerance));
    RingMark(Clear(), x, [], x, Rule(true, cfg.tolerance));
    assert [] + [x] == [x];
  }

  /** An arrival for a decided place, or out of the ring's reach, changes neither state nor reading. */
  lemma RejectedMatches(cfg: Config, e: Estimator, r: Reading, x: nat)
    requires Matches(cfg, e, r) && Rejects(e, x)
    ensures Matches(cfg, Observe(cfg, e, x), Read(r, x, cfg.tolerance))
  {
    hide RingHolds, Timely, Settle, Top, Base, Fates;
    RingSize(e.ring, e.next, r.arr, Rule(r.first, cfg.tolerance));
    var w, b, all := Rule(r.first, cfg.tolerance), Start(r, cfg.tolerance), r.arr + [x];
    TopSnoc(r.arr, x);
    BaseSnoc(r.arr, x, w);
    FatesSettled(r.arr, x, w, b, e.next);
    assert RingHolds(e.ring, e.next, all, w) by { RingUnmoved(e.ring, e.next, r.arr, x, w); }
    assert e.log == [] ==> Unfit(all, e.next) by {
      assert forall i :: 0 <= i < |r.arr| ==> all[i] == r.arr[i];
    }
  }

  lemma RingUnmoved(ring: seq<bool>, next: nat, arr: seq<nat>, x: nat, w: Rule)
    requires RingHolds(ring, next, arr, w) && x < next
    ensures RingHolds(ring, next, arr + [x], w)
  {
    hide Timely, Top;
    forall id: nat | next <= id < next + RING
      ensures ring[id % RING] == Timely(arr + [x], w, id)
    {
      TimelySnoc(arr, x, id, w);
    }
  }

  /** Lowering the base before anything is decided keeps the ring true: the slots gained were empty. */
  lemma RingLowered(ring: seq<bool>, next: nat, arr: seq<nat>, x: nat, w: Rule)
    requires RingHolds(ring, next, arr, w) && x < next && arr != []
    requires Unfit(arr, next) && Top(arr) - x < RING && next <= Top(arr)
    ensures RingHolds(ring, x, arr, w)
  {
    hide Top;
    TopBounds(arr);
    forall id: nat | x <= id < x + RING
      ensures ring[id % RING] == Timely(arr, w, id)
    {
      if id < next {
        assert ring[(id + RING) % RING] == Timely(arr, w, id + RING);
        assert (id + RING) % RING == id % RING;
      }
    }
  }

  lemma RestartMatches(cfg: Config, e: Estimator, r: Reading, x: nat)
    requires Matches(cfg, e, r) && x > e.next + MAX_GAP && e.highest - e.next < cfg.tolerance
    ensures Matches(cfg, Observe(cfg, e, x), Read(r, x, cfg.tolerance))
  {
    hide RingHolds, Timely, Settle, Top, Fates, AllBelow;
    RingSize(e.ring, e.next, r.arr, Rule(r.first, cfg.tolerance));
    var wide := Stretch(e, x);
    var again := Restart(wide, x);
    var w := Rule(Log(r, cfg.tolerance) == [], cfg.tolerance);
    StartHolds(again.ring, x, w);
    assert [] + [x] == [x];
    TopSnoc([], x);
    SettleHolds(cfg, again, [], x, w);
    var s := Read(r, x, cfg.tolerance);
    assert Start(s, cfg.tolerance) == x;
    assert Undecided(s, cfg.tolerance) == x;
    FatesEmpty([x], w, x);
    assert s.past + [] == s.past;
    assert Unfit([x], x);
  }

  /** An arrival inside the ring's reach or ahead of it by less than the largest gap. */
  lemma AcceptedMatches(cfg: Config, e: Estimator, r: Reading, x: nat)
    requires Matches(cfg, e, r) && !Rejects(e, x) && x <= e.next + MAX_GAP && e.highest - e.next < cfg.tolerance
    ensures Matches(cfg, Observe(cfg, e, x), Read(r, x, cfg.tolerance))
  {
    hide RingHolds, Timely, Settle, Top, Base, Fates, AllBelow, Unfit;
    var t, w, b, all := cfg.tolerance, Rule(r.first, cfg.tolerance), Start(r, cfg.tolerance), r.arr + [x];
    RingSize(e.ring, e.next, r.arr, w);
    TopSnoc(r.arr, x);
    BaseSnoc(r.arr, x, w);
    if x < e.next {
      RingLowered(e.ring, e.next, r.arr, x, w);
    }
    var wide := Stretch(e, x);
    BelowTop(r.arr, wide.next + RING);
    SettleHolds(cfg, wide, r.arr, x, w);
    var s, d := Read(r, x, t), Observe(cfg, e, x);
    assert s == r.(arr := all) && d == Settle(cfg, wide, x);
    assert Start(s, t) == if x < e.next then x else b;
    AcceptedLog(cfg, e, r, x, d);
    if d.log == [] {
      assert d.next == wide.next;
      UnfitSnoc(r.arr, x, e.next);
    }
  }

  /** The outcomes recorded go on where they stopped. */
  lemma AcceptedLog(cfg: Config, e: Estimator, r: Reading, x: nat, d: Estimator)
    requires Matches(cfg, e, r) && !Rejects(e, x) && (if x < e.next then x else e.next) <= d.next
    requires var w := Rule(r.first, cfg.tolerance);
             d.log == e.log + Fates(r.arr + [x], w, if x < e.next then x else e.next, d.next)
    ensures var w := Rule(r.first, cfg.tolerance);
            d.log == r.past + Fates(r.arr + [x], w, if x < e.next then x else Start(r, cfg.tolerance), d.next)
  {
    hide RingHolds, Timely, Top, Base, Fates, Unfit;
    var w, b, all := Rule(r.first, cfg.tolerance), Start(r, cfg.tolerance), r.arr + [x];
    if x < e.next {
      FatesEmpty(r.arr, w, b);
      assert e.log == [] && r.past == [];
    } else {
      FatesSettled(r.arr, x, w, b, e.next);
      FatesJoin(all, w, b, e.next, d.next);
      assert (r.past + Fates(all, w, b, e.next)) + Fates(all, w, e.next, d.next)
          == r.past + (Fates(all, w, b, e.next) + Fates(all, w, e.next, d.next));
    }
  }

  lemma FatesEmpty(arr: seq<nat>, w: Rule, from: nat)
    ensures Fates(arr, w, from, from) == []
  {
  }

  lemma UnfitSnoc(arr: seq<nat>, x: nat, base: nat)
    requires Unfit(arr, base)
    ensures Unfit(arr + [x], if x < base then x else base)
  {
    hide Top;
    TopSnoc(arr, x);
    assert forall i :: 0 <= i < |arr| ==> (arr + [x])[i] == arr[i];
  }

  /** One observation refines one step of the reading, whatever identifier arrives. */
  lemma ObserveMatches(cfg: Config, e: Estimator, r: Reading, x: nat)
    requires Matches(cfg, e, r)
    ensures |e.ring| == RING && Matches(cfg, Observe(cfg, e, x), Read(r, x, cfg.tolerance))
  {
    RingSize(e.ring, e.next, r.arr, Rule(r.first, cfg.tolerance));
    assert e.highest - e.next < cfg.tolerance;
    hide Matches, Observe, Read;
    if Rejects(e, x) {
      RejectedMatches(cfg, e, r, x);
    } else if x > e.next + MAX_GAP {
      RestartMatches(cfg, e, r, x);
    } else {
      AcceptedMatches(cfg, e, r, x);
    }
  }

  lemma {:induction false} ObserveAllMatches(cfg: Config, arrivals: seq<nat>)
    requires Proper(cfg) && arrivals != []
    ensures Matches(cfg, ObserveAll(cfg, arrivals), ReadAll(arrivals, cfg.tolerance))
  {
    hide Matches, Observe, Fates;
    var n := |arrivals| - 1;
    if n == 0 {
      FirstMatches(cfg, arrivals[0]);
      assert arrivals[..0] == [] && [] + [arrivals[0]] == [arrivals[0]];
    } else {
      ObserveAllMatches(cfg, arrivals[..n]);
      ObserveMatches(cfg, ObserveAll(cfg, arrivals[..n]), ReadAll(arrivals[..n], cfg.tolerance), arrivals[n]);
    }
  }

  /**
   Arrival order to loss record: since the last restart the outcomes recorded are
   those of the identifiers from the start of the reading up to next, in order and
   once each; an outcome is an arrival exactly when the identifier came before it
   was decided; and every decided identifier, no other, is a tolerance behind the
   highest one seen.
   */
  lemma LossRecordExact(cfg: Config, arrivals: seq<nat>)
    requires Proper(cfg) && arrivals != []
    ensures var e, r := ObserveAll(cfg, arrivals), ReadAll(arrivals, cfg.tolerance);
            var base := Start(r, cfg.tolerance);
            && base <= e.next && |e.log| == |r.past| + (e.next - base) && e.log[..|r.past|] == r.past
            && (forall id: nat :: base <= id < e.next ==>
                  e.log[|r.past| + (id - base)] == Timely(r.arr, Rule(r.first, cfg.tolerance), id))
            && e.highest in r.arr && (forall i :: 0 <= i < |r.arr| ==> r.arr[i] <= e.highest)
            && (forall id: nat :: base <= id < e.next <==> Decided(r.arr, Rule(r.first, cfg.tolerance), id))
  {
    hide Timely, Top, Base, Matches, ObserveAll, ReadAll, Fates, Decided;
    ObserveAllMatches(cfg, arrivals);
    var e, r := ObserveAll(cfg, arrivals), ReadAll(arrivals, cfg.tolerance);
    MatchesLog(cfg, e, r);
    MatchesEnds(cfg, e, r);
    TopBounds(r.arr);
    forall id: nat
      ensures Start(r, cfg.tolerance) <= id < e.next <==> Decided(r.arr, Rule(r.first, cfg.tolerance), id)
    {
      UndecidedIs(r, cfg.tolerance, id);
    }
  }

  lemma MatchesLog(cfg: Config, e: Estimator, r: Reading)
    requires Matches(cfg, e, r)
    ensures var base := Start(r, cfg.tolerance);
            && base <= e.next && |e.log| == |r.past| + (e.next - base) && e.log[..|r.past|] == r.past
            && (forall id: nat :: base <= id < e.next ==>
                  e.log[|r.past| + (id - base)] == Timely(r.arr, Rule(r.first, cfg.tolerance), id))
  {
    hide Timely, Top, Base, RingHolds, Unfit;
  }

  lemma MatchesEnds(cfg: Config, e: Estimator, r: Reading)
    requires Matches(cfg, e, r)
    ensures r.arr != [] && e.highest == Top(r.arr) && e.next == Undecided(r, cfg.tolerance)
  {
    hide Timely, Top, Base, RingHolds, Unfit, Fates;
  }

  lemma UndecidedIs(r: Reading, tolerance: nat, id: nat)
    requires r.arr != []
    ensures Start(r, tolerance) <= id < Undecided(r, tolerance) <==> Decided(r.arr, Rule(r.first, tolerance), id)
  {
    hide Top, Base;
  }
}
