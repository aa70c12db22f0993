/**
 The wire-rate ceiling shared by every connection of a path, and what it
 guarantees over any span of time. Times are nanoseconds; zero means never.
 */
module WireCap {
  const SECOND: nat := 1_000_000_000
  const BURST_PACKETS: nat := 10

  /** When the bytes charged so far are paid off, at this rate in bytes per second. */
  datatype Bucket = Bucket(rate: nat, next: nat)

  datatype Scheduler = Scheduler(total: Bucket, bulk: Bucket, maxDatagram: nat)

  datatype Event = Charge(sent: nat, bytes: nat, bulk: bool) | Resize(size: nat)

  predicate Proper(s: Scheduler) {
    s.total.rate > 0 && s.bulk.rate > 0
  }

  /** How long the bytes take at the rate, rounded up. */
  function PacingDuration(bytes: nat, rate: nat): (d: nat)
    requires rate > 0
    ensures bytes * SECOND <= rate * d <= bytes * SECOND + (rate - 1)
  {
    var nanos := bytes * SECOND / rate;
    if bytes * SECOND % rate != 0 then nanos + 1 else nanos
  }

  /** Zero when a packet of these bytes may go now, otherwise when it may. */
  function Deadline(b: Bucket, maxDatagram: nat, now: nat, bytes: nat): (d: nat)
    requires b.rate > 0
  {
    var at := b.next + PacingDuration(bytes, b.rate) - PacingDuration(BURST_PACKETS * maxDatagram, b.rate);
    if b.next == 0 || at <= now then 0 else at
  }

  function TimeUntilSend(s: Scheduler, now: nat, bulk: bool): nat
    requires Proper(s)
  {
    var a := Deadline(s.total, s.maxDatagram, now, s.maxDatagram);
    var b := Deadline(s.bulk, s.maxDatagram, now, s.maxDatagram);
    if bulk && b > a then b else a
  }

  function ChargeBucket(b: Bucket, sent: nat, bytes: nat): Bucket
    requires b.rate > 0
  {
    b.(next := (if b.next == 0 || b.next < sent then sent else b.next) + PacingDuration(bytes, b.rate))
  }

  function Overshoots(s: Scheduler, sent: nat, bytes: nat, bulk: bool): bool
    requires Proper(s)
  {
    || Deadline(s.total, s.maxDatagram, sent, bytes) != 0
    || (bulk && Deadline(s.bulk, s.maxDatagram, sent, bytes) != 0)
  }

  function Step(s: Scheduler, e: Event): (r: Scheduler)
    requires Proper(s)
    ensures Proper(r) && r.total.rate == s.total.rate && r.bulk.rate == s.bulk.rate && r.maxDatagram >= s.maxDatagram
  {
    match e
    case Charge(sent, bytes, bulk) =>
      s.(total := ChargeBucket(s.total, sent, bytes),
         bulk := if bulk then ChargeBucket(s.bulk, sent, bytes) else s.bulk)
    case Resize(size) =>
      s.(maxDatagram := if size > s.maxDatagram then size else s.maxDatagram)
  }

  function After(s: Scheduler, events: seq<Event>): (r: Scheduler)
    requires Proper(s)
    ensures Proper(r) && r.total.rate == s.total.rate && r.bulk.rate == s.bulk.rate && r.maxDatagram >= s.maxDatagram
  {
    if events == [] then s else Step(After(s, events[..|events| - 1]), events[|events| - 1])
  }

  class WireScheduler {
    var total: Bucket
    var bulk: Bucket
    var maxDatagram: nat

    ghost function Model(): Scheduler
      reads this
    {
      Scheduler(total, bulk, maxDatagram)
    }

    constructor (total: nat, reserve: nat, initialPacket: nat)
      requires reserve < total
      ensures Proper(Model()) && Model() == Scheduler(Bucket(total, 0), Bucket(total - reserve, 0), initialPacket)
    {
      this.total, bulk, maxDatagram := Bucket(total, 0), Bucket(total - reserve, 0), initialPacket;
    }

    /** Records a packet and says whether it went while the schedule was in debt. */
    method ChargePacket(sent: nat, bytes: nat, isBulk: bool) returns (overshoot: bool)
      requires Proper(Model())
      modifies this
      ensures overshoot == Overshoots(old(Model()), sent, bytes, isBulk)
      ensures Model() == Step(old(Model()), Charge(sent, bytes, isBulk))
    {
      overshoot := Deadline(total, maxDatagram, sent, bytes) != 0;
      if isBulk {
        overshoot := overshoot || Deadline(bulk, maxDatagram, sent, bytes) != 0;
      }
      total := ChargeBucket(total, sent, bytes);
      if isBulk {
        bulk := ChargeBucket(bulk, sent, bytes);
      }
    }

    method SetMaxDatagramSize(size: nat)
      requires Proper(Model())
      modifies this
      ensures Model() == Step(old(Model()), Resize(size))
    {
      if size == 0 {
        return;
      }
      if size > maxDatagram {
        maxDatagram := size;
      }
    }
  }

  // ---------- the two classes of traffic ----------

  /** All traffic is held to the total rate, bulk traffic also to the rate without the reserve. */
  datatype Class = All | BulkOnly

  predicate Counts(c: Class, e: Event) {
    e.Charge? && (c.All? || e.bulk)
  }

  function BucketOf(s: Scheduler, c: Class): Bucket {
    if c.All? then s.total else s.bulk
  }

  /** Bytes charged to the class. */
  function Charged(c: Class, events: seq<Event>): nat {
    if events == [] then 0 else
      var e := events[|events| - 1];
      Charged(c, events[..|events| - 1]) + if Counts(c, e) then e.bytes else 0
  }

  /** Bytes of the class that were reported as overshooting after its last packet that was not. */
  function Overshot(s: Scheduler, c: Class, events: seq<Event>): nat
    requires Proper(s)
  {
    if events == [] then 0 else
      var n := |events| - 1;
      var e := events[n];
      if !Counts(c, e) then Overshot(s, c, events[..n])
      else if Overshoots(After(s, events[..n]), e.sent, e.bytes, e.bulk) then Overshot(s, c, events[..n]) + e.bytes
      else 0
  }

  /** Every packet goes within the span, and none is longer than a burst of the largest datagrams then in use. */
  ghost predicate Within(s: Scheduler, events: seq<Event>, from: nat, to: nat)
    requires Proper(s)
  {
    if events == [] then true else
      var n := |events| - 1;
      var e := events[n];
      && Within(s, events[..n], from, to)
      && (e.Charge? ==> from <= e.sent <= to && e.bytes <= BURST_PACKETS * After(s, events[..n]).maxDatagram)
  }

  /** Time the class's packets take at its rate. */
  function Cost(rate: nat, c: Class, events: seq<Event>): nat
    requires rate > 0
  {
    if events == [] then 0 else
      var e := events[|events| - 1];
      Cost(rate, c, events[..|events| - 1]) + if Counts(c, e) then PacingDuration(e.bytes, rate) else 0
  }

  lemma {:induction false} CostCovers(rate: nat, c: Class, events: seq<Event>)
    requires rate > 0
    ensures Charged(c, events) * SECOND <= rate * Cost(rate, c, events)
  {
    hide PacingDuration;
    if events != [] {
      var n := |events| - 1;
      var e := events[n];
      CostCovers(rate, c, events[..n]);
      if Counts(c, e) {
        var p, q := Cost(rate, c, events[..n]), PacingDuration(e.bytes, rate);
        Distributes(rate, p, q);
      }
    }
  }

  lemma Distributes(rate: nat, p: nat, q: nat)
    ensures rate * (p + q) == rate * p + rate * q
  {
  }

  /** The schedule is never ahead of what has been charged since the span began. */
  lemma {:induction false} CostIsScheduled(s: Scheduler, c: Class, events: seq<Event>, from: nat, to: nat)
    requires Proper(s) && 0 < from && Within(s, events, from, to)
    ensures var cost := Cost(BucketOf(s, c).rate, c, events);
            cost == 0 || from + cost <= BucketOf(After(s, events), c).next
  {
    hide PacingDuration;
    if events != [] {
      CostIsScheduled(s, c, events[..|events| - 1], from, to);
    }
  }

  /** A packet that is not reported leaves the schedule at most one burst ahead. */
  lemma AdmittedWithinBurst(s: Scheduler, c: Class, sent: nat, bytes: nat, bulk: bool)
    requires Proper(s) && Counts(c, Charge(sent, bytes, bulk)) && sent > 0
    requires bytes <= BURST_PACKETS * s.maxDatagram && !Overshoots(s, sent, bytes, bulk)
    ensures var b := BucketOf(s, c);
            BucketOf(Step(s, Charge(sent, bytes, bulk)), c).next <=
              sent + PacingDuration(BURST_PACKETS * s.maxDatagram, b.rate)
  {
    var b := BucketOf(s, c);
    PacingGrows(bytes, BURST_PACKETS * s.maxDatagram, b.rate);
    hide PacingDuration;
  }

  lemma PacingGrows(a: nat, b: nat, rate: nat)
    requires rate > 0 && a <= b
    ensures PacingDuration(a, rate) <= PacingDuration(b, rate)
  {
    hide PacingDuration;
    var x, y := PacingDuration(a, rate), PacingDuration(b, rate);
    // rate * x < a * SECOND + rate and b * SECOND <= rate * y.
    if x > y {
      Distributes(rate, y, x - y);
      AtLeast(rate, x - y);
    }
  }

  lemma AtLeast(rate: nat, k: nat)
    requires k >= 1
    ensures rate * k >= rate
  {
  }

  /**
   The wire cap: in any span, the bytes of a class are at most its rate times the
   span, plus ten maximum datagrams, plus rounding, plus the bytes of the packets
   reported as overshooting since the last one that was not.
   */
  lemma {:induction false} WireCapHolds(s: Scheduler, c: Class, events: seq<Event>, from: nat, to: nat)
    requires Proper(s) && 0 < from <= to && Within(s, events, from, to)
    ensures var rate := BucketOf(s, c).rate;
            Charged(c, events) * SECOND <=
              rate * (to - from) + BURST_PACKETS * After(s, events).maxDatagram * SECOND + (rate - 1)
              + Overshot(s, c, events) * SECOND
  {
    hide PacingDuration, Overshoots, Step;
    var rate := BucketOf(s, c).rate;
    if events != [] {
      var n := |events| - 1;
      var e := events[n];
      if Counts(c, e) && !Overshoots(After(s, events[..n]), e.sent, e.bytes, e.bulk) {
        SpanBound(s, c, events, from, to);
      } else {
        WireCapHolds(s, c, events[..n], from, to);
        assert After(s, events).maxDatagram >= After(s, events[..n]).maxDatagram;
      }
    } else {
      Positive(rate, to - from);
    }
  }

  lemma Positive(a: nat, b: nat)
    ensures a * b >= 0
  {
  }

  /** The bound when the last packet is not reported. */
  lemma SpanBound(s: Scheduler, c: Class, events: seq<Event>, from: nat, to: nat)
    requires Proper(s) && 0 < from <= to && Within(s, events, from, to) && events != []
    requires var e := events[|events| - 1];
             Counts(c, e) && !Overshoots(After(s, events[..|events| - 1]), e.sent, e.bytes, e.bulk)
    ensures var rate := BucketOf(s, c).rate;
            Charged(c, events) * SECOND <=
              rate * (to - from) + BURST_PACKETS * After(s, events).maxDatagram * SECOND + (rate - 1)
  {
    hide PacingDuration, Overshoots, Charged, Cost;
    var n, rate := |events| - 1, BucketOf(s, c).rate;
    var before, e := After(s, events[..n]), events[n];
    CostCovers(rate, c, events);
    CostIsScheduled(s, c, events, from, to);
    AdmittedWithinBurst(before, c, e.sent, e.bytes, e.bulk);
    var cost, burst := Cost(rate, c, events), PacingDuration(BURST_PACKETS * before.maxDatagram, rate);
    assert cost <= (to - from) + burst;
    Scales(rate, cost, (to - from) + burst);
    Distributes(rate, to - from, burst);
  }

  lemma Scales(rate: nat, a: nat, b: nat)
    requires a <= b
    ensures rate * a <= rate * b
  {
  }

  /** With no packet reported at all, the span carries no more than the rate, one burst and rounding. */
  lemma NoOvershootBound(s: Scheduler, c: Class, events: seq<Event>, from: nat, to: nat)
    requires Proper(s) && 0 < from <= to && Within(s, events, from, to)
    requires forall i :: 0 <= i < |events| && Counts(c, events[i]) ==>
               !Overshoots(After(s, events[..i]), events[i].sent, events[i].bytes, events[i].bulk)
    ensures var rate := BucketOf(s, c).rate;
            Charged(c, events) * SECOND <=
              rate * (to - from) + BURST_PACKETS * After(s, events).maxDatagram * SECOND + (rate - 1)
  {
    hide Overshoots, Step, Charged;
    WireCapHolds(s, c, events, from, to);
    NoneOvershot(s, c, events);
  }

  lemma {:induction false} NoneOvershot(s: Scheduler, c: Class, events: seq<Event>)
    requires Proper(s)
    requires forall i :: 0 <= i < |events| && Counts(c, events[i]) ==>
               !Overshoots(After(s, events[..i]), events[i].sent, events[i].bytes, events[i].bulk)
    ensures Overshot(s, c, events) == 0
  {
    hide Overshoots, Step;
    if events != [] {
      var n := |events| - 1;
      assert forall i :: 0 <= i < n ==> events[..n][..i] == events[..i];
      NoneOvershot(s, c, events[..n]);
    }
  }

  // ---------- permission and charge agree ----------

  /** A packet sent when the schedule gave leave is never reported, and leave is given at the time it named. */
  lemma LeaveIsHonoured(s: Scheduler, now: nat, bytes: nat, bulk: bool)
    requires Proper(s) && now > 0 && bytes <= s.maxDatagram
    ensures TimeUntilSend(s, now, bulk) == 0 ==> !Overshoots(s, now, bytes, bulk)
    ensures var at := TimeUntilSend(s, now, bulk); at != 0 ==> at > now && TimeUntilSend(s, at, bulk) == 0
  {
    PacingGrows(bytes, s.maxDatagram, s.total.rate);
    PacingGrows(bytes, s.maxDatagram, s.bulk.rate);
    hide PacingDuration;
  }
}
