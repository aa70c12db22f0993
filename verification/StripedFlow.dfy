/**
 The striped flow end to end: ordered delivery at the receiver, the safety of
 acknowledgements that travel late, twice, out of order or cut short, and the
 conservation of the memory all flows share.
 */
module StripedFlow {
  import opened Wrappers
  import opened Reassembly
  import A = AckTracker

  // ---------- what the receiver has ----------

  /** The byte has been delivered or is buffered. */
  ghost predicate HasByte(fl: Flow, b: nat) {
    b < fl.next || exists k :: k in fl.buffer && k <= b < fl.buffer[k].End()
  }

  lemma {:induction false} DrainHas(fl: Flow, current: Segment, b: nat)
    requires ValidButCursor(fl) && fl.next !in fl.buffer && fl.next <= LIMIT
    requires WellFormed(current) && current.sequence == fl.next
    requires HasByte(fl, b) || current.sequence <= b < current.End()
    ensures HasByte(Drain(fl, current).flow, b)
    decreases |fl.buffer|
  {
    hide ValidButCursor, Unstore, WellFormed;
    if !current.final {
      var moved := fl.(next := fl.next + |current.payload|);
      MovedValid(fl, moved.next);
      assert HasByte(moved, b);
      if moved.next in moved.buffer {
        UnstoreValid(moved);
        BufferedWellFormed(moved, moved.next);
        UnstoreCursor(moved);
        UnstoreHas(moved, b);
        assert moved.next <= LIMIT by { assert WellFormed(current); EndInRange(current); }
        DrainHas(Unstore(moved), moved.buffer[moved.next], b);
      }
    }
  }

  lemma EndInRange(s: Segment)
    requires WellFormed(s) && !s.final
    ensures s.sequence + |s.payload| <= LIMIT
  {
  }

  lemma UnstoreHas(fl: Flow, b: nat)
    requires fl.next in fl.buffer && HasByte(fl, b)
    ensures HasByte(Unstore(fl), b) || fl.next <= b < fl.buffer[fl.next].End()
  {
    if b >= fl.next {
      var k :| k in fl.buffer && k <= b < fl.buffer[k].End();
      if k != fl.next {
        assert k in Unstore(fl).buffer;
      }
    }
  }

  /** The receiver never loses a byte it has, and has every byte of a segment it accepts. */
  lemma InsertKeepsBytes(cfg: Config, fl: Flow, s: Segment, room: bool, b: nat)
    requires Valid(fl) && Insert(cfg, fl, s, room).Success?
    requires HasByte(fl, b) || s.sequence <= b < s.End()
    ensures HasByte(Insert(cfg, fl, s, room).value.flow, b)
  {
    hide Drain, Conflicts;
    if s.End() < fl.next {
    } else if s.sequence in fl.buffer {
      assert fl.buffer[s.sequence].End() == s.End();
    } else if s.sequence != fl.next {
      var stored := Store(fl, s);
      if k :| k in fl.buffer && k <= b < fl.buffer[k].End() {
        assert k in stored.buffer;
      }
      assert s.sequence in stored.buffer;
    } else {
      assert ValidButCursor(fl);
      DrainHas(fl, s, b);
    }
  }

  // ---------- what the receiver reports ----------

  /** The buffered data ranges, lowest first, adjacent ones merged. */
  function RangesOf(buffer: map<nat, Segment>, order: seq<nat>): seq<A.Range>
    requires forall k :: k in order ==> k in buffer
  {
    if order == [] then [] else
      var n := |order| - 1;
      var before, last := RangesOf(buffer, order[..n]), buffer[order[n]];
      if last.final then before else JoinRange(before, A.Range(order[n], last.End()))
  }

  /** Appends a range, or extends the last one if they touch. */
  function JoinRange(before: seq<A.Range>, r: A.Range): (out: seq<A.Range>)
    ensures out != []
  {
    var n := |before| - 1;
    if before != [] && before[n].end == r.start then before[n := A.Range(before[n].start, r.end)] else before + [r]
  }

  function ReceivedRanges(fl: Flow, max: int): seq<A.Range>
    requires forall k :: k in fl.order ==> k in fl.buffer
  {
    if max <= 0 then [] else
      var all := RangesOf(fl.buffer, fl.order);
      if |all| > max then all[..max] else all
  }

  /** One of the first n buffered segments holds the byte. */
  ghost predicate CoveredBy(fl: Flow, n: nat, b: nat)
    requires n <= |fl.order|
  {
    exists i :: 0 <= i < n && Covers(fl, fl.order[i], b)
  }

  lemma CoveredByStep(fl: Flow, m: nat, b: nat)
    requires m < |fl.order|
    ensures CoveredBy(fl, m + 1, b) <==> CoveredBy(fl, m, b) || Covers(fl, fl.order[m], b)
  {
    hide Covers;
  }

  /** What the ranges of the first n segments are. */
  ghost predicate ExactRanges(fl: Flow, n: nat, rs: seq<A.Range>)
    requires n <= |fl.order|
  {
    && A.Spaced(rs)
    && (rs != [] ==> n > 0 && fl.order[n - 1] in fl.buffer && rs[|rs| - 1].end <= fl.buffer[fl.order[n - 1]].End())
    && (forall b: nat :: A.InAny(rs, b) <==> CoveredBy(fl, n, b))
  }

  /** Starts come in order, and each segment ends before the next one starts. */
  lemma NextStart(fl: Flow, m: nat)
    requires Valid(fl) && m < |fl.order|
    ensures var k := fl.order[m];
            && k in fl.buffer && fl.buffer[k].sequence == k && WellFormed(fl.buffer[k])
            && (m > 0 ==> fl.order[m - 1] in fl.buffer && fl.buffer[fl.order[m - 1]].End() <= k)
  {
    hide Total, WellFormed;
  }

  lemma ExactStep(fl: Flow, m: nat, before: seq<A.Range>)
    requires Valid(fl) && m < |fl.order| && ExactRanges(fl, m, before)
    ensures fl.order[m] in fl.buffer
    ensures var last := fl.buffer[fl.order[m]];
            ExactRanges(fl, m + 1, if last.final then before else JoinRange(before, A.Range(fl.order[m], last.End())))
  {
    hide A.Spaced, A.InAny, JoinRange, Valid, Covers, CoveredBy;
    NextStart(fl, m);
    var k := fl.order[m];
    var last, r := fl.buffer[k], A.Range(k, fl.buffer[k].End());
    var rs := if last.final then before else JoinRange(before, r);
    if !last.final {
      JoinedSpaced(before, r);
    }
    forall b: nat
      ensures A.InAny(rs, b) <==> CoveredBy(fl, m + 1, b)
    {
      CoveredByStep(fl, m, b);
      CoversIs(fl, k, b);
      if !last.final {
        JoinedBytes(before, r, b);
      }
    }
  }

  lemma CoversIs(fl: Flow, k: nat, b: nat)
    requires k in fl.buffer
    ensures Covers(fl, k, b) <==> A.In(A.Range(k, fl.buffer[k].End()), b)
    ensures fl.buffer[k].final && fl.buffer[k].sequence == k ==> !Covers(fl, k, b)
  {
  }

  lemma {:induction false} RangesAreExact(fl: Flow, n: nat)
    requires Valid(fl) && n <= |fl.order|
    ensures (forall k :: k in fl.order ==> k in fl.buffer) && ExactRanges(fl, n, RangesOf(fl.buffer, fl.order[..n]))
    decreases n
  {
    hide ExactRanges, JoinRange, Valid;
    OrderInBuffer(fl);
    if n > 0 {
      RangesAreExact(fl, n - 1);
      assert fl.order[..n][..n - 1] == fl.order[..n - 1];
      ExactStep(fl, n - 1, RangesOf(fl.buffer, fl.order[..n - 1]));
    } else {
      NoRangesExact(fl);
    }
  }

  lemma NoRangesExact(fl: Flow)
    ensures ExactRanges(fl, 0, [])
  {
    NoRangesSpaced();
    hide A.Spaced, A.InAny;
    forall b: nat
      ensures !A.InAny([], b)
    {
      A.InNone(b);
    }
  }

  /** Every byte of every range is a buffered byte, every buffered byte is in a range, and no two ranges touch. */
  lemma RangesOfExact(fl: Flow)
    requires Valid(fl)
    ensures forall k :: k in fl.order ==> k in fl.buffer
    ensures var rs := RangesOf(fl.buffer, fl.order);
            A.Spaced(rs) && forall b: nat :: A.InAny(rs, b) <==> exists k :: k in fl.buffer && Covers(fl, k, b)
  {
    hide A.Spaced, A.InAny, RangesOf, Covers;
    OrderInBuffer(fl);
    RangesAreExact(fl, |fl.order|);
    assert fl.order[..|fl.order|] == fl.order;
    forall b: nat
      ensures CoveredBy(fl, |fl.order|, b) <==> exists k :: k in fl.buffer && Covers(fl, k, b)
    {
      OrderIsBuffer(fl, b);
    }
  }

  lemma OrderIsBuffer(fl: Flow, b: nat)
    requires Valid(fl)
    ensures CoveredBy(fl, |fl.order|, b) <==> exists k :: k in fl.buffer && Covers(fl, k, b)
  {
    hide Covers, Total, WellFormed, Sorted;
    if k :| k in fl.buffer && Covers(fl, k, b) {
      var i :| 0 <= i < |fl.order| && fl.order[i] == k;
      assert Covers(fl, fl.order[i], b);
    }
  }

  lemma NoRangesSpaced()
    ensures A.Spaced([])
  {
  }

  /** The segment starting at k holds byte b. */
  ghost predicate Covers(fl: Flow, k: nat, b: nat) {
    k in fl.buffer && k <= b < fl.buffer[k].End()
  }

  lemma JoinedSpaced(before: seq<A.Range>, r: A.Range)
    requires A.Spaced(before) && (before != [] ==> before[|before| - 1].end <= r.start) && r.start < r.end
    ensures var out := JoinRange(before, r); A.Spaced(out) && out[|out| - 1].end == r.end
  {
  }

  lemma JoinedBytes(before: seq<A.Range>, r: A.Range, b: nat)
    requires A.Spaced(before) && (before != [] ==> before[|before| - 1].end <= r.start) && r.start < r.end
    ensures A.InAny(JoinRange(before, r), b) <==> A.InAny(before, b) || A.In(r, b)
  {
    A.InAnyConcat(before, [r], b);
    A.InOne(r, b);
    if before != [] && before[|before| - 1].end == r.start {
      var n, out := |before| - 1, JoinRange(before, r);
      if i :| 0 <= i < |before| && A.In(before[i], b) {
        assert A.In(out[i], b);
      }
      if A.In(r, b) {
        assert A.In(out[n], b);
      }
      if i :| 0 <= i < |out| && A.In(out[i], b) {
        assert i != n ==> A.In(before[i], b);
        assert i == n ==> A.In(before[n], b) || A.In(r, b);
      }
    }
  }

  /** A report says only what is true, however short it is cut. */
  lemma ReportTrue(fl: Flow, max: int, b: nat)
    requires Valid(fl) && A.InAny(ReceivedRanges(fl, max), b)
    ensures HasByte(fl, b)
  {
    hide RangesOf, A.In, Valid;
    OrderInBuffer(fl);
    var all, rs := RangesOf(fl.buffer, fl.order), ReceivedRanges(fl, max);
    RangesOfExact(fl);
    var i :| 0 <= i < |rs| && A.In(rs[i], b);
    assert all[i] == rs[i];
    assert A.InAny(all, b);
    var k :| k in fl.buffer && Covers(fl, k, b);
  }

  // ---------- the two-party protocol ----------

  /** A receiver's report at one moment. */
  datatype Report = Report(next: nat, ranges: seq<A.Range>)

  /** The receiver, every report it has ever sent, the sender's record, and what was buffered at each close. */
  datatype System = System(receiver: Flow, network: seq<Report>, sender: A.Acked, shed: seq<Flow>)

  datatype Event =
    | Arrive(segment: Segment, room: bool)
    | Send(max: int)
    /** The receiver gives up what it has buffered. */
    | Close
    /** A report, or any part of it, reaches the sender: late, again, or out of order. */
    | Deliver(report: nat, cumulative: bool, ranges: seq<A.Range>)

  predicate Possible(y: System, e: Event) {
    e.Deliver? ==> e.report < |y.network| && forall r :: r in e.ranges ==> r in y.network[e.report].ranges
  }

  function Next(cfg: Config, y: System, e: Event): System
    requires Possible(y, e) && forall k :: k in y.receiver.order ==> k in y.receiver.buffer
  {
    match e
    case Arrive(s, room) =>
      (match Insert(cfg, y.receiver, s, room)
       case Success(effect) => y.(receiver := effect.flow)
       case Failure(_) => y)
    case Send(max) => y.(network := y.network + [Report(y.receiver.next, ReceivedRanges(y.receiver, max))])
    case Deliver(i, cumulative, ranges) =>
      var a := if cumulative then A.Advance(y.sender, y.network[i].next) else y.sender;
      y.(sender := A.AddRanges(a, ranges))
    case Close => y.(receiver := Abandoned(y.receiver), shed := y.shed + [y.receiver])
  }

  /** The byte was buffered ahead of the cursor when the receiver was closed. */
  ghost predicate ShedAt(fl: Flow, b: nat) {
    fl.next <= b && HasByte(fl, b)
  }

  /** The receiver has the byte, or had it buffered when it was closed. */
  ghost predicate HadByte(y: System, b: nat) {
    HasByte(y.receiver, b) || exists i :: 0 <= i < |y.shed| && ShedAt(y.shed[i], b)
  }

  ghost predicate ReportTold(y: System, r: Report) {
    && (forall b: nat :: b < r.next ==> HadByte(y, b))
    && (forall b: nat :: A.InAny(r.ranges, b) ==> HadByte(y, b))
  }

  /** Everything any report or the sender's record claims, the receiver has, or had when it was closed. */
  ghost predicate Safe(y: System) {
    && Valid(y.receiver) && A.Canonical(y.sender)
    && (forall i :: 0 <= i < |y.network| ==> ReportTold(y, y.network[i]))
    && (forall b: nat :: A.Has(y.sender, b) ==> HadByte(y, b))
  }

  /** A close keeps exactly the bytes below the cursor. */
  lemma CloseSheds(fl: Flow, b: nat)
    ensures HasByte(Abandoned(fl), b) <==> b < fl.next
    ensures HasByte(fl, b) ==> HasByte(Abandoned(fl), b) || ShedAt(fl, b)
  {
  }

  lemma CloseTells(cfg: Config, y: System, b: nat)
    requires HadByte(y, b) && forall k :: k in y.receiver.order ==> k in y.receiver.buffer
    ensures HadByte(Next(cfg, y, Close), b)
  {
    hide HasByte, ShedAt;
    var z := Next(cfg, y, Close);
    CloseSheds(y.receiver, b);
    assert z.shed[|y.shed|] == y.receiver;
    if i :| 0 <= i < |y.shed| && ShedAt(y.shed[i], b) {
      assert z.shed[i] == y.shed[i];
    }
  }

  lemma ArriveTells(cfg: Config, y: System, s: Segment, room: bool, b: nat)
    requires Valid(y.receiver) && HadByte(y, b) && forall k :: k in y.receiver.order ==> k in y.receiver.buffer
    ensures HadByte(Next(cfg, y, Arrive(s, room)), b)
  {
    hide HasByte, ShedAt, Insert, Valid;
    if HasByte(y.receiver, b) && Insert(cfg, y.receiver, s, room).Success? {
      InsertKeepsBytes(cfg, y.receiver, s, room, b);
    }
  }

  lemma NextSafe(cfg: Config, y: System, e: Event)
    requires Safe(y) && Possible(y, e)
    ensures Safe(Next(cfg, y, e))
  {
    hide HadByte, Insert, A.Has, A.Canonical, A.InAny, Valid, ReceivedRanges;
    assert forall k :: k in y.receiver.order ==> k in y.receiver.buffer by { OrderInBuffer(y.receiver); }
    var z := Next(cfg, y, e);
    match e
    case Arrive(s, room) =>
      if Insert(cfg, y.receiver, s, room).Success? {
        InsertValid(cfg, y.receiver, s, room);
      }
      forall b: nat | HadByte(y, b)
        ensures HadByte(z, b)
      {
        ArriveTells(cfg, y, s, room, b);
      }
    case Send(max) =>
      forall b: nat
        ensures HadByte(z, b) <==> HadByte(y, b)
      {
        SameTold(y, z, b);
      }
      SentReportTold(z, max);
    case Deliver(i, cumulative, ranges) =>
      forall b: nat
        ensures HadByte(z, b) <==> HadByte(y, b)
      {
        SameTold(y, z, b);
      }
      DeliverAdds(y, i, cumulative, ranges);
    case Close =>
      AbandonedValid(y.receiver);
      forall b: nat | HadByte(y, b)
        ensures HadByte(z, b)
      {
        CloseTells(cfg, y, b);
      }
  }

  lemma SameTold(y: System, z: System, b: nat)
    requires z.receiver == y.receiver && z.shed == y.shed
    ensures HadByte(z, b) <==> HadByte(y, b)
  {
  }

  /** What a delivered report, or any part of one, adds to the sender's record was told truly. */
  lemma DeliverAdds(y: System, i: nat, cumulative: bool, ranges: seq<A.Range>)
    requires Safe(y) && i < |y.network| && forall r :: r in ranges ==> r in y.network[i].ranges
    ensures var a := if cumulative then A.Advance(y.sender, y.network[i].next) else y.sender;
            A.Canonical(A.AddRanges(a, ranges)) && forall b: nat :: A.Has(A.AddRanges(a, ranges), b) ==> HadByte(y, b)
  {
    hide HadByte, A.Has, A.Canonical, A.InAny, Valid;
    A.AdvanceAdds(y.sender, y.network[i].next);
    var a := if cumulative then A.Advance(y.sender, y.network[i].next) else y.sender;
    A.AddRangesAdds(a, ranges);
    forall b: nat | A.InAny(ranges, b)
      ensures HadByte(y, b)
    {
      PartOf(ranges, y.network[i].ranges, b);
      assert ReportTold(y, y.network[i]);
    }
    assert ReportTold(y, y.network[i]);
  }

  lemma OrderInBuffer(fl: Flow)
    requires Valid(fl)
    ensures forall k :: k in fl.order ==> k in fl.buffer
  {
  }

  lemma SentReportTold(y: System, max: int)
    requires Valid(y.receiver)
    ensures (forall k :: k in y.receiver.order ==> k in y.receiver.buffer)
            && ReportTold(y, Report(y.receiver.next, ReceivedRanges(y.receiver, max)))
  {
    hide ReceivedRanges, A.InAny, Valid;
    OrderInBuffer(y.receiver);
    forall b: nat | A.InAny(ReceivedRanges(y.receiver, max), b)
      ensures HasByte(y.receiver, b)
    {
      ReportTrue(y.receiver, max, b);
    }
  }

  lemma PartOf(part: seq<A.Range>, whole: seq<A.Range>, b: nat)
    requires (forall r :: r in part ==> r in whole) && A.InAny(part, b)
    ensures A.InAny(whole, b)
  {
    var i :| 0 <= i < |part| && A.In(part[i], b);
    assert part[i] in whole;
  }

  ghost predicate Run(cfg: Config, y: System, events: seq<Event>, z: System)
    decreases |events|
  {
    if events == [] then y == z else
      && Possible(y, events[0]) && (forall k :: k in y.receiver.order ==> k in y.receiver.buffer)
      && Run(cfg, Next(cfg, y, events[0]), events[1..], z)
  }

  /**
   Acknowledgement safety: whatever happens to the reports on the way, a range the
   sender's record calls covered is one whose every byte the receiver has, or had
   buffered ahead of its cursor when it was closed.
   */
  lemma {:induction false} AcknowledgementsAreTrue(
    cfg: Config, y: System, events: seq<Event>, z: System, start: nat, end: nat)
    requires Safe(y) && Run(cfg, y, events, z)
    ensures Safe(z)
    ensures A.Covered(z.sender, start, end) ==> forall b: nat :: start <= b < end ==> HadByte(z, b)
    decreases |events|
  {
    hide HadByte, A.Has, A.Canonical, Next, A.Covered;
    if events == [] {
      A.CoveredExact(z.sender, start, end);
    } else {
      NextSafe(cfg, y, events[0]);
      AcknowledgementsAreTrue(cfg, Next(cfg, y, events[0]), events[1..], z, start, end);
    }
  }

  lemma {:induction false} NothingShed(cfg: Config, y: System, events: seq<Event>, z: System)
    requires Run(cfg, y, events, z) && Close !in events
    ensures z.shed == y.shed
    decreases |events|
  {
    hide Insert, ReceivedRanges;
    if events != [] {
      NothingShed(cfg, Next(cfg, y, events[0]), events[1..], z);
    }
  }

  /** From a fresh flow and a fresh record on, in every run: of an open flow every covered byte is held. */
  lemma AcknowledgementsAreTrueFromTheStart(cfg: Config, events: seq<Event>, z: System, start: nat, end: nat)
    requires Run(cfg, FreshSystem(), events, z) && A.Covered(z.sender, start, end)
    ensures forall b: nat :: start <= b < end ==> HadByte(z, b)
    ensures Close !in events ==> forall b: nat :: start <= b < end ==> HasByte(z.receiver, b)
  {
    hide HasByte, Run, A.Covered;
    FreshSafe();
    AcknowledgementsAreTrue(cfg, FreshSystem(), events, z, start, end);
    if Close !in events {
      NothingShed(cfg, FreshSystem(), events, z);
      forall b: nat | start <= b < end
        ensures HasByte(z.receiver, b)
      {
        assert HadByte(z, b);
      }
    }
  }

  /**
   When the receiver has just been closed: of a covered range it still has exactly the
   bytes below its cursor, and of the others it had each one buffered.
   */
  lemma CoveredAfterClose(cfg: Config, events: seq<Event>, y: System, start: nat, end: nat)
    requires Run(cfg, FreshSystem(), events, y) && A.Covered(y.sender, start, end) && Close !in events
    ensures forall k :: k in y.receiver.order ==> k in y.receiver.buffer
    ensures var z := Next(cfg, y, Close);
            forall b: nat :: start <= b < end ==>
              (HasByte(z.receiver, b) <==> b < y.receiver.next) && (!HasByte(z.receiver, b) ==> ShedAt(y.receiver, b))
  {
    hide HasByte, Run, A.Covered, HadByte, A.Has, A.Canonical;
    FreshSafe();
    AcknowledgementsAreTrue(cfg, FreshSystem(), events, y, start, end);
    OrderInBuffer(y.receiver);
    AcknowledgementsAreTrueFromTheStart(cfg, events, y, start, end);
    forall b: nat | start <= b < end
      ensures HasByte(Abandoned(y.receiver), b) <==> b < y.receiver.next
      ensures HasByte(Abandoned(y.receiver), b) || ShedAt(y.receiver, b)
    {
      CloseSheds(y.receiver, b);
    }
  }

  function FreshSystem(): System {
    System(Empty(), [], A.Acked(0, []), [])
  }

  lemma FreshSafe()
    ensures Safe(FreshSystem())
  {
  }

  // ---------- memory shared by many flows ----------

  /** A flow and the bounds it was asked to have. */
  datatype Account = Account(cfg: Config, flow: Flow)

  /** Only a flow with both bounds set holds on to the shared budget. */
  predicate Shares(a: Account) {
    Bounded(a.cfg)
  }

  /** All the flows of one client over one budget of capacity bytes. */
  datatype Client = Client(capacity: nat, used: nat, flows: seq<Account>)

  datatype Use = Put(flow: nat, segment: Segment) | Shut(flow: nat)

  /** What the semaphore would answer for a payload; a flow without it is always admitted. */
  predicate Room(c: Client, a: Account, payload: Bytes) {
    !Shares(a) || payload == [] || |payload| <= c.capacity - c.used
  }

  function Abandoned(fl: Flow): Flow {
    fl.(buffer := map[], order := [], bytes := 0)
  }

  /** The client after one use, or nothing if a release would exceed what is held. */
  function Using(c: Client, u: Use): (r: Option<Client>)
    requires u.flow < |c.flows|
  {
    var a := c.flows[u.flow];
    match u
    case Put(i, s) =>
      (match Insert(Effective(a.cfg), a.flow, s, Room(c, a, s.payload))
       case Success(e) => Settled(c, u.flow, e.flow, e.taken, e.released)
       case Failure(_) => Some(c))
    case Shut(i) => Settled(c, u.flow, Abandoned(a.flow), 0, a.flow.bytes)
  }

  /** The flow changed, with what it takes and gives back charged if it shares the budget. */
  function Settled(c: Client, i: nat, fl: Flow, taken: nat, released: nat): Option<Client>
    requires i < |c.flows|
  {
    var next := c.flows[i := c.flows[i].(flow := fl)];
    if !Shares(c.flows[i]) then Some(c.(flows := next))
    else if released > c.used + taken then None
    else Some(c.(used := c.used + taken - released, flows := next))
  }

  /** What the flow holds of the budget. */
  function Charge(a: Account): nat {
    if Shares(a) then a.flow.bytes else 0
  }

  function Charged(flows: seq<Account>): nat {
    if flows == [] then 0 else Charged(flows[..|flows| - 1]) + Charge(flows[|flows| - 1])
  }

  /** Out-of-order bytes buffered by all the flows. */
  function BytesHeld(flows: seq<Account>): nat {
    if flows == [] then 0 else BytesHeld(flows[..|flows| - 1]) + flows[|flows| - 1].flow.bytes
  }

  lemma {:induction false} ChargedUpdate(flows: seq<Account>, i: nat, a: Account)
    requires i < |flows|
    ensures Charged(flows[i := a]) + Charge(flows[i]) == Charged(flows) + Charge(a)
    ensures Charge(flows[i]) <= Charged(flows)
  {
    hide Charge;
    var n := |flows| - 1;
    if i < n {
      ChargedUpdate(flows[..n], i, a);
      assert flows[i := a][..n] == flows[..n][i := a];
    } else {
      assert flows[i := a][..n] == flows[..n];
    }
  }

  /** The budget lends exactly what the flows that share it buffer, and never more than its capacity. */
  ghost predicate Conserved(c: Client) {
    && c.used == Charged(c.flows) <= c.capacity
    && forall i :: 0 <= i < |c.flows| ==> Valid(c.flows[i].flow)
  }

  lemma SettledConserves(c: Client, i: nat, fl: Flow, taken: nat, released: nat)
    requires Conserved(c) && i < |c.flows| && Valid(fl) && fl.bytes + released == c.flows[i].flow.bytes + taken
    requires Shares(c.flows[i]) && taken > 0 ==> taken <= c.capacity - c.used && released == 0
    ensures var r := Settled(c, i, fl, taken, released);
            && r.Some? && Conserved(r.value) && r.value.capacity == c.capacity && |r.value.flows| == |c.flows|
            && (forall j :: 0 <= j < |c.flows| ==> r.value.flows[j].cfg == c.flows[j].cfg)
  {
    hide Valid, Charged;
    ChargedUpdate(c.flows, i, c.flows[i].(flow := fl));
  }

  /**
   Memory conservation: no use ever releases more than is held, the bytes in use stay
   equal to the payload buffered by the flows that share the budget, within its
   capacity, and closing such a flow returns everything it had charged.
   */
  lemma UsingConserves(c: Client, u: Use)
    requires Conserved(c) && u.flow < |c.flows|
    ensures var r := Using(c, u);
            && r.Some? && Conserved(r.value) && r.value.capacity == c.capacity && |r.value.flows| == |c.flows|
            && (forall j :: 0 <= j < |c.flows| ==> r.value.flows[j].cfg == c.flows[j].cfg)
    ensures u.Shut? ==>
              var d := Using(c, u).value; d.used + Charge(c.flows[u.flow]) == c.used && d.flows[u.flow].flow.bytes == 0
  {
    hide Insert, Valid, Charged, Conserved, Settled;
    assert Valid(c.flows[u.flow].flow) by { ConservedFlow(c, u.flow); }
    var a := c.flows[u.flow];
    match u
    case Put(i, s) =>
      var cfg, room := Effective(a.cfg), Room(c, a, s.payload);
      if Insert(cfg, a.flow, s, room).Success? {
        InsertValid(cfg, a.flow, s, room);
        TakenIsPayload(cfg, a.flow, s, room);
        var e := Insert(cfg, a.flow, s, room).value;
        SettledConserves(c, u.flow, e.flow, e.taken, e.released);
      }
    case Shut(i) =>
      AbandonedValid(a.flow);
      SettledConserves(c, u.flow, Abandoned(a.flow), 0, a.flow.bytes);
      ShutCharges(c, u.flow);
  }

  lemma ConservedFlow(c: Client, i: nat)
    requires Conserved(c) && i < |c.flows|
    ensures Valid(c.flows[i].flow)
  {
  }

  lemma ShutCharges(c: Client, i: nat)
    requires Conserved(c) && i < |c.flows|
    ensures var r := Settled(c, i, Abandoned(c.flows[i].flow), 0, c.flows[i].flow.bytes);
            r.Some? && r.value.used + Charge(c.flows[i]) == c.used && r.value.flows[i].flow.bytes == 0
  {
    hide Charged, Valid;
    ChargedUpdate(c.flows, i, c.flows[i]);
  }

  lemma TakenIsPayload(cfg: Config, fl: Flow, s: Segment, room: bool)
    requires Insert(cfg, fl, s, room).Success?
    ensures var e := Insert(cfg, fl, s, room).value;
            e.taken == 0 || (room && e.taken == |s.payload| && e.released == 0)
  {
    hide Drain, Store, Conflicts;
  }

  lemma AbandonedValid(fl: Flow)
    requires Valid(fl)
    ensures Valid(Abandoned(fl))
  {
  }

  ghost predicate UsedThrough(c: Client, uses: seq<Use>, d: Option<Client>)
    decreases |uses|
  {
    if uses == [] then d == Some(c) else
      uses[0].flow < |c.flows| &&
      match Using(c, uses[0])
      case None => d == None
      case Some(next) => UsedThrough(next, uses[1..], d)
  }

  ghost predicate AllShare(flows: seq<Account>) {
    forall i :: 0 <= i < |flows| ==> Shares(flows[i])
  }

  lemma {:induction false} AllShareAll(flows: seq<Account>)
    requires AllShare(flows)
    ensures Charged(flows) == BytesHeld(flows)
  {
    if flows != [] {
      AllShareAll(flows[..|flows| - 1]);
    }
  }

  /**
   Conservation over every run, with no panic anywhere in it. If every flow has both
   bounds set, the budget lends exactly what all the flows buffer.
   */
  lemma {:induction false} MemoryConserved(c: Client, uses: seq<Use>, d: Option<Client>)
    requires Conserved(c) && UsedThrough(c, uses, d)
    ensures d.Some? && Conserved(d.value) && d.value.capacity == c.capacity
    ensures AllShare(c.flows) ==> d.value.used == BytesHeld(d.value.flows)
    decreases |uses|
  {
    hide Conserved, Using;
    if uses != [] {
      UsingConserves(c, uses[0]);
      MemoryConserved(Using(c, uses[0]).value, uses[1..], d);
    } else if AllShare(c.flows) {
      AllShareAll(c.flows);
      UsedIsCharged(c);
    }
  }

  lemma UsedIsCharged(c: Client)
    requires Conserved(c)
    ensures c.used == Charged(c.flows)
  {
  }

  lemma {:induction false} NothingHeld(flows: seq<Account>)
    requires forall i :: 0 <= i < |flows| ==> flows[i].flow == Empty()
    ensures BytesHeld(flows) == 0 && Charged(flows) == 0
  {
    if flows != [] {
      NothingHeld(flows[..|flows| - 1]);
    }
  }

  lemma {:induction false} BytesHeldUpdate(flows: seq<Account>, i: nat, a: Account)
    requires i < |flows|
    ensures BytesHeld(flows[i := a]) + flows[i].flow.bytes == BytesHeld(flows) + a.flow.bytes
  {
    var n := |flows| - 1;
    if i < n {
      BytesHeldUpdate(flows[..n], i, a);
      assert flows[i := a][..n] == flows[..n][i := a];
    } else {
      assert flows[i := a][..n] == flows[..n];
    }
  }

  /**
   The condition is exact: as soon as one fresh flow leaves a bound unset, one byte out
   of order on it is buffered and charged to nobody.
   */
  lemma UnboundedFlowIsUncharged(c: Client, i: nat)
    requires c.used == 0 && i < |c.flows| && !Shares(c.flows[i])
    requires forall j :: 0 <= j < |c.flows| ==> c.flows[j].flow == Empty()
    ensures Conserved(c)
    ensures var d := Using(c, Put(i, Segment(1, [0], false)));
            d.Some? && d.value.used == 0 && BytesHeld(d.value.flows) == 1
  {
    hide Charged, BytesHeld, WithStart, Total;
    NothingHeld(c.flows);
    var s := Segment(1, [0], false);
    EmptyValid();
    var stored := Store(Empty(), s);
    assert stored.bytes == 1;
    BytesHeldUpdate(c.flows, i, c.flows[i].(flow := stored));
  }

  lemma EmptyValid()
    ensures Valid(Empty())
  {
  }
}
