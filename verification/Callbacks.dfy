/**
 Who still waits for a sent frame's callback. Callers submit frames to a bounded
 queue; one send loop takes them, packs or fragments them, hands symbols to the
 carrier and runs callbacks, one at a time; the carrier may fail and the path may be
 closed between any two of these steps. A trace records handoffs, callbacks and the
 closing in the order they happen.
 */
module Callbacks {
  import opened Wrappers
  import opened Frames
  import SymbolIds

  const MAX_FRAME: nat := 0x10_0000

  // ---------- the bounded queue ----------

  /** The slot of the i'th queued frame. */
  function Place(head: nat, i: nat, n: nat): (p: nat)
    requires n > 0
    ensures p < n
  {
    (head + i) % n
  }

  /** The pending frames, in a ring of fixed size. */
  class PendingQueue {
    const pending: array<Option<nat>>
    var head: nat
    var length: nat
    /** What is queued, oldest first. */
    ghost var contents: seq<nat>

    ghost predicate Valid()
      reads this, pending
    {
      && pending.Length > 0 && head < pending.Length && |contents| == length <= pending.Length
      && forall i: nat :: i < length ==> pending[Place(head, i, pending.Length)] == Some(contents[i])
    }

    constructor (capacity: nat)
      requires capacity > 0
      ensures Valid() && contents == [] && pending.Length == capacity && fresh(pending)
    {
      pending := new Option<nat>[capacity](_ => None);
      head, length, contents := 0, 0, [];
    }

    method Push(f: nat)
      requires Valid() && length < pending.Length
      modifies this`length, this`contents, pending
      ensures Valid() && contents == old(contents) + [f]
    {
      hide Place;
      var tail := Place(head, length, pending.Length);
      forall i: nat | i < length
        ensures Place(head, i, pending.Length) != tail
      {
        PlacesDiffer(head, i, length, pending.Length);
      }
      pending[tail] := Some(f);
      length, contents := length + 1, contents + [f];
    }

    method Pop() returns (f: nat)
      requires Valid() && length > 0
      modifies this, pending
      ensures Valid() && old(contents) == [f] + contents
    {
      hide Place;
      SmallPlace(head, pending.Length);
      var next := Place(head, 1, pending.Length);
      f := pending[head].value;
      forall i: nat | i < length - 1
        ensures Place(head, i + 1, pending.Length) != head
        ensures Place(next, i, pending.Length) == Place(head, i + 1, pending.Length)
      {
        PlacesDiffer(head, 0, i + 1, pending.Length);
        NextPlace(head, i + 1, pending.Length);
      }
      pending[head] := None;
      head, length, contents := next, length - 1, contents[1..];
    }
  }

  lemma SmallPlace(head: nat, n: nat)
    requires head < n
    ensures Place(head, 0, n) == head
  {
  }

  lemma PlacesDiffer(head: nat, i: nat, j: nat, n: nat)
    requires i < j < i + n && n > 0
    ensures Place(head, i, n) != Place(head, j, n)
  {
    SymbolIds.RemaindersDiffer(head + i, head + j, n);
  }

  lemma NextPlace(head: nat, i: nat, n: nat)
    requires n > 0 && i > 0
    ensures Place(Place(head, 1, n), i - 1, n) == Place(head, i, n)
  {
    var q := (head + 1) / n;
    assert (head + 1) % n + (i - 1) == head + i + (-q) * n;
    SymbolIds.RemainderOfSum(head + i, -q, n);
  }

  // ---------- the path, step by step ----------

  /**
   What the carrier did with a symbol: took it, refused it as too large, failed on a repair
   after it, or failed on it.
   */
  datatype Sent = Took | Refused | RepairFailed | SourceFailed

  predicate Survived(s: Sent) {
    s.Took? || s.Refused?
  }

  /** What happened: a frame's last source symbol was handed to the carrier, a callback ran, the path was closed. */
  datatype Mark = Handed(frame: nat) | Ran(frame: nat) | Shut

  /** Where the send loop is. Frames are named by the order in which they were accepted. */
  datatype Loop =
    | Waiting
    | Holding(frame: nat)
    /** About to send the packed symbol; then on with the frame in hand, if there is one. */
    | Emitting(hand: Option<nat>, limit: nat)
    /** The packed symbol has been sent; the callbacks of its frames are still to run. */
    | Releasing(left: seq<nat>, ok: bool, hand: Option<nat>, limit: nat)
    /** About to send the next fragment. */
    | Cutting(frame: nat, limit: nat, next: nat)
    /** The frame has been dealt with; its callback is still to run. */
    | Finishing(frame: nat, ok: bool)
    | Looking
    | Draining
    | Protecting
    /** Leaving for good; the queue is still to be abandoned. */
    | Leaving
    | Abandoning(left: seq<nat>)
    | Unpacking(left: seq<nat>)
    | Stopped

  /** accepted holds the size of every frame accepted. */
  datatype Path = Path(
    capacity: nat, accepted: seq<nat>, queue: seq<nat>, closed: bool, loop: Loop, packed: seq<nat>, trace: seq<Mark>)

  datatype Event =
    | Submit(size: nat)
    | Close
    | Take
    /** limit is what a symbol holds at this moment. */
    | Append(limit: nat)
    | Emit(sent: Sent)
    | Call
    | Look
    | Drain
    | Protect(ok: bool)
    | Abandon

  function Open(capacity: nat): Path {
    Path(capacity, [], [], false, Waiting, [], [])
  }

  function Size(p: Path, f: nat): nat {
    if f < |p.accepted| then p.accepted[f] else 0
  }

  function Bytes(p: Path, frames: seq<nat>): nat {
    if frames == [] then 0 else Bytes(p, frames[..|frames| - 1]) + FRAME_HEADER + Size(p, frames[|frames| - 1])
  }

  function Shutting(p: Path): Path {
    if p.closed then p else p.(closed := true, trace := p.trace + [Shut])
  }

  function HandedAll(frames: seq<nat>): (m: seq<Mark>)
    ensures |m| == |frames| && forall i :: 0 <= i < |m| ==> m[i] == Handed(frames[i])
  {
    seq(|frames|, i requires 0 <= i < |frames| => Handed(frames[i]))
  }

  /** Starts on the fragments, unless there would be more than the header can count. */
  function StartCutting(p: Path, f: nat, limit: nat): Path
    requires limit > 0
  {
    p.(loop := if FragmentCount(Size(p, f), limit) > MAX_FRAGMENTS then Finishing(f, false) else Cutting(f, limit, 0))
  }

  function AppendFrame(p: Path, f: nat, limit: nat): Path
    requires limit > 0
  {
    if FRAME_HEADER + Size(p, f) > limit then
      if p.packed == [] then StartCutting(p, f, limit) else p.(loop := Emitting(Some(f), limit))
    else if p.packed != [] && Bytes(p, p.packed) + FRAME_HEADER + Size(p, f) > limit then
      p.(loop := Emitting(Some(f), limit))
    else
      p.(packed := p.packed + [f], loop := Looking)
  }

  /** The packed symbol goes to the carrier. A failure closes the path. */
  function EmitPacked(p: Path, hand: Option<nat>, limit: nat, sent: Sent): Path {
    var q := if sent.SourceFailed? then p else p.(trace := p.trace + HandedAll(p.packed));
    var r := if Survived(sent) then q else Shutting(q);
    r.(packed := [], loop := Releasing(p.packed, Survived(sent), hand, limit))
  }

  function EmitFragment(p: Path, f: nat, limit: nat, next: nat, sent: Sent): Path
    requires limit > 0
  {
    if !Survived(sent) then Shutting(p).(loop := Finishing(f, false))
    else if next + 1 < FragmentCount(Size(p, f), limit) then p.(loop := Cutting(f, limit, next + 1))
    else p.(trace := p.trace + [Handed(f)], loop := Finishing(f, true))
  }

  /** One callback runs, or if none is left the loop goes on. */
  function CallNext(p: Path): Path
    requires p.loop.Releasing? || p.loop.Finishing? || p.loop.Abandoning? || p.loop.Unpacking?
    requires p.loop.Releasing? ==> p.loop.limit > 0
  {
    match p.loop
    case Finishing(f, ok) => p.(trace := p.trace + [Ran(f)], loop := if ok then Looking else Leaving)
    case Releasing(left, ok, hand, limit) =>
      if left != [] then p.(trace := p.trace + [Ran(left[0])], loop := Releasing(left[1..], ok, hand, limit))
      else AfterFlush(p, ok, hand, limit)
    case Abandoning(left) =>
      if left != [] then p.(trace := p.trace + [Ran(left[0])], loop := Abandoning(left[1..]))
      else p.(packed := [], loop := Unpacking(p.packed))
    case Unpacking(left) =>
      if left != [] then p.(trace := p.trace + [Ran(left[0])], loop := Unpacking(left[1..]))
      else p.(loop := Stopped)
  }

  function AfterFlush(p: Path, ok: bool, hand: Option<nat>, limit: nat): Path
    requires limit > 0
  {
    match hand
    case None => p.(loop := if ok then Protecting else Leaving)
    case Some(f) =>
      if !ok then p.(loop := Finishing(f, false))
      else if FRAME_HEADER + Size(p, f) > limit then StartCutting(p, f, limit)
      else p.(packed := p.packed + [f], loop := Looking)
  }

  predicate Possible(p: Path, e: Event) {
    match e
    case Submit(size) => size > MAX_FRAME || p.closed || |p.queue| < p.capacity
    case Close => true
    case Take => p.loop == Waiting && (p.closed || p.queue != [])
    case Append(limit) => p.loop.Holding? && limit > FRAME_HEADER
    case Emit(_) => p.loop.Emitting? || (p.loop.Cutting? && p.loop.limit > 0)
    case Call => (p.loop.Releasing? && p.loop.limit > 0) || p.loop.Finishing? || p.loop.Abandoning? || p.loop.Unpacking?
    case Look => p.loop == Looking
    case Drain => p.loop == Draining
    case Protect(_) => p.loop == Protecting
    case Abandon => p.loop == Leaving
  }

  function Step(p: Path, e: Event): Path
    requires Possible(p, e)
  {
    match e
    case Submit(size) =>
      if size > MAX_FRAME || p.closed then p
      else p.(queue := p.queue + [|p.accepted|], accepted := p.accepted + [size])
    case Close => Shutting(p)
    case Take =>
      if p.closed then p.(loop := Leaving) else p.(loop := Holding(p.queue[0]), queue := p.queue[1..])
    case Append(limit) => AppendFrame(p, p.loop.frame, limit)
    case Emit(sent) =>
      if p.loop.Emitting? then EmitPacked(p, p.loop.hand, p.loop.limit, sent)
      else EmitFragment(p, p.loop.frame, p.loop.limit, p.loop.next, sent)
    case Call => CallNext(p)
    case Look =>
      if p.closed || p.queue == [] then p.(loop := Draining) else p.(loop := Holding(p.queue[0]), queue := p.queue[1..])
    case Drain => if p.packed == [] then p.(loop := Protecting) else p.(loop := Emitting(None, 1))
    case Protect(ok) => if ok then p.(loop := Waiting) else Shutting(p).(loop := Leaving)
    case Abandon => p.(loop := Abandoning(p.queue), queue := [])
  }

  // ---------- once each ----------

  /** How often the frame occurs. */
  function Times(frames: seq<nat>, f: nat): nat {
    multiset(frames)[f]
  }

  /** How often the frame's callback has run. */
  function Runs(trace: seq<Mark>, f: nat): nat {
    multiset(trace)[Ran(f)]
  }

  lemma TimesJoin(a: seq<nat>, b: seq<nat>)
    ensures forall f: nat :: Times(a + b, f) == Times(a, f) + Times(b, f)
  {
  }

  lemma TimesFirst(s: seq<nat>)
    requires s != []
    ensures forall f: nat :: Times(s, f) == Times(s[1..], f) + if f == s[0] then 1 else 0
  {
    assert s == [s[0]] + s[1..];
    TimesJoin([s[0]], s[1..]);
  }

  lemma TimesOne(x: nat)
    ensures forall f: nat :: Times([x], f) == if f == x then 1 else 0
    ensures forall f: nat :: Times([], f) == 0
  {
  }

  lemma RunsAfter(trace: seq<Mark>, m: Mark)
    ensures forall f: nat :: Runs(trace + [m], f) == Runs(trace, f) + if m == Ran(f) then 1 else 0
  {
  }

  lemma {:induction false} RunsAfterHandoffs(trace: seq<Mark>, frames: seq<nat>)
    ensures forall f: nat :: Runs(trace + HandedAll(frames), f) == Runs(trace, f)
  {
    forall f: nat
      ensures Runs(trace + HandedAll(frames), f) == Runs(trace, f)
    {
      assert Ran(f) !in HandedAll(frames);
      assert multiset(trace + HandedAll(frames)) == multiset(trace) + multiset(HandedAll(frames));
    }
  }

  function Opt(hand: Option<nat>): seq<nat> {
    if hand.Some? then [hand.value] else []
  }

  /** Frames the loop has in its hands. */
  function InHand(loop: Loop): seq<nat> {
    match loop
    case Holding(f) => [f]
    case Emitting(hand, _) => Opt(hand)
    case Releasing(left, _, hand, _) => left + Opt(hand)
    case Cutting(f, _, _) => [f]
    case Finishing(f, _) => [f]
    case Abandoning(left) => left
    case Unpacking(left) => left
    case _ => []
  }

  /** Every accepted frame's callback has run once or is owed by exactly one place. */
  ghost predicate Owed(p: Path) {
    forall f: nat :: Runs(p.trace, f) + Times(p.queue, f) + Times(InHand(p.loop), f) + Times(p.packed, f)
             == if f < |p.accepted| then 1 else 0
  }

  // ---------- never before handoff ----------

  /** Each callback ran after its own frame had been handed over, or after the path was closed. */
  ghost predicate InOrder(trace: seq<Mark>) {
    forall i :: 0 <= i < |trace| && trace[i].Ran? ==> Excused(trace[..i], trace[i].frame)
  }

  ghost predicate Excused(trace: seq<Mark>, f: nat) {
    Handed(f) in trace || Shut in trace
  }

  lemma InOrderAfter(trace: seq<Mark>, m: Mark)
    requires InOrder(trace) && (m.Ran? ==> Excused(trace, m.frame))
    ensures InOrder(trace + [m])
  {
    var all := trace + [m];
    forall i | 0 <= i < |all| && all[i].Ran?
      ensures Excused(all[..i], all[i].frame)
    {
      assert i < |trace| ==> all[..i] == trace[..i];
      assert i == |trace| ==> all[..i] == trace;
    }
  }

  lemma InOrderAfterHandoffs(trace: seq<Mark>, frames: seq<nat>)
    requires InOrder(trace)
    ensures InOrder(trace + HandedAll(frames))
  {
    var all := trace + HandedAll(frames);
    forall i | 0 <= i < |all| && all[i].Ran?
      ensures Excused(all[..i], all[i].frame)
    {
      assert i < |trace|;
      assert all[..i] == trace[..i];
    }
  }

  /** Everything whose callback comes next has been handed over, unless the path is closed. */
  ghost predicate Due(p: Path) {
    match p.loop
    case Releasing(left, ok, _, limit) => limit > 0 && (!ok ==> p.closed)
        && forall f :: f in left ==> Excused(p.trace, f)
    case Finishing(f, ok) => (!ok ==> p.closed) && Excused(p.trace, f)
    case Emitting(_, limit) => limit > 0
    case Cutting(_, limit, _) => limit > 0
    case _ => true
  }

  /** The loop has decided to leave. */
  predicate Over(loop: Loop) {
    loop.Leaving? || loop.Abandoning? || loop.Unpacking? || loop.Stopped?
  }

  ghost predicate Ordered(p: Path) {
    && InOrder(p.trace) && Due(p)
    && (p.closed <==> Shut in p.trace) && (Over(p.loop) ==> p.closed)
  }

  /** What the places hold when the loop passes certain points. */
  ghost predicate Tidy(p: Path) {
    && (p.loop.Waiting? || p.loop.Protecting? || p.loop.Releasing? || p.loop.Unpacking? || p.loop.Stopped? ==>
       p.packed == [])
    && (p.loop.Abandoning? || p.loop.Unpacking? || p.loop.Stopped? ==> p.queue == [])
    && (forall i :: 0 <= i < |p.accepted| ==> p.accepted[i] <= MAX_FRAME)
    && RoomyLoop(p.loop)
  }

  ghost predicate Sound(p: Path) {
    Owed(p) && Ordered(p) && Tidy(p)
  }

  // ---------- room for every frame ----------

  /** The symbols are large enough for any frame to fit the fragment count. */
  predicate Roomy(e: Event) {
    e.Append? ==> e.limit >= 17
  }

  /** So is the limit the loop has in hand. */
  predicate RoomyLoop(loop: Loop) {
    && (loop.Emitting? && loop.hand.Some? ==> loop.limit >= 17)
    && (loop.Releasing? && loop.hand.Some? ==> loop.limit >= 17)
  }

  /** At a limit, every frame can be carried exactly when the limit is at least seventeen bytes. */
  lemma RoomForEveryFrame(limit: nat)
    requires limit > FRAME_HEADER
    ensures limit >= 17 <==> forall size: nat :: size <= MAX_FRAME ==> FragmentCount(size, limit) <= MAX_FRAGMENTS
  {
    hide FragmentCount;
    if limit >= 17 {
      forall size: nat | size <= MAX_FRAME
        ensures FragmentCount(size, limit) <= MAX_FRAGMENTS
      {
        Fits(size, limit);
      }
    } else {
      TooMany(limit);
    }
  }

  lemma ProductBound(a: nat, b: nat, c: nat, d: nat)
    requires a <= b && c <= d
    ensures a * c <= b * d
  {
    Monotone(a, b, c);
    assert b * c <= b * d by { assert c * b <= d * b by { Monotone(c, d, b); } }
  }

  lemma Fits(size: nat, limit: nat)
    requires limit >= 17 && size <= MAX_FRAME
    ensures FragmentCount(size, limit) <= MAX_FRAGMENTS
  {
    hide FragmentCount;
    CountBounds(size, limit);
    NoFragments(limit);
    var c := FragmentCount(size, limit);
    if c > MAX_FRAGMENTS {
      ProductBound(MAX_FRAGMENTS, c - 1, 17, limit);
    }
  }

  lemma TooMany(limit: nat)
    requires FRAME_HEADER < limit <= 16
    ensures FragmentCount(MAX_FRAME, limit) > MAX_FRAGMENTS
  {
    hide FragmentCount;
    CountBounds(MAX_FRAME, limit);
    var c := FragmentCount(MAX_FRAME, limit);
    if c <= MAX_FRAGMENTS {
      ProductBound(c, MAX_FRAGMENTS, limit, 16);
    }
  }

  // ---------- every step keeps it ----------

  lemma ShuttingOwed(p: Path)
    ensures forall f: nat :: Runs(Shutting(p).trace, f) == Runs(p.trace, f)
  {
    RunsAfter(p.trace, Shut);
    hide Runs;
  }

  lemma OwedElsewhere(p: Path, q: Path)
    requires Owed(p) && |q.accepted| == |p.accepted| && (forall f: nat :: Runs(q.trace, f) == Runs(p.trace, f))
    requires forall f: nat :: Times(q.queue, f) + Times(InHand(q.loop), f) + Times(q.packed, f)
                      == Times(p.queue, f) + Times(InHand(p.loop), f) + Times(p.packed, f)
    ensures Owed(q)
  {
    hide Runs, Times, InHand;
  }

  lemma CutOwed(p: Path, f: nat, limit: nat)
    requires limit > 0 && (p.loop == Holding(f) || (p.loop.Releasing? && p.loop.left == [] && p.loop.hand == Some(f)))
    ensures InHand(StartCutting(p, f, limit).loop) == InHand(p.loop)
  {
    hide FragmentCount;
  }

  lemma AppendOwed(p: Path, f: nat, limit: nat)
    requires Owed(p) && p.loop == Holding(f) && limit > 0
    ensures Owed(AppendFrame(p, f, limit))
  {
    hide FragmentCount, Bytes, Times, Runs, Size;
    CutOwed(p, f, limit);
    TimesJoin(p.packed, [f]);
    TimesOne(f);
    OwedElsewhere(p, AppendFrame(p, f, limit));
  }

  lemma EmitOwed(p: Path, sent: Sent)
    requires Owed(p) && Possible(p, Emit(sent))
    ensures Owed(Step(p, Emit(sent)))
  {
    hide FragmentCount, Times, Runs, Size, Shutting;
    var q := Step(p, Emit(sent));
    TimesOne(0);
    RunsAfterHandoffs(p.trace, p.packed);
    ShuttingOwed(p);
    ShuttingOwed(p.(trace := p.trace + HandedAll(p.packed)));
    ShuttingKeeps(p);
    ShuttingKeeps(p.(trace := p.trace + HandedAll(p.packed)));
    if p.loop.Emitting? {
      TimesJoin(p.packed, Opt(p.loop.hand));
    } else {
      RunsAfter(p.trace, Handed(p.loop.frame));
    }
    OwedElsewhere(p, q);
  }

  lemma ShuttingKeeps(p: Path)
    ensures var q := Shutting(p);
            && q.accepted == p.accepted && q.queue == p.queue && q.loop == p.loop && q.packed == p.packed && q.closed
            && q.capacity == p.capacity && (q.trace == p.trace || q.trace == p.trace + [Shut])
            && (p.closed ==> q == p) && (!p.closed ==> q.trace == p.trace + [Shut])
  {
  }

  /** One callback of a list runs. */
  lemma RunFirstOwed(p: Path, q: Path, left: seq<nat>, more: seq<nat>)
    requires Owed(p) && left != [] && InHand(p.loop) == left + more && InHand(q.loop) == left[1..] + more
    requires q.trace == p.trace + [Ran(left[0])] && q.queue == p.queue && q.packed == p.packed
             && q.accepted == p.accepted
    ensures Owed(q)
  {
    hide Times, Runs, InHand;
    RunsAfter(p.trace, Ran(left[0]));
    TimesFirst(left);
    TimesJoin(left, more);
    TimesJoin(left[1..], more);
  }

  lemma CallOwed(p: Path)
    requires Owed(p) && Possible(p, Call)
    ensures Owed(Step(p, Call))
  {
    hide Times, Runs, Size, Owed, AfterFlush;
    var q := Step(p, Call);
    match p.loop
    case Finishing(f, ok) =>
      assert [f] + [] == [f] && [f][1..] + [] == [];
      RunFirstOwed(p, q, [f], []);
    case Releasing(left, ok, hand, limit) =>
      if left != [] {
        RunFirstOwed(p, q, left, Opt(hand));
      } else {
        AfterFlushOwed(p, ok, hand, limit);
      }
    case Abandoning(left) =>
      assert left + [] == left;
      if left != [] {
        assert left[1..] + [] == left[1..];
        RunFirstOwed(p, q, left, []);
      } else {
        TimesOne(0);
        OwedElsewhere(p, q);
      }
    case Unpacking(left) =>
      assert left + [] == left;
      if left != [] {
        assert left[1..] + [] == left[1..];
        RunFirstOwed(p, q, left, []);
      } else {
        OwedElsewhere(p, q);
      }
  }

  lemma AfterFlushOwed(p: Path, ok: bool, hand: Option<nat>, limit: nat)
    requires Owed(p) && limit > 0 && p.loop == Releasing([], ok, hand, limit)
    ensures Owed(AfterFlush(p, ok, hand, limit))
  {
    hide FragmentCount, Times, Runs, Size;
    assert [] + Opt(hand) == Opt(hand);
    if hand.Some? {
      CutOwed(p, hand.value, limit);
      TimesJoin(p.packed, [hand.value]);
      TimesOne(hand.value);
    }
    TimesOne(0);
    OwedElsewhere(p, AfterFlush(p, ok, hand, limit));
  }

  lemma StepOwed(p: Path, e: Event)
    requires Owed(p) && Possible(p, e)
    ensures Owed(Step(p, e))
  {
    hide Times, Runs, AppendFrame, CallNext, Shutting, EmitPacked, EmitFragment;
    TimesOne(|p.accepted|);
    ShuttingOwed(p);
    ShuttingKeeps(p);
    match e
    case Submit(size) =>
      TimesJoin(p.queue, [|p.accepted|]);
    case Append(limit) =>
      AppendOwed(p, p.loop.frame, limit);
    case Emit(sent) =>
      EmitOwed(p, sent);
    case Call =>
      CallOwed(p);
    case Take =>
      if !p.closed {
        TimesFirst(p.queue);
        TimesOne(p.queue[0]);
      }
    case Look =>
      if !p.closed && p.queue != [] {
        TimesFirst(p.queue);
        TimesOne(p.queue[0]);
      }
    case _ =>
  }

  lemma MarksGrow(a: seq<Mark>, b: seq<Mark>)
    ensures forall m :: m in a + b <==> m in a || m in b
  {
  }

  lemma ShuttingOrdered(p: Path)
    requires InOrder(p.trace) && (p.closed <==> Shut in p.trace)
    ensures var q := Shutting(p);
            && InOrder(q.trace) && q.closed && Shut in q.trace && (forall m :: m in p.trace ==> m in q.trace)
  {
    hide InOrder;
    InOrderAfter(p.trace, Shut);
    MarksGrow(p.trace, [Shut]);
  }

  lemma AppendOrdered(p: Path, f: nat, limit: nat)
    requires Ordered(p) && Tidy(p) && p.loop == Holding(f) && limit >= 17
    ensures Ordered(AppendFrame(p, f, limit)) && Tidy(AppendFrame(p, f, limit))
  {
    hide InOrder, FragmentCount, Bytes;
    Fits(Size(p, f), limit);
  }

  lemma EmitPackedOrdered(p: Path, hand: Option<nat>, limit: nat, sent: Sent)
    requires Ordered(p) && Tidy(p) && p.loop == Emitting(hand, limit)
    ensures Ordered(EmitPacked(p, hand, limit, sent)) && Tidy(EmitPacked(p, hand, limit, sent))
  {
    hide InOrder;
    var q := if sent.SourceFailed? then p else p.(trace := p.trace + HandedAll(p.packed));
    InOrderAfterHandoffs(p.trace, p.packed);
    MarksGrow(p.trace, HandedAll(p.packed));
    assert Shut !in HandedAll(p.packed);
    forall f | f in p.packed
      ensures sent.SourceFailed? || Handed(f) in q.trace
    {
      var i :| 0 <= i < |p.packed| && p.packed[i] == f;
      assert HandedAll(p.packed)[i] == Handed(f);
    }
    ShuttingOrdered(q);
    ShuttingKeeps(q);
  }

  lemma EmitFragmentOrdered(p: Path, f: nat, limit: nat, next: nat, sent: Sent)
    requires Ordered(p) && Tidy(p) && p.loop == Cutting(f, limit, next)
    ensures limit > 0
    ensures Ordered(EmitFragment(p, f, limit, next, sent)) && Tidy(EmitFragment(p, f, limit, next, sent))
  {
    hide InOrder, FragmentCount;
    InOrderAfter(p.trace, Handed(f));
    MarksGrow(p.trace, [Handed(f)]);
    ShuttingOrdered(p);
    ShuttingKeeps(p);
  }

  lemma CallOrdered(p: Path)
    requires Ordered(p) && Tidy(p) && Possible(p, Call)
    ensures Ordered(Step(p, Call)) && Tidy(Step(p, Call))
  {
    hide InOrder, FragmentCount;
    match p.loop
    case Finishing(f, ok) =>
      InOrderAfter(p.trace, Ran(f));
      MarksGrow(p.trace, [Ran(f)]);
    case Releasing(left, ok, hand, limit) =>
      if left != [] {
        InOrderAfter(p.trace, Ran(left[0]));
        MarksGrow(p.trace, [Ran(left[0])]);
        assert forall f :: f in left[1..] ==> f in left;
      } else if hand.Some? && limit >= 17 {
        Fits(Size(p, hand.value), limit);
      }
    case Abandoning(left) =>
      if left != [] {
        InOrderAfter(p.trace, Ran(left[0]));
        MarksGrow(p.trace, [Ran(left[0])]);
      }
    case Unpacking(left) =>
      if left != [] {
        InOrderAfter(p.trace, Ran(left[0]));
        MarksGrow(p.trace, [Ran(left[0])]);
      }
  }

  lemma StepOrdered(p: Path, e: Event)
    requires Ordered(p) && Tidy(p) && Possible(p, e) && Roomy(e)
    ensures Ordered(Step(p, e)) && Tidy(Step(p, e))
  {
    hide InOrder, AppendFrame, EmitPacked, EmitFragment, CallNext, Shutting, Excused;
    ShuttingOrdered(p);
    ShuttingKeeps(p);
    match e
    case Append(limit) =>
      AppendOrdered(p, p.loop.frame, limit);
    case Emit(sent) =>
      if p.loop.Emitting? {
        EmitPackedOrdered(p, p.loop.hand, p.loop.limit, sent);
      } else {
        EmitFragmentOrdered(p, p.loop.frame, p.loop.limit, p.loop.next, sent);
      }
    case Call =>
      CallOrdered(p);
    case Close =>
      CloseDue(p);
    case _ =>
  }

  lemma CloseDue(p: Path)
    requires Due(p) && InOrder(p.trace) && (p.closed <==> Shut in p.trace)
    ensures Due(Shutting(p))
  {
    hide InOrder;
    MarksGrow(p.trace, [Shut]);
  }

  lemma StepSound(p: Path, e: Event)
    requires Sound(p) && Possible(p, e) && Roomy(e)
    ensures Sound(Step(p, e))
  {
    hide Owed, Ordered, Tidy, Step, Possible;
    StepOwed(p, e);
    StepOrdered(p, e);
  }

  // ---------- every run ----------

  ghost predicate PossibleRun(p: Path, events: seq<Event>)
    decreases |events|
  {
    events == [] || (Possible(p, events[0]) && PossibleRun(Step(p, events[0]), events[1..]))
  }

  ghost function After(p: Path, events: seq<Event>): Path
    requires PossibleRun(p, events)
    decreases |events|
  {
    if events == [] then p else After(Step(p, events[0]), events[1..])
  }

  lemma {:induction false} RunSound(p: Path, events: seq<Event>)
    requires Sound(p) && PossibleRun(p, events) && forall e :: e in events ==> Roomy(e)
    ensures Sound(After(p, events))
    decreases |events|
  {
    hide Sound, Step, Possible, Roomy;
    if events != [] {
      StepSound(p, events[0]);
      RunSound(Step(p, events[0]), events[1..]);
    }
  }

  /**
   Callbacks run exactly once. In every interleaving of callers, the send loop,
   carrier failure and close, with symbols of at least seventeen bytes: no accepted
   frame's callback runs twice; each that runs comes after its own frame's last source
   symbol was handed to the carrier, unless the path was failed or closed before; once
   the loop has stopped every accepted frame's callback has run; and so it has whenever
   the loop waits with an empty queue.
   */
  lemma CallbacksRunOnce(capacity: nat, events: seq<Event>, f: nat)
    requires PossibleRun(Open(capacity), events) && forall e :: e in events ==> Roomy(e)
    ensures var p := After(Open(capacity), events);
            && Runs(p.trace, f) <= (if f < |p.accepted| then 1 else 0)
            && (forall i :: 0 <= i < |p.trace| && p.trace[i] == Ran(f) ==>
                  Handed(f) in p.trace[..i] || Shut in p.trace[..i])
            && (p.loop.Stopped? ==> p.closed && (f < |p.accepted| ==> Runs(p.trace, f) == 1))
            && (p.loop.Waiting? && p.queue == [] && f < |p.accepted| ==> Runs(p.trace, f) == 1)
  {
    hide After, PossibleRun, Roomy, Sound, Runs;
    OpenSound(capacity);
    RunSound(Open(capacity), events);
    SoundMeans(After(Open(capacity), events), f);
  }

  lemma SoundMeans(p: Path, f: nat)
    requires Sound(p)
    ensures Runs(p.trace, f) <= (if f < |p.accepted| then 1 else 0)
    ensures forall i :: 0 <= i < |p.trace| && p.trace[i] == Ran(f) ==> Handed(f) in p.trace[..i] || Shut in p.trace[..i]
    ensures p.loop.Stopped? ==> p.closed && (f < |p.accepted| ==> Runs(p.trace, f) == 1)
    ensures p.loop.Waiting? && p.queue == [] && f < |p.accepted| ==> Runs(p.trace, f) == 1
  {
    hide Runs, Times, Due;
    TimesOne(0);
    assert Runs(p.trace, f) + Times(p.queue, f) + Times(InHand(p.loop), f) + Times(p.packed, f)
        == if f < |p.accepted| then 1 else 0;
    forall i | 0 <= i < |p.trace| && p.trace[i] == Ran(f)
      ensures Handed(f) in p.trace[..i] || Shut in p.trace[..i]
    {
      assert Excused(p.trace[..i], p.trace[i].frame);
    }
  }

  lemma OpenSound(capacity: nat)
    ensures Sound(Open(capacity))
  {
  }

  // ---------- every callback does run ----------

  /** More steps than the loop needs for one queued frame, over taking it up. */
  const WORK: nat := MAX_FRAGMENTS + 16

  /** How many fragments are still to be cut, if cutting starts at all. */
  function Cuts(p: Path, f: nat, limit: nat): (n: nat)
    ensures n <= MAX_FRAGMENTS
  {
    if limit == 0 || FragmentCount(Size(p, f), limit) > MAX_FRAGMENTS then 0 else FragmentCount(Size(p, f), limit)
  }

  function LoopRank(p: Path): nat {
    match p.loop
    case Stopped => 0
    case Unpacking(left) => 1 + |left|
    case Abandoning(left) => 2 + |left|
    case Leaving => 3
    case Waiting => 4
    case Protecting => 5
    case Draining => 8
    case Looking => 9
    case Finishing(_, _) => 10
    case Cutting(f, limit, next) =>
      if limit > 0 && next < FragmentCount(Size(p, f), limit) then 11 + FragmentCount(Size(p, f), limit) - next else 11
    case Releasing(left, _, hand, limit) => |left| + if hand.None? then 6 else 12 + Cuts(p, hand.value, limit)
    case Emitting(hand, limit) => if hand.None? then 7 else 13 + Cuts(p, hand.value, limit)
    case Holding(_) => 14 + MAX_FRAGMENTS
  }

  /** How many steps the loop can still make on what it has been given. */
  function Rank(p: Path): nat {
    WORK * |p.queue| + |p.packed| + LoopRank(p)
  }

  /** A step of the send loop, not of its callers. */
  predicate OfLoop(e: Event) {
    !e.Submit? && !e.Close?
  }

  /** The loop has nothing to do, or is gone. */
  predicate Quiet(p: Path) {
    p.loop.Stopped? || (p.loop.Waiting? && p.queue == [] && !p.closed)
  }

  lemma CutsSame(p: Path, q: Path, f: nat, limit: nat)
    requires p.accepted == q.accepted
    ensures Cuts(p, f, limit) == Cuts(q, f, limit) && Size(p, f) == Size(q, f)
  {
    hide FragmentCount;
  }

  lemma CutRank(p: Path, f: nat, limit: nat)
    requires limit > 0
    ensures LoopRank(StartCutting(p, f, limit)) <= 11 + Cuts(p, f, limit)
  {
    hide FragmentCount;
    CutsSame(p, StartCutting(p, f, limit), f, limit);
  }

  lemma AppendShrinks(p: Path, f: nat, limit: nat)
    requires p.loop == Holding(f) && limit > 0
    ensures Rank(AppendFrame(p, f, limit)) < Rank(p)
  {
    hide FragmentCount, Bytes, Size;
    CutRank(p, f, limit);
    CutsSame(p, AppendFrame(p, f, limit), f, limit);
  }

  lemma EmitShrinks(p: Path, sent: Sent)
    requires Possible(p, Emit(sent))
    ensures Rank(Step(p, Emit(sent))) < Rank(p)
  {
    hide FragmentCount, Shutting, Size;
    var q := Step(p, Emit(sent));
    ShuttingKeeps(p);
    ShuttingKeeps(p.(trace := p.trace + HandedAll(p.packed)));
    if p.loop.Emitting? {
      if p.loop.hand.Some? {
        CutsSame(p, q, p.loop.hand.value, p.loop.limit);
      }
    } else {
      CutsSame(p, q, p.loop.frame, p.loop.limit);
    }
  }

  lemma FlushShrinks(p: Path, ok: bool, hand: Option<nat>, limit: nat)
    requires limit > 0 && p.loop == Releasing([], ok, hand, limit)
    ensures Rank(AfterFlush(p, ok, hand, limit)) < Rank(p)
  {
    hide FragmentCount, Size, Cuts;
    if hand.Some? {
      CutRank(p, hand.value, limit);
    }
  }

  lemma CallShrinks(p: Path)
    requires Possible(p, Call)
    ensures Rank(Step(p, Call)) < Rank(p)
  {
    hide FragmentCount, Size, AfterFlush, Cuts;
    if p.loop.Releasing? {
      if p.loop.left == [] {
        FlushShrinks(p, p.loop.ok, p.loop.hand, p.loop.limit);
      } else if p.loop.hand.Some? {
        CutsSame(p, Step(p, Call), p.loop.hand.value, p.loop.limit);
      }
    }
  }

  /** Accepting a frame changes no size of a frame the loop holds. */
  lemma SubmitRank(p: Path, size: nat)
    requires Owed(p)
    ensures LoopRank(p.(queue := p.queue + [|p.accepted|], accepted := p.accepted + [size])) == LoopRank(p)
  {
    hide FragmentCount, Runs, Times;
    var q := p.(queue := p.queue + [|p.accepted|], accepted := p.accepted + [size]);
    forall f: nat | Times(InHand(p.loop), f) > 0
      ensures Size(q, f) == Size(p, f)
    {
      assert f < |p.accepted|;
    }
    HeldInHand(p.loop);
  }

  lemma HeldInHand(loop: Loop)
    ensures loop.Cutting? ==> Times(InHand(loop), loop.frame) > 0
    ensures (loop.Releasing? || loop.Emitting?) && loop.hand.Some? ==> Times(InHand(loop), loop.hand.value) > 0
  {
    if loop.Releasing? && loop.hand.Some? {
      assert InHand(loop)[|loop.left|] == loop.hand.value;
    }
  }

  /** Each step of the loop brings it nearer to its end; closing leaves it where it is, and so does a refused frame. */
  lemma StepShrinks(p: Path, e: Event)
    requires Owed(p) && Possible(p, e)
    ensures OfLoop(e) ==> Rank(Step(p, e)) < Rank(p)
    ensures !OfLoop(e) ==> Rank(Step(p, e)) <= Rank(p) + if e.Submit? then WORK else 0
  {
    hide FragmentCount, AppendFrame, CallNext, EmitPacked, EmitFragment, Shutting, Owed;
    ShuttingKeeps(p);
    match e
    case Append(limit) =>
      AppendShrinks(p, p.loop.frame, limit);
    case Emit(sent) =>
      EmitShrinks(p, sent);
    case Call =>
      CallShrinks(p);
    case Submit(_) =>
      SubmitRank(p, e.size);
    case _ =>
  }

  /** Until it is quiet, the loop can take a step. */
  lemma CanStep(p: Path) returns (e: Event)
    requires Sound(p) && !Quiet(p)
    ensures OfLoop(e) && Possible(p, e) && Roomy(e)
  {
    hide Owed, InOrder, Tidy;
    match p.loop
    case Waiting => e := Take;
    case Holding(_) => e := Append(17);
    case Emitting(_, _) => e := Emit(Took);
    case Cutting(_, _, _) => e := Emit(Took);
    case Looking => e := Look;
    case Draining => e := Drain;
    case Protecting => e := Protect(true);
    case Leaving => e := Abandon;
    case _ => e := Call;
  }

  function LoopSteps(events: seq<Event>): nat {
    if events == [] then 0 else (if OfLoop(events[0]) then 1 else 0) + LoopSteps(events[1..])
  }

  function Submits(events: seq<Event>): nat {
    if events == [] then 0 else (if events[0].Submit? then 1 else 0) + Submits(events[1..])
  }

  /** In any run the loop makes only so many steps for what it has been given. */
  lemma {:induction false} StepsBounded(p: Path, events: seq<Event>)
    requires Sound(p) && PossibleRun(p, events) && forall e :: e in events ==> Roomy(e)
    ensures LoopSteps(events) + Rank(After(p, events)) <= Rank(p) + WORK * Submits(events)
    decreases |events|
  {
    hide Sound, Step, Possible, Roomy, Rank;
    if events != [] {
      assert Owed(p) by { SoundOwed(p); }
      StepShrinks(p, events[0]);
      StepSound(p, events[0]);
      StepsBounded(Step(p, events[0]), events[1..]);
    }
  }

  lemma SoundOwed(p: Path)
    requires Sound(p)
    ensures Owed(p)
  {
  }

  /** Left to itself the loop comes to rest. */
  lemma {:induction false} ComesToRest(p: Path) returns (later: seq<Event>)
    requires Sound(p)
    ensures PossibleRun(p, later) && Quiet(After(p, later)) && |later| <= Rank(p)
    ensures forall e :: e in later ==> OfLoop(e) && Roomy(e)
    decreases Rank(p)
  {
    hide Sound, Step, Possible, Roomy, Rank, OfLoop;
    if Quiet(p) {
      later := [];
    } else {
      var e := CanStep(p);
      SoundOwed(p);
      StepShrinks(p, e);
      StepSound(p, e);
      var rest := ComesToRest(Step(p, e));
      later := [e] + rest;
      assert later[1..] == rest;
    }
  }

  /**
   Every accepted frame's callback does run. Whatever has happened, and whatever happens
   then: the loop makes a bounded number of steps for the frames it is given; while it
   can make none it has stopped or waits for frames; and then no callback is owed. After
   a close it can only have stopped.
   */
  lemma EveryCallbackRuns(capacity: nat, events: seq<Event>, later: seq<Event>, f: nat)
    requires PossibleRun(Open(capacity), events) && (forall e :: e in events ==> Roomy(e))
    requires PossibleRun(After(Open(capacity), events), later) && (forall e :: e in later ==> Roomy(e))
    ensures var p := After(Open(capacity), events);
            var q := After(p, later);
            && LoopSteps(later) + Rank(q) <= Rank(p) + WORK * Submits(later)
            && ((forall e :: OfLoop(e) && Roomy(e) ==> !Possible(q, e)) ==>
                  && (f < |q.accepted| ==> Runs(q.trace, f) == 1)
                  && (q.closed ==> q.loop.Stopped?))
  {
    hide After, PossibleRun, Roomy, Sound, Runs, Possible, Rank, OfLoop;
    OpenSound(capacity);
    RunSound(Open(capacity), events);
    var p := After(Open(capacity), events);
    RunSound(p, later);
    StepsBounded(p, later);
    var q := After(p, later);
    SoundMeans(q, f);
    if !Quiet(q) {
      var e := CanStep(q);
    }
  }

  /** No frame is accepted once the path is closed, and it never opens again. */
  lemma {:induction false} NothingAcceptedAfterClose(p: Path, events: seq<Event>)
    requires p.closed && PossibleRun(p, events)
    ensures After(p, events).accepted == p.accepted && After(p, events).closed
    decreases |events|
  {
    hide Step;
    if events != [] {
      ClosedStep(p, events[0]);
      NothingAcceptedAfterClose(Step(p, events[0]), events[1..]);
    }
  }

  lemma ClosedStep(p: Path, e: Event)
    requires p.closed && Possible(p, e)
    ensures Step(p, e).accepted == p.accepted && Step(p, e).closed
  {
    hide FragmentCount, Bytes;
  }

  /** Once the loop has stopped no callback ever runs again. */
  lemma {:induction false} StoppedForGood(p: Path, events: seq<Event>, f: nat)
    requires p.loop.Stopped? && PossibleRun(p, events)
    ensures Runs(After(p, events).trace, f) == Runs(p.trace, f) && After(p, events).loop.Stopped?
    decreases |events|
  {
    hide AppendFrame, CallNext, EmitPacked, EmitFragment, Runs, Shutting;
    if events != [] {
      ShuttingOwed(p);
      ShuttingKeeps(p);
      StoppedForGood(Step(p, events[0]), events[1..], f);
    }
  }

  /**
   With smaller symbols it fails: a frame of the largest size stops the loop without
   closing the path, the next frame is accepted all the same, and whatever happens
   afterwards its callback never runs.
   */
  lemma SmallSymbolsStrandACallback(limit: nat, later: seq<Event>) returns (events: seq<Event>)
    requires FRAME_HEADER < limit <= 16
    ensures PossibleRun(Open(2), events)
    ensures var p := After(Open(2), events);
            && !p.closed && |p.accepted| == 2 && p.queue == [1] && Runs(p.trace, 1) == 0
            && (PossibleRun(p, later) ==> Runs(After(p, later).trace, 1) == 0)
  {
    hide FragmentCount;
    TooMany(limit);
    var p0 := Open(2);
    var p1 := Step(p0, Submit(MAX_FRAME));
    var p2 := Step(p1, Take);
    assert p2 == p0.(accepted := [MAX_FRAME], loop := Holding(0));
    var p3 := Step(p2, Append(limit));
    assert p3 == p2.(loop := Finishing(0, false));
    var p4 := Step(p3, Call);
    assert p4 == p2.(loop := Leaving, trace := [Ran(0)]);
    var p5 := Step(p4, Abandon);
    var p6 := Step(p5, Call);
    var p7 := Step(p6, Call);
    assert p7 == p2.(loop := Stopped, trace := [Ran(0)]);
    var p8 := Step(p7, Submit(0));
    events := Behind8(p0, p1, p2, p3, p4, p5, p6, p7, p8, limit);
    assert Runs([Ran(0)], 1) == 0;
    if PossibleRun(p8, later) {
      StoppedForGood(p8, later, 1);
    }
  }

  /** The eight steps as a run. */
  lemma Behind8(p0: Path, p1: Path, p2: Path, p3: Path, p4: Path, p5: Path, p6: Path, p7: Path, p8: Path, limit: nat)
    returns (events: seq<Event>)
    requires Possible(p0, Submit(MAX_FRAME)) && p1 == Step(p0, Submit(MAX_FRAME))
    requires Possible(p1, Take) && p2 == Step(p1, Take)
    requires Possible(p2, Append(limit)) && p3 == Step(p2, Append(limit))
    requires Possible(p3, Call) && p4 == Step(p3, Call)
    requires Possible(p4, Abandon) && p5 == Step(p4, Abandon)
    requires Possible(p5, Call) && p6 == Step(p5, Call)
    requires Possible(p6, Call) && p7 == Step(p6, Call)
    requires Possible(p7, Submit(0)) && p8 == Step(p7, Submit(0))
    ensures PossibleRun(p0, events) && After(p0, events) == p8
  {
    hide Step, Possible;
    events := Backwards(p7, Submit(0), []);
    events := Backwards(p6, Call, events);
    events := Backwards(p5, Call, events);
    events := Backwards(p4, Abandon, events);
    events := Backwards(p3, Call, events);
    events := Backwards(p2, Append(limit), events);
    events := Backwards(p1, Take, events);
    events := Backwards(p0, Submit(MAX_FRAME), events);
  }

  /** A possible run with one more step before it. */
  lemma Backwards(p: Path, e: Event, rest: seq<Event>) returns (all: seq<Event>)
    requires Possible(p, e) && PossibleRun(Step(p, e), rest)
    ensures PossibleRun(p, all) && After(p, all) == After(Step(p, e), rest)
  {
    hide Step, Possible;
    all := [e] + rest;
    assert all[1..] == rest;
  }
}
