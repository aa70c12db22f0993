/**
 The receiver as it runs: a map, a sorted list of starts searched by halving, and
 a cursor, all updated in place, with the shared memory charged and released on
 the way. Insert is proved to be Reassembly.Insert.
 */
module FlowReceiver {
  import opened Wrappers
  import opened Reassembly
  import StripedFlow
  import A = AckTracker
  import M = MemoryBudget

  // ---------- the order list, by position ----------

  /** Everything before position at is below k, and nothing after is. */
  ghost predicate Splits(order: seq<nat>, k: nat, at: nat) {
    && at <= |order|
    && (forall i :: 0 <= i < at ==> order[i] < k)
    && (forall i :: at <= i < |order| ==> k <= order[i])
  }

  lemma {:induction false} WithStartAt(order: seq<nat>, k: nat, at: nat)
    requires Splits(order, k, at)
    ensures WithStart(order, k) == order[..at] + [k] + order[at..]
  {
    if at < |order| {
      var n := |order| - 1;
      WithStartAt(order[..n], k, at);
      assert order[..n][..at] == order[..at] && order[..n][at..] + [order[n]] == order[at..];
    }
  }

  lemma {:induction false} WithoutStartAbsent(order: seq<nat>, k: nat)
    requires k !in order
    ensures WithoutStart(order, k) == order
  {
    if order != [] {
      var n := |order| - 1;
      WithoutStartAbsent(order[..n], k);
      assert order == order[..n] + [order[n]];
    }
  }

  lemma {:induction false} WithoutStartAt(order: seq<nat>, at: nat)
    requires Sorted(order) && at < |order|
    ensures WithoutStart(order, order[at]) == order[..at] + order[at + 1..]
  {
    var n := |order| - 1;
    if at < n {
      assert order[at] < order[n];
      WithoutStartAt(order[..n], at);
      assert order[..n][at] == order[at] && order[..n][..at] == order[..at];
      assert order[..n][at + 1..] + [order[n]] == order[at + 1..];
    } else {
      assert order[at + 1..] == [] && order[..at] + [] == order[..n];
    }
  }

  /** Only the neighbours of the place where a segment would go can share bytes with it. */
  lemma NeighboursDecide(fl: Flow, s: Segment, at: nat)
    requires Valid(fl) && Splits(fl.order, s.sequence, at)
    ensures Conflicts(fl, s) <==>
            || (at > 0 && s.sequence < fl.buffer[fl.order[at - 1]].End())
            || (at < |fl.order| && fl.order[at] < s.End())
  {
    hide Total, WellFormed;
    assert at > 0 ==> fl.order[at - 1] in fl.buffer;
    assert at < |fl.order| ==> fl.order[at] in fl.buffer;
    if k :| k in fl.buffer && (k < s.sequence < fl.buffer[k].End() || s.sequence <= k < s.End()) {
      NeighbourOf(fl, s, at, k);
    }
  }

  /** A clash with any buffered segment is a clash with a neighbour. */
  lemma NeighbourOf(fl: Flow, s: Segment, at: nat, k: nat)
    requires Valid(fl) && Splits(fl.order, s.sequence, at) && k in fl.buffer
    ensures k < s.sequence ==> at > 0 && (k == fl.order[at - 1] || fl.buffer[k].End() <= fl.order[at - 1])
    ensures s.sequence <= k ==> at < |fl.order| && fl.order[at] <= k
  {
    hide Total, WellFormed;
    var i :| 0 <= i < |fl.order| && fl.order[i] == k;
    assert at > 0 ==> fl.order[at - 1] in fl.buffer;
  }

  lemma RangesStep(fl: Flow, i: nat)
    requires (forall k :: k in fl.order ==> k in fl.buffer) && i < |fl.order|
    ensures StripedFlow.RangesOf(fl.buffer, fl.order[..i + 1])
         == var before, last := StripedFlow.RangesOf(fl.buffer, fl.order[..i]), fl.buffer[fl.order[i]];
            if last.final then before else StripedFlow.JoinRange(before, A.Range(fl.order[i], last.End()))
  {
    assert fl.order[..i + 1][..i] == fl.order[..i];
  }

  datatype Delivery = Delivery(output: Bytes, closed: bool)

  /** The answer, the flow after it and the change in lent memory are what inserting the segment does. */
  ghost predicate Answers(
    cfg: Config, fl: Flow, s: Segment, room: bool, r: Result<Delivery, Error>, after: Flow, lent: Option<int>)
  {
    match Reassembly.Insert(cfg, fl, s, room)
    case Success(e) =>
      && r == Success(Delivery(e.output, e.closed)) && after == e.flow
      && (lent.Some? ==> lent.value == e.taken - e.released)
    case Failure(error) =>
      r == Failure(error) && after == fl && (lent.Some? ==> lent.value == 0)
  }

  class Reassembler {
    const cfg: Config
    const memory: M.Budget?
    var next: nat
    var buffer: map<nat, Segment>
    var order: seq<nat>
    var bytes: nat
    var finalAt: Option<nat>

    ghost function Model(): Flow
      reads this
    {
      Flow(next, buffer, order, bytes, finalAt)
    }

    /** The flow is well formed and its charge is part of what the shared budget has lent. */
    ghost predicate Intact()
      reads this, memory
    {
      Valid(Model()) && (memory != null ==> memory.Valid() && bytes <= memory.used)
    }

    /** An unset bound selects the whole default configuration, which has no shared memory. */
    constructor (cfg: Config, memory: M.Budget?)
      requires memory != null ==> memory.Valid()
      ensures Model() == Empty() && Intact()
      ensures this.cfg == Effective(cfg) && this.memory == if Bounded(cfg) then memory else null
    {
      this.cfg := Effective(cfg);
      this.memory := if Bounded(cfg) then memory else null;
      next, buffer, order, bytes, finalAt := 0, map[], [], 0, None;
    }

    /** The first position whose start is not below k. */
    method Search(k: nat) returns (at: nat)
      requires Sorted(order)
      ensures Splits(order, k, at)
    {
      var low: nat, high: nat := 0, |order|;
      while low < high
        invariant low <= high <= |order|
        invariant forall i :: 0 <= i < low ==> order[i] < k
        invariant forall i :: high <= i < |order| ==> k <= order[i]
      {
        var middle: nat := (low + high) / 2;
        if order[middle] >= k {
          high := middle;
        } else {
          low := middle + 1;
        }
      }
      at := low;
    }

    /** Whether the segment clashes with a buffered one, looking only at its two neighbours. */
    method CheckNeighbours(s: Segment) returns (clash: bool)
      requires Valid(Model())
      ensures clash <==> Conflicts(Model(), s) || (s.final && s.sequence in buffer)
    {
      hide Conflicts;
      var at := Search(s.sequence);
      NeighboursDecide(Model(), s, at);
      assert s.sequence in order ==> at < |order| && order[at] == s.sequence;
      assert at < |order| ==> order[at] in buffer;
      if at > 0 && s.sequence < buffer[order[at - 1]].End() {
        return true;
      }
      if at < |order| {
        var following := buffer[order[at]];
        if following.sequence < s.End() {
          return true;
        }
        if s.final && following.sequence == s.sequence {
          return true;
        }
      }
      return false;
    }

    method InsertOrder(k: nat)
      requires Sorted(order)
      modifies this`order
      ensures order == WithStart(old(order), k)
    {
      var at := Search(k);
      WithStartAt(order, k, at);
      order := order[..at] + [k] + order[at..];
    }

    method RemoveOrder(k: nat)
      requires Sorted(order)
      modifies this`order
      ensures order == WithoutStart(old(order), k)
    {
      var at := Search(k);
      if at < |order| && order[at] == k {
        WithoutStartAt(order, at);
        order := order[..at] + order[at + 1..];
      } else {
        WithoutStartAbsent(order, k);
      }
    }

    /** Returns n bytes of this flow's charge; never the panic. */
    method GiveBack(n: nat)
      requires memory != null ==> memory.Valid() && n <= memory.used
      modifies memory
      ensures memory != null ==> memory.Valid() && memory.used == old(memory.used) - n
    {
      if memory != null {
        var ok := memory.Release(n);
        assert ok;
      }
    }

    /** Takes the segment at the cursor out of the buffer. */
    method TakeNext() returns (s: Segment)
      requires ValidButCursor(Model()) && next in buffer
      modifies this`buffer, this`order, this`bytes
      ensures s == old(buffer)[next] && Model() == Unstore(old(Model()))
    {
      hide ValidButCursor, Sorted, WithoutStart;
      UnstoreValid(Model());
      OrderOf(Model());
      s := buffer[next];
      buffer := buffer - {next};
      RemoveOrder(next);
      bytes := bytes - |s.payload|;
    }

    /** Releases the segment's memory if it was charged, and moves the cursor past it. */
    method MoveOver(current: Segment, charged: bool)
      requires memory != null ==> memory.Valid() && (charged ==> |current.payload| <= memory.used)
      modifies this`next, memory
      ensures next == old(next) + |current.payload|
      ensures memory != null ==>
                memory.Valid() && memory.used == old(memory.used) - if charged then |current.payload| else 0
    {
      if charged {
        GiveBack(|current.payload|);
      }
      next := next + |current.payload|;
    }

    /** Delivers the segment at the cursor and the buffered ones it makes contiguous, releasing their memory. */
    method ConsumeContiguous(first: Segment) returns (output: Bytes, closed: bool)
      requires Intact() && WellFormed(first) && first.sequence == next
      modifies this`next, this`buffer, this`order, this`bytes, this`finalAt, memory
      ensures var d := Drain(old(Model()), first);
              && Model() == d.flow && output == d.output && closed == Closed(Model())
              && (memory != null ==> memory.Valid() && memory.used == old(memory.used) - d.released)
    {
      hide Valid, ValidButCursor, Unstore, WellFormed, Drain;
      ghost var goal := Drain(Model(), first);
      assert ValidButCursor(Model()) && next !in buffer && next <= LIMIT by { ValidParts(Model()); }
      var current, charged := first, false;
      output := [];
      // Bytes charged for the segment in hand, still to be given back.
      ghost var owed: nat := 0;
      ghost var given: nat := 0;
      while !current.final
        invariant ValidButCursor(Model()) && next !in buffer && next <= LIMIT
        invariant WellFormed(current) && current.sequence == next
        invariant var d := Drain(Model(), current);
                  goal.flow == d.flow && goal.output == output + d.output && goal.released == given + owed + d.released
        invariant owed == if charged then |current.payload| else 0
        invariant memory != null ==>
                    memory.Valid() && memory.used == old(memory.used) - given && owed + bytes <= memory.used
        decreases |buffer|, !current.final
      {
        ghost var before := Model();
        DrainStep(before, current);
        MoveOver(current, charged);
        given, owed := given + owed, 0;
        output := output + current.payload;
        StripedFlow.EndInRange(current);
        MovedValid(before, next);
        if next !in buffer {
          closed := finalAt.Some? && next >= finalAt.value;
          return;
        }
        ghost var moved := Model();
        UnstoreValid(moved);
        BufferedWellFormed(moved, next);
        UnstoreCursor(moved);
        current := TakeNext();
        owed, charged := |current.payload|, true;
      }
      label L:
      finalAt := Some(current.sequence);
      FinEmpty(current);
      DrainFin(old@L(Model()), current);
      closed := true;
    }

    /** Adds a segment: what it delivers, or why it was refused. */
    method Insert(s: Segment) returns (r: Result<Delivery, Error>)
      requires Intact()
      modifies this`next, this`buffer, this`order, this`bytes, this`finalAt, memory
      ensures Intact()
      ensures var lent := old(if memory == null then 0 else memory.used);
              Answers(cfg, old(Model()), s, memory == null || |s.payload| <= memory.capacity - lent, r, Model(),
                      if memory == null then None else Some(memory.used - lent))
    {
      hide Valid, Drain, Conflicts, Store;
      if s.final && s.payload != [] {
        return Failure(FinWithPayload);
      }
      if !s.final && s.payload == [] {
        return Failure(EmptyData);
      }
      if s.sequence > LIMIT - |s.payload| {
        return Failure(BadSequence);
      }
      if s.End() < next || (s.final && s.sequence < next) {
        return Success(Delivery([], finalAt.Some? && next >= finalAt.value));
      }
      if s.sequence in buffer {
        if buffer[s.sequence].final == s.final && buffer[s.sequence].payload == s.payload {
          StartIsKey(Model(), s.sequence);
          return Success(Delivery([], finalAt.Some? && next >= finalAt.value));
        }
        return Failure(Conflict);
      }
      var clash := CheckNeighbours(s);
      if clash {
        return Failure(Overlap);
      }
      r := Place(s);
    }

    /** Delivers or buffers a segment that clashes with nothing. */
    method Place(s: Segment) returns (r: Result<Delivery, Error>)
      requires Intact() && WellFormed(s) && s.End() >= next && s.sequence !in buffer && !Conflicts(Model(), s)
      modifies this`next, this`buffer, this`order, this`bytes, this`finalAt, memory
      ensures Intact()
      ensures var lent := old(if memory == null then 0 else memory.used);
              Answers(cfg, old(Model()), s, memory == null || |s.payload| <= memory.capacity - lent, r, Model(),
                      if memory == null then None else Some(memory.used - lent))
    {
      hide Valid, Drain, Conflicts, Sorted, Store;
      ghost var before := Model();
      ghost var room := memory == null || |s.payload| <= memory.capacity - memory.used;
      if Reassembly.Insert(cfg, before, s, room).Success? {
        InsertValid(cfg, before, s, room);
      }
      if s.sequence != next {
        if |buffer| + 1 > cfg.maxFrames || bytes + |s.payload| > cfg.maxBytes {
          return Failure(WindowExceeded);
        }
        OrderSorted(before);
        var ok := Keep(s);
        if !ok {
          return Failure(OutOfMemory);
        }
        return Success(Delivery([], finalAt.Some? && next >= finalAt.value));
      }
      var output, closed := ConsumeContiguous(s);
      return Success(Delivery(output, closed));
    }

    /** Charges an out-of-order segment and buffers it, or refuses it for want of memory. */
    method Keep(s: Segment) returns (ok: bool)
      requires Sorted(order) && (memory != null ==> memory.Valid())
      modifies this`buffer, this`order, this`bytes, this`finalAt, memory
      ensures memory != null ==> memory.Valid()
      ensures ok == (memory == null || |s.payload| <= memory.capacity - old(if memory == null then 0 else memory.used))
      ensures Model() == if ok then Store(old(Model()), s) else old(Model())
      ensures memory != null ==> memory.used == old(memory.used) + if ok then |s.payload| else 0
    {
      hide Sorted, WithStart;
      if memory != null {
        ok := memory.TryAcquire(|s.payload|);
        if !ok {
          return;
        }
      }
      buffer := buffer[s.sequence := s];
      InsertOrder(s.sequence);
      bytes := bytes + |s.payload|;
      if s.final {
        finalAt := Some(s.sequence);
      }
      ok := true;
    }

    /** Gives back every byte the abandoned gaps had charged. */
    method Close()
      requires Intact()
      modifies this`buffer, this`order, this`bytes, memory
      ensures Intact() && Model() == StripedFlow.Abandoned(old(Model()))
      ensures memory != null ==> memory.used == old(memory.used) - old(bytes)
    {
      ghost var starts := order;
      hide Sorted, Total, WithoutStart, Valid;
      OpenIntact(Model());
      while buffer != map[]
        invariant Sorted(starts) && forall k :: k in starts <==> k in buffer
        invariant memory != null ==>
                    memory.Valid() && Total(buffer, starts) <= memory.used
                    && memory.used - Total(buffer, starts) == old(memory.used) - old(bytes)
        decreases |buffer|
      {
        var k :| k in buffer;
        ghost var held := buffer;
        GiveBackAt(starts, held, k);
        GiveBack(|buffer[k].payload|);
        assert (buffer - {k}).Keys == buffer.Keys - {k};
        buffer := buffer - {k};
        starts := WithoutStart(starts, k);
      }
      NoStarts(starts, buffer);
      order, bytes := [], 0;
      AbandonedIntact(Model());
    }

    /** The ranges held out of order, lowest first, at most max of them. */
    method ReceivedRanges(max: int) returns (ranges: seq<A.Range>)
      requires Valid(Model())
      ensures ranges == StripedFlow.ReceivedRanges(Model(), max)
    {
      hide Valid, StripedFlow.JoinRange;
      assert forall k :: k in order ==> k in buffer by { StripedFlow.OrderInBuffer(Model()); }
      ranges := [];
      if max <= 0 {
        return;
      }
      var i := 0;
      while i < |order|
        invariant i <= |order| && ranges == StripedFlow.RangesOf(buffer, order[..i])
      {
        RangesStep(Model(), i);
        var s := buffer[order[i]];
        if !s.final {
          ranges := Extend(ranges, A.Range(order[i], s.End()));
        }
        i := i + 1;
      }
      assert order[..|order|] == order;
      if |ranges| > max {
        ranges := ranges[..max];
      }
    }
  }

  method Extend(ranges: seq<A.Range>, r: A.Range) returns (out: seq<A.Range>)
    ensures out == StripedFlow.JoinRange(ranges, r)
  {
    var last := |ranges| - 1;
    if last >= 0 && ranges[last].end == r.start {
      out := ranges[last := A.Range(ranges[last].start, r.end)];
    } else {
      out := ranges + [r];
    }
  }

  lemma GiveBackAt(starts: seq<nat>, held: map<nat, Segment>, k: nat)
    requires Sorted(starts) && (forall x :: x in starts <==> x in held) && k in held
    ensures var rest, left := WithoutStart(starts, k), held - {k};
            && Sorted(rest) && (forall x :: x in rest <==> x in left)
            && Total(held, starts) == Total(left, rest) + |held[k].payload|
  {
    hide Total, WithoutStart;
    WithoutStartSorted(starts, k);
    TotalWithoutStart(held, starts, k);
    TotalAgrees(held, held - {k}, WithoutStart(starts, k));
  }

  lemma OpenIntact(fl: Flow)
    requires Valid(fl)
    ensures Sorted(fl.order) && (forall k :: k in fl.order <==> k in fl.buffer)
            && fl.bytes == Total(fl.buffer, fl.order)
    ensures fl.next <= LIMIT
  {
  }

  lemma AbandonedIntact(fl: Flow)
    requires fl.buffer == map[] && fl.order == [] && fl.bytes == 0 && fl.next <= LIMIT
    ensures Valid(fl)
  {
  }

  lemma SomeStart(starts: seq<nat>)
    ensures starts == [] || exists k :: k in starts
  {
    assert starts != [] ==> starts[0] in starts;
  }

  lemma NoStarts(starts: seq<nat>, held: map<nat, Segment>)
    requires (forall k :: k in starts <==> k in held) && held == map[]
    ensures starts == [] && Total(held, starts) == 0
  {
    SomeStart(starts);
  }

  lemma OrderOf(fl: Flow)
    requires ValidButCursor(fl)
    ensures Sorted(fl.order)
  {
  }

  lemma OrderSorted(fl: Flow)
    requires Valid(fl)
    ensures Sorted(fl.order)
  {
  }

  lemma StartIsKey(fl: Flow, k: nat)
    requires Valid(fl) && k in fl.buffer
    ensures fl.buffer[k].sequence == k
  {
  }

  lemma FinEmpty(s: Segment)
    requires WellFormed(s) && s.final
    ensures s.payload == []
  {
  }

  lemma DrainFin(fl: Flow, current: Segment)
    requires current.final
    ensures Drain(fl, current) == Drained(fl.(finalAt := Some(current.sequence)), [], 0)
  {
  }

  lemma DrainStep(fl: Flow, current: Segment)
    requires !current.final
    ensures var moved, d := fl.(next := fl.next + |current.payload|), Drain(fl, current);
            if moved.next !in moved.buffer then d == Drained(moved, current.payload, 0)
            else
              var rest := Drain(Unstore(moved), moved.buffer[moved.next]);
              d == Drained(rest.flow, current.payload + rest.output, |moved.buffer[moved.next].payload| + rest.released)
  {
  }
}
