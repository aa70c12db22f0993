/**
 One flow's receiver as a value: what it has delivered, what it buffers out of
 order, and what inserting a segment does to it.
 */
module Reassembly {
  import opened Wrappers
  import GaloisField

  /** The largest byte offset. */
  const LIMIT: nat := 0xFFFF_FFFF_FFFF_FFFF

  type Bytes = seq<GaloisField.Byte>

  /** A data segment, or a FIN carrying nothing. */
  datatype Segment = Segment(sequence: nat, payload: Bytes, final: bool) {
    function End(): nat {
      if final then sequence else sequence + |payload|
    }
  }

  datatype Config = Config(maxBytes: nat, maxFrames: nat)

  /** Both bounds are set. */
  predicate Bounded(cfg: Config) {
    cfg.maxBytes > 0 && cfg.maxFrames > 0
  }

  /** The bounds in force. */
  function Effective(cfg: Config): Config {
    if Bounded(cfg) then cfg else Config(8 * 1024 * 1024, 4096)
  }

  datatype Error = FinWithPayload | EmptyData | BadSequence | Conflict | Overlap | WindowExceeded | OutOfMemory

  /** The cursor, the segments buffered by start, their starts in order, and the end of the stream if it is known. */
  datatype Flow = Flow(next: nat, buffer: map<nat, Segment>, order: seq<nat>, bytes: nat, finalAt: Option<nat>)

  function Empty(): Flow {
    Flow(0, map[], [], 0, None)
  }

  predicate Closed(fl: Flow) {
    fl.finalAt.Some? && fl.next >= fl.finalAt.value
  }

  // ---------- the invariant ----------

  predicate WellFormed(s: Segment) {
    (s.final <==> s.payload == []) && s.End() <= LIMIT
  }

  predicate Sorted(order: seq<nat>) {
    forall i, j :: 0 <= i < j < |order| ==> order[i] < order[j]
  }

  /** The payload bytes buffered at these starts. */
  function Total(buffer: map<nat, Segment>, starts: seq<nat>): nat
    requires forall k :: k in starts ==> k in buffer
  {
    if starts == [] then 0 else
      Total(buffer, starts[..|starts| - 1]) + |buffer[starts[|starts| - 1]].payload|
  }

  /** Buffered segments are disjoint, the order list names each once, and the byte count is theirs. */
  ghost predicate Valid(fl: Flow) {
    && (forall k :: k in fl.buffer ==> fl.buffer[k].sequence == k && WellFormed(fl.buffer[k]))
    && (forall j, k :: j in fl.buffer && k in fl.buffer && j < k ==> fl.buffer[j].End() <= k)
    && Sorted(fl.order)
    && (forall k :: k in fl.order <==> k in fl.buffer)
    && fl.bytes == Total(fl.buffer, fl.order)
    && fl.next !in fl.buffer
    && fl.next <= LIMIT
  }

  // ---------- inserting ----------

  /** The segment shares bytes with one already buffered, or starts inside it. */
  predicate Conflicts(fl: Flow, s: Segment) {
    exists k :: k in fl.buffer && (k < s.sequence < fl.buffer[k].End() || s.sequence <= k < s.End())
  }

  /** The order list with one more start in its place. */
  function WithStart(order: seq<nat>, k: nat): (r: seq<nat>)
    ensures forall x :: x in r <==> x == k || x in order
  {
    if order == [] || order[|order| - 1] < k then order + [k]
    else WithStart(order[..|order| - 1], k) + [order[|order| - 1]]
  }

  function WithoutStart(order: seq<nat>, k: nat): (r: seq<nat>)
    ensures forall x :: x in r ==> x in order
  {
    if order == [] then []
    else if order[|order| - 1] == k then order[..|order| - 1]
    else WithoutStart(order[..|order| - 1], k) + [order[|order| - 1]]
  }

  function Store(fl: Flow, s: Segment): Flow {
    fl.(buffer := fl.buffer[s.sequence := s], order := WithStart(fl.order, s.sequence),
        bytes := fl.bytes + |s.payload|,
        finalAt := if s.final then Some(s.sequence) else fl.finalAt)
  }

  /** Takes the segment buffered at the cursor out of the buffer. */
  function Unstore(fl: Flow): (r: Flow)
    requires fl.next in fl.buffer
    ensures |r.buffer| < |fl.buffer|
  {
    var s := fl.buffer[fl.next];
    assert (fl.buffer - {fl.next}).Keys == fl.buffer.Keys - {fl.next};
    fl.(buffer := fl.buffer - {fl.next}, order := WithoutStart(fl.order, fl.next),
        bytes := if |s.payload| <= fl.bytes then fl.bytes - |s.payload| else 0)
  }

  datatype Drained = Drained(flow: Flow, output: Bytes, released: nat)

  /** Delivers the segment at the cursor and every buffered one that then becomes contiguous. */
  function Drain(fl: Flow, current: Segment): (d: Drained)
    decreases |fl.buffer|
  {
    if current.final then Drained(fl.(finalAt := Some(current.sequence)), [], 0) else
      var moved := fl.(next := fl.next + |current.payload|);
      if moved.next !in moved.buffer then Drained(moved, current.payload, 0) else
        var rest := Drain(Unstore(moved), moved.buffer[moved.next]);
        Drained(rest.flow, current.payload + rest.output, |moved.buffer[moved.next].payload| + rest.released)
  }

  /** What one insertion does: the flow after it, the bytes it delivers, and the memory it gives back or takes. */
  datatype Effect = Effect(flow: Flow, output: Bytes, closed: bool, taken: nat, released: nat)

  /** room says whether the shared memory budget admits the payload. */
  function Insert(cfg: Config, fl: Flow, s: Segment, room: bool): (r: Result<Effect, Error>) {
    if s.final && s.payload != [] then Failure(FinWithPayload)
    else if !s.final && s.payload == [] then Failure(EmptyData)
    else if s.sequence > LIMIT - |s.payload| then Failure(BadSequence)
    else if s.End() < fl.next then Success(Effect(fl, [], Closed(fl), 0, 0))
    else if s.sequence in fl.buffer then
      if fl.buffer[s.sequence] == s then Success(Effect(fl, [], Closed(fl), 0, 0)) else Failure(Conflict)
    else if Conflicts(fl, s) then Failure(Overlap)
    else if s.sequence != fl.next then
      if |fl.buffer| + 1 > cfg.maxFrames || fl.bytes + |s.payload| > cfg.maxBytes then Failure(WindowExceeded)
      else if !room then Failure(OutOfMemory)
      else
        var stored := Store(fl, s);
        Success(Effect(stored, [], Closed(stored), |s.payload|, 0))
    else
      var d := Drain(fl, s);
      Success(Effect(d.flow, d.output, Closed(d.flow), 0, d.released))
  }

  // ---------- the order list and the byte count ----------

  lemma {:induction false} WithStartSorted(order: seq<nat>, k: nat)
    requires Sorted(order) && k !in order
    ensures Sorted(WithStart(order, k)) && |WithStart(order, k)| == |order| + 1
  {
    if order != [] && order[|order| - 1] >= k {
      var n := |order| - 1;
      WithStartSorted(order[..n], k);
      var r := WithStart(order[..n], k);
      forall i | 0 <= i < |r|
        ensures r[i] < order[n]
      {
        assert r[i] in r;
      }
    }
  }

  lemma {:induction false} WithoutStartSorted(order: seq<nat>, k: nat)
    requires Sorted(order)
    ensures Sorted(WithoutStart(order, k))
    ensures forall x :: x in WithoutStart(order, k) <==> x in order && x != k
  {
    if order != [] {
      var n := |order| - 1;
      WithoutStartSorted(order[..n], k);
      var r := WithoutStart(order[..n], k);
      assert order == order[..n] + [order[n]];
      forall x | x in order[..n]
        ensures x < order[n]
      {
      }
      if order[n] != k {
        assert forall i :: 0 <= i < |r| ==> r[i] in r;
      }
    }
  }

  /** The count depends only on the segments named. */
  lemma {:induction false} TotalAgrees(a: map<nat, Segment>, b: map<nat, Segment>, starts: seq<nat>)
    requires forall k :: k in starts ==> k in a && k in b && a[k] == b[k]
    ensures Total(a, starts) == Total(b, starts)
  {
    if starts != [] {
      TotalAgrees(a, b, starts[..|starts| - 1]);
    }
  }

  lemma {:induction false} TotalWithStart(buffer: map<nat, Segment>, order: seq<nat>, k: nat)
    requires k in buffer && forall x :: x in order ==> x in buffer
    ensures Total(buffer, WithStart(order, k)) == Total(buffer, order) + |buffer[k].payload|
  {
    if order == [] || order[|order| - 1] < k {
      assert (order + [k])[..|order|] == order;
    } else {
      var n := |order| - 1;
      TotalWithStart(buffer, order[..n], k);
      var r := WithStart(order[..n], k);
      assert (r + [order[n]])[..|r|] == r;
    }
  }

  lemma {:induction false} TotalWithoutStart(buffer: map<nat, Segment>, order: seq<nat>, k: nat)
    requires Sorted(order) && k in order && forall x :: x in order ==> x in buffer
    ensures Total(buffer, order) == Total(buffer, WithoutStart(order, k)) + |buffer[k].payload|
  {
    var n := |order| - 1;
    if order[n] != k {
      assert k in order[..n];
      TotalWithoutStart(buffer, order[..n], k);
      var r := WithoutStart(order[..n], k);
      assert (r + [order[n]])[..|r|] == r;
    }
  }

  // ---------- the invariant is kept ----------

  lemma StoreValid(fl: Flow, s: Segment)
    requires Valid(fl) && WellFormed(s) && s.sequence !in fl.buffer && !Conflicts(fl, s) && s.sequence != fl.next
    ensures Valid(Store(fl, s))
  {
    hide Total, WithStart;
    var r := Store(fl, s);
    WithStartSorted(fl.order, s.sequence);
    TotalWithStart(r.buffer, fl.order, s.sequence);
    TotalAgrees(fl.buffer, r.buffer, fl.order);
    forall j, k | j in r.buffer && k in r.buffer && j < k
      ensures r.buffer[j].End() <= k
    {
      if k == s.sequence {
        assert !(j < s.sequence < fl.buffer[j].End());
      } else if j == s.sequence {
        assert !(s.sequence <= k < s.End());
      }
    }
  }

  /** The invariant except that the cursor may sit on a buffered segment. */
  ghost predicate ValidButCursor(fl: Flow) {
    && (forall k :: k in fl.buffer ==> fl.buffer[k].sequence == k && WellFormed(fl.buffer[k]))
    && (forall j, k :: j in fl.buffer && k in fl.buffer && j < k ==> fl.buffer[j].End() <= k)
    && Sorted(fl.order)
    && (forall k :: k in fl.order <==> k in fl.buffer)
    && fl.bytes == Total(fl.buffer, fl.order)
  }

  lemma ValidParts(fl: Flow)
    requires Valid(fl)
    ensures ValidButCursor(fl) && fl.next !in fl.buffer && fl.next <= LIMIT
  {
  }

  lemma UnstoreBytes(fl: Flow)
    requires ValidButCursor(fl) && fl.next in fl.buffer
    ensures var r := Unstore(fl);
            && (forall k :: k in r.order <==> k in r.buffer)
            && r.bytes == Total(r.buffer, r.order) && r.bytes + |fl.buffer[fl.next].payload| == fl.bytes
  {
    hide Total, WithoutStart;
    var r := Unstore(fl);
    WithoutStartSorted(fl.order, fl.next);
    TotalWithoutStart(fl.buffer, fl.order, fl.next);
    TotalAgrees(fl.buffer, r.buffer, r.order);
  }

  lemma UnstoreValid(fl: Flow)
    requires ValidButCursor(fl) && fl.next in fl.buffer
    ensures ValidButCursor(Unstore(fl)) && Unstore(fl).bytes + |fl.buffer[fl.next].payload| == fl.bytes
  {
    hide Total, WithoutStart, Sorted, WellFormed;
    UnstoreBytes(fl);
    WithoutStartSorted(fl.order, fl.next);
  }

  lemma {:induction false} DrainValid(fl: Flow, current: Segment)
    requires ValidButCursor(fl) && fl.next !in fl.buffer && fl.next <= LIMIT
    requires WellFormed(current) && current.sequence == fl.next
    ensures var d := Drain(fl, current); Valid(d.flow) && d.flow.bytes + d.released == fl.bytes
    decreases |fl.buffer|
  {
    hide ValidButCursor, Unstore, Valid;
    if current.final {
      assert Valid(fl.(finalAt := Some(current.sequence))) by { CursorValid(fl, Some(current.sequence), fl.next); }
    } else {
      var moved := fl.(next := fl.next + |current.payload|);
      assert moved.next <= LIMIT;
      MovedValid(fl, moved.next);
      if moved.next in moved.buffer {
        UnstoreValid(moved);
        BufferedWellFormed(moved, moved.next);
        UnstoreCursor(moved);
        DrainValid(Unstore(moved), moved.buffer[moved.next]);
      } else {
        CursorValid(moved, moved.finalAt, moved.next);
      }
    }
  }

  lemma UnstoreCursor(fl: Flow)
    requires fl.next in fl.buffer
    ensures var r := Unstore(fl); r.next == fl.next && r.next !in r.buffer && |r.buffer| < |fl.buffer|
  {
  }

  lemma BufferedWellFormed(fl: Flow, k: nat)
    requires ValidButCursor(fl) && k in fl.buffer
    ensures WellFormed(fl.buffer[k]) && fl.buffer[k].sequence == k
  {
  }

  lemma MovedValid(fl: Flow, next: nat)
    requires ValidButCursor(fl)
    ensures ValidButCursor(fl.(next := next))
  {
  }

  lemma CursorValid(fl: Flow, finalAt: Option<nat>, next: nat)
    requires ValidButCursor(fl) && next !in fl.buffer && next <= LIMIT
    ensures Valid(fl.(finalAt := finalAt, next := next))
  {
  }

  /** Every insertion keeps the invariant, and the buffered bytes change by exactly what it takes and gives back. */
  lemma InsertValid(cfg: Config, fl: Flow, s: Segment, room: bool)
    requires Valid(fl) && Insert(cfg, fl, s, room).Success?
    ensures var e := Insert(cfg, fl, s, room).value;
            && Valid(e.flow) && e.closed == Closed(e.flow)
            && e.flow.bytes + e.released == fl.bytes + e.taken
            && (e.taken > 0 ==> room)
  {
    hide Conflicts, Drain, Store;
    assert ValidButCursor(fl);
    if s.End() >= fl.next && s.sequence !in fl.buffer && !Conflicts(fl, s) {
      if s.sequence != fl.next {
        StoreValid(fl, s);
        assert Store(fl, s).bytes == fl.bytes + |s.payload| by { StoreBytes(fl, s); }
      } else {
        DrainValid(fl, s);
      }
    }
  }

  lemma StoreBytes(fl: Flow, s: Segment)
    ensures Store(fl, s).bytes == fl.bytes + |s.payload|
  {
  }
}
