/** One stream, cut into fixed pieces and offered in any order with repeats and refusals, comes out in order. */
module OrderedDelivery {
  import opened Wrappers
  import opened Reassembly

  /** A stream and where it is cut: each cut but the last starts a piece. */
  datatype Stream = Stream(bytes: Bytes, cuts: seq<nat>)

  ghost predicate WellCut(st: Stream) {
    && |st.bytes| <= LIMIT && |st.cuts| > 0
    && st.cuts[0] == 0 && st.cuts[|st.cuts| - 1] == |st.bytes|
    && forall i, j :: 0 <= i < j < |st.cuts| ==> st.cuts[i] < st.cuts[j]
  }

  function Piece(st: Stream, i: nat): Segment
    requires i + 1 < |st.cuts| && st.cuts[i] <= st.cuts[i + 1] <= |st.bytes|
  {
    Segment(st.cuts[i], st.bytes[st.cuts[i]..st.cuts[i + 1]], false)
  }

  function Fin(st: Stream): Segment {
    Segment(|st.bytes|, [], true)
  }

  /** The segment is the i'th piece. */
  ghost predicate IsPiece(st: Stream, s: Segment, i: nat)
    requires WellCut(st)
  {
    i + 1 < |st.cuts| && st.cuts[i] <= st.cuts[i + 1] <= |st.bytes| && s == Piece(st, i)
  }

  ghost predicate Of(st: Stream, s: Segment)
    requires WellCut(st)
  {
    s == Fin(st) || exists i: nat :: IsPiece(st, s, i)
  }

  lemma PieceFacts(st: Stream, s: Segment)
    requires WellCut(st) && Of(st, s)
    ensures WellFormed(s) && s.End() <= |st.bytes|
    ensures s.final ==> s == Fin(st)
    ensures !s.final ==> s.sequence in st.cuts && s.End() in st.cuts && s.payload == st.bytes[s.sequence..s.End()]
  {
    if s != Fin(st) {
      var i: nat :| IsPiece(st, s, i);
      assert st.cuts[i] < st.cuts[i + 1];
      assert st.cuts[i] in st.cuts && st.cuts[i + 1] in st.cuts;
    }
  }

  /** The flow holds only pieces of the stream, its cursor is at a cut, and a FIN it holds has set the end. */
  ghost predicate Within(st: Stream, fl: Flow)
    requires WellCut(st)
  {
    && fl.next in st.cuts && fl.next <= |st.bytes|
    && (forall k :: k in fl.buffer ==> Of(st, fl.buffer[k]))
    && (forall k :: k in fl.buffer && fl.buffer[k].final ==> fl.finalAt == Some(|st.bytes|))
    && (fl.finalAt == None || fl.finalAt == Some(|st.bytes|))
  }

  /** The piece has gone out, or is waiting in the buffer. */
  ghost predicate Kept(st: Stream, fl: Flow, s: Segment) {
    if s.final then fl.finalAt == Some(|st.bytes|)
    else s.End() <= fl.next || (s.sequence in fl.buffer && fl.buffer[s.sequence] == s)
  }

  /** Moving the cursor over a piece that sits at it. */
  lemma MoveWithin(st: Stream, fl: Flow, current: Segment)
    requires WellCut(st) && Within(st, fl) && Of(st, current) && current.sequence == fl.next && !current.final
    ensures var moved := fl.(next := fl.next + |current.payload|);
            && Within(st, moved) && fl.next <= moved.next
            && st.bytes[..fl.next] + current.payload == st.bytes[..moved.next]
  {
    hide Of;
    PieceFacts(st, current);
  }

  lemma UnstoreWithin(st: Stream, fl: Flow)
    requires WellCut(st) && Within(st, fl) && fl.next in fl.buffer
    ensures Within(st, Unstore(fl)) && Of(st, fl.buffer[fl.next])
  {
    hide Of;
  }

  /** Draining delivers exactly the stream's bytes from the cursor's old place to its new one. */
  lemma {:induction false} DrainInOrder(st: Stream, fl: Flow, current: Segment)
    requires WellCut(st) && Within(st, fl) && ValidButCursor(fl) && fl.next !in fl.buffer
    requires Of(st, current) && current.sequence == fl.next
    ensures var d := Drain(fl, current);
            && Within(st, d.flow) && fl.next <= d.flow.next
            && st.bytes[..fl.next] + d.output == st.bytes[..d.flow.next]
    decreases |fl.buffer|
  {
    hide ValidButCursor, Of, Unstore, WellCut, Within, Drain;
    WithinCursor(st, fl);
    if current.final {
      FinWithin(st, fl, current);
      assert st.bytes[..fl.next] + [] == st.bytes[..fl.next];
    } else {
      var moved := fl.(next := fl.next + |current.payload|);
      MoveWithin(st, fl, current);
      MovedValid(fl, moved.next);
      DrainsAs(fl, current);
      WithinCursor(st, moved);
      if moved.next in moved.buffer {
        var following, rest := moved.buffer[moved.next], Unstore(moved);
        UnstoreWithin(st, moved);
        UnstoreValid(moved);
        BufferedWellFormed(moved, moved.next);
        UnstoreCursor(moved);
        DrainInOrder(st, rest, following);
        WithinCursor(st, Drain(rest, following).flow);
        Regroup(st.bytes[..fl.next], current.payload, Drain(rest, following).output);
      }
    }
  }

  lemma FinWithin(st: Stream, fl: Flow, current: Segment)
    requires WellCut(st) && Within(st, fl) && Of(st, current) && current.final && current.sequence == fl.next
    ensures Drain(fl, current) == Drained(fl.(finalAt := Some(fl.next)), [], 0)
    ensures Within(st, fl.(finalAt := Some(fl.next)))
  {
    hide Of;
    PieceFacts(st, current);
  }

  lemma DrainsAs(fl: Flow, current: Segment)
    requires !current.final
    ensures var moved, d := fl.(next := fl.next + |current.payload|), Drain(fl, current);
            if moved.next !in moved.buffer then d == Drained(moved, current.payload, 0)
            else
              var rest := Drain(Unstore(moved), moved.buffer[moved.next]);
              d.flow == rest.flow && d.output == current.payload + rest.output
  {
  }

  lemma Regroup(a: Bytes, b: Bytes, c: Bytes)
    ensures a + (b + c) == a + b + c
  {
  }

  lemma WithinCursor(st: Stream, fl: Flow)
    requires WellCut(st) && Within(st, fl)
    ensures fl.next <= |st.bytes|
  {
  }

  lemma UnstoreKept(st: Stream, fl: Flow, s: Segment)
    requires fl.next in fl.buffer && Kept(st, fl, s)
    ensures Kept(st, Unstore(fl), s) || s == fl.buffer[fl.next]
  {
  }

  /** Draining drops no piece. */
  lemma {:induction false} DrainKeeps(st: Stream, fl: Flow, current: Segment, s: Segment)
    requires WellCut(st) && Within(st, fl) && ValidButCursor(fl) && Of(st, s) && (Kept(st, fl, s) || s == current)
    requires Of(st, current) && current.sequence == fl.next
    ensures Kept(st, Drain(fl, current).flow, s)
    decreases |fl.buffer|
  {
    hide ValidButCursor, Of, Unstore;
    PieceFacts(st, s);
    PieceFacts(st, current);
    if !current.final {
      var moved := fl.(next := fl.next + |current.payload|);
      MoveWithin(st, fl, current);
      MovedValid(fl, moved.next);
      assert Kept(st, moved, s);
      if moved.next in moved.buffer {
        hide Kept, Within;
        UnstoreWithin(st, moved);
        UnstoreValid(moved);
        BufferedWellFormed(moved, moved.next);
        UnstoreCursor(moved);
        UnstoreKept(st, moved, s);
        DrainKeeps(st, Unstore(moved), moved.buffer[moved.next], s);
      }
    }
  }

  /** The receiver, everything it has delivered, and the segments it has accepted. */
  datatype Receiving = Receiving(flow: Flow, delivered: Bytes, accepted: set<Segment>)

  /** A segment offered, and whether the shared memory had room for it. */
  datatype Offer = Offer(segment: Segment, room: bool)

  function Take(cfg: Config, r: Receiving, o: Offer): Receiving {
    match Insert(cfg, r.flow, o.segment, o.room)
    case Success(e) => Receiving(e.flow, r.delivered + e.output, r.accepted + {o.segment})
    case Failure(_) => r
  }

  ghost predicate InOrder(st: Stream, r: Receiving)
    requires WellCut(st)
  {
    && Valid(r.flow) && Within(st, r.flow)
    && r.delivered == st.bytes[..r.flow.next]
    && (forall s :: s in r.accepted ==> Of(st, s) && Kept(st, r.flow, s))
  }

  lemma TakeInOrder(cfg: Config, st: Stream, r: Receiving, o: Offer)
    requires WellCut(st) && InOrder(st, r) && Of(st, o.segment)
    ensures InOrder(st, Take(cfg, r, o))
  {
    hide Valid, Drain, Conflicts, Of;
    var s := o.segment;
    if Insert(cfg, r.flow, s, o.room).Success? {
      InsertValid(cfg, r.flow, s, o.room);
      PieceFacts(st, s);
      var e := Insert(cfg, r.flow, s, o.room).value;
      if s.End() < r.flow.next {
        FinIsLast(st, s, r.flow);
        assert r.delivered + [] == r.delivered;
      } else if s.sequence in r.flow.buffer {
        assert r.delivered + [] == r.delivered;
        BufferedFinKnown(st, r, s);
      } else if s.sequence != r.flow.next {
        assert r.delivered + [] == r.delivered;
      } else {
        assert ValidButCursor(r.flow) && r.flow.next !in r.flow.buffer by { ValidParts(r.flow); }
        DrainInOrder(st, r.flow, s);
        forall t | t in r.accepted + {s}
          ensures Kept(st, e.flow, t)
        {
          DrainKeeps(st, r.flow, s, t);
        }
      }
    }
  }

  lemma FinIsLast(st: Stream, s: Segment, fl: Flow)
    requires WellCut(st) && Within(st, fl) && Of(st, s) && s.End() < fl.next
    ensures !s.final
  {
    PieceFacts(st, s);
  }

  lemma BufferedFinKnown(st: Stream, r: Receiving, s: Segment)
    requires WellCut(st) && InOrder(st, r) && s.sequence in r.flow.buffer && r.flow.buffer[s.sequence] == s
    ensures s.final ==> r.flow.finalAt == Some(|st.bytes|)
  {
  }

  function TakeAll(cfg: Config, r: Receiving, offers: seq<Offer>): Receiving
    decreases |offers|
  {
    if offers == [] then r else TakeAll(cfg, Take(cfg, r, offers[0]), offers[1..])
  }

  lemma {:induction false} TakeAllInOrder(cfg: Config, st: Stream, r: Receiving, offers: seq<Offer>)
    requires WellCut(st) && InOrder(st, r) && forall i :: 0 <= i < |offers| ==> Of(st, offers[i].segment)
    ensures InOrder(st, TakeAll(cfg, r, offers))
    decreases |offers|
  {
    hide InOrder, Take, Of;
    if offers != [] {
      TakeInOrder(cfg, st, r, offers[0]);
      TakeAllInOrder(cfg, st, Take(cfg, r, offers[0]), offers[1..]);
    }
  }

  function Begin(): Receiving {
    Receiving(Empty(), [], {})
  }

  /**
   Ordered delivery: in every insertion order, with repeats and refused inserts,
   what has come out is exactly the stream's first next bytes; once every piece
   and the FIN have been accepted, the whole stream is out and the flow is closed.
   */
  lemma DeliveredInOrder(cfg: Config, st: Stream, offers: seq<Offer>)
    requires WellCut(st) && forall i :: 0 <= i < |offers| ==> Of(st, offers[i].segment)
    ensures var r := TakeAll(cfg, Begin(), offers);
            && r.flow.next <= |st.bytes| && r.delivered == st.bytes[..r.flow.next]
            && ((forall s :: Of(st, s) ==> s in r.accepted) ==> r.delivered == st.bytes && Closed(r.flow))
  {
    hide Of, TakeAll;
    BeginInOrder(st);
    TakeAllInOrder(cfg, st, Begin(), offers);
    var r := TakeAll(cfg, Begin(), offers);
    if forall s :: Of(st, s) ==> s in r.accepted {
      NothingMissing(st, r);
      assert st.bytes[..|st.bytes|] == st.bytes;
    }
  }

  lemma BeginInOrder(st: Stream)
    requires WellCut(st)
    ensures InOrder(st, Begin())
  {
    assert st.cuts[0] in st.cuts;
  }

  lemma PieceKept(st: Stream, r: Receiving, i: nat)
    requires WellCut(st) && InOrder(st, r) && i + 1 < |st.cuts| && forall s :: Of(st, s) ==> s in r.accepted
    ensures st.cuts[i] < st.cuts[i + 1] <= st.cuts[|st.cuts| - 1] && Kept(st, r.flow, Piece(st, i))
  {
    assert IsPiece(st, Piece(st, i), i);
  }

  lemma NothingMissing(st: Stream, r: Receiving)
    requires WellCut(st) && InOrder(st, r) && forall s :: Of(st, s) ==> s in r.accepted
    ensures r.flow.next == |st.bytes| && Closed(r.flow)
  {
    assert Of(st, Fin(st));
    assert Kept(st, r.flow, Fin(st));
    var i :| 0 <= i < |st.cuts| && st.cuts[i] == r.flow.next;
    if i + 1 < |st.cuts| {
      PieceKept(st, r, i);
    }
  }
}
