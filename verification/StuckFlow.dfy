/**
 A segment that straddles the receive cursor is accepted and buffered, because only
 one that ends below the cursor is recognised as a duplicate. Its bytes are reported
 as received, but the cursor can then never move again. Here is exactly when an
 acknowledged byte can no longer be delivered.
 */
module StuckFlow {
  import opened Wrappers
  import opened Reassembly
  import opened StripedFlow

  /** A buffered segment starts below the cursor and ends above it. */
  ghost predicate Jammed(fl: Flow) {
    exists k :: k in fl.buffer && k < fl.next < fl.buffer[k].End()
  }

  /** A segment offered, and whether the shared memory had room for it. */
  datatype Offer = Offer(segment: Segment, room: bool)

  function Take(cfg: Config, fl: Flow, o: Offer): Flow {
    match Insert(cfg, fl, o.segment, o.room)
    case Success(e) => e.flow
    case Failure(_) => fl
  }

  function TakeAll(cfg: Config, fl: Flow, offers: seq<Offer>): Flow
    decreases |offers|
  {
    if offers == [] then fl else TakeAll(cfg, Take(cfg, fl, offers[0]), offers[1..])
  }

  // ---------- jammed for good ----------

  /** Whatever is inserted into a jammed flow, the cursor stays and the jam stays. */
  lemma JamStays(cfg: Config, fl: Flow, o: Offer)
    requires Jammed(fl)
    ensures Take(cfg, fl, o).next == fl.next && Jammed(Take(cfg, fl, o))
  {
    hide Drain, WithStart;
    var s := o.segment;
    var k :| k in fl.buffer && k < fl.next < fl.buffer[k].End();
    if s.sequence == fl.next {
      assert Conflicts(fl, s);
    } else if Insert(cfg, fl, s, o.room).Success? {
      assert k in Take(cfg, fl, o).buffer && (s.sequence !in fl.buffer ==> k != s.sequence);
    }
  }

  lemma {:induction false} JammedForGood(cfg: Config, fl: Flow, offers: seq<Offer>)
    requires Jammed(fl)
    ensures TakeAll(cfg, fl, offers).next == fl.next && Jammed(TakeAll(cfg, fl, offers))
    decreases |offers|
  {
    hide Jammed, Take;
    if offers != [] {
      JamStays(cfg, fl, offers[0]);
      JammedForGood(cfg, Take(cfg, fl, offers[0]), offers[1..]);
    }
  }

  // ---------- otherwise everything held can still come out ----------

  lemma {:induction false} DrainClear(fl: Flow, current: Segment)
    requires ValidButCursor(fl) && !Jammed(fl) && current.sequence == fl.next && WellFormed(current)
    requires forall k :: k in fl.buffer ==> !(fl.next <= k < current.End())
    ensures !Jammed(Drain(fl, current).flow) && Drain(fl, current).flow.next >= fl.next
    ensures |Drain(fl, current).flow.buffer| <= |fl.buffer|
    ensures !current.final ==> Drain(fl, current).flow.next >= current.End()
    ensures !current.final && current.End() in fl.buffer ==> |Drain(fl, current).flow.buffer| < |fl.buffer|
    decreases |fl.buffer|
  {
    hide ValidButCursor, Unstore;
    if !current.final {
      var moved := fl.(next := fl.next + |current.payload|);
      MovedValid(fl, moved.next);
      assert !Jammed(moved) by { MovedClear(fl, current); }
      if moved.next in moved.buffer {
        var following, rest := moved.buffer[moved.next], Unstore(moved);
        UnstoreValid(moved);
        BufferedWellFormed(moved, moved.next);
        UnstoreCursor(moved);
        UnstoreClear(moved);
        DrainClear(rest, following);
      }
    }
  }

  lemma MovedClear(fl: Flow, current: Segment)
    requires !Jammed(fl) && current.sequence == fl.next && !current.final
    requires forall k :: k in fl.buffer ==> !(fl.next <= k < current.End())
    ensures !Jammed(fl.(next := fl.next + |current.payload|))
  {
    var moved := fl.(next := fl.next + |current.payload|);
    forall k | k in moved.buffer
      ensures !(k < moved.next < moved.buffer[k].End())
    {
      assert !(k < fl.next < fl.buffer[k].End());
    }
  }

  lemma UnstoreClear(fl: Flow)
    requires ValidButCursor(fl) && fl.next in fl.buffer && !Jammed(fl)
    ensures var r := Unstore(fl);
            !Jammed(r) && forall k :: k in r.buffer ==> !(r.next <= k < fl.buffer[fl.next].End())
  {
    hide Total, WithoutStart, Sorted;
    var r := Unstore(fl);
    forall k | k in r.buffer
      ensures !(r.next <= k < fl.buffer[fl.next].End()) && !(k < r.next < r.buffer[k].End())
    {
      assert k in fl.buffer && k != fl.next;
      assert !(k < fl.next < fl.buffer[k].End());
    }
  }

  /** The first buffered start above the cursor. */
  lemma {:induction false} FirstAbove(keys: set<nat>, next: nat, some: nat) returns (k: nat)
    requires some in keys && some > next
    ensures k in keys && next < k && forall j :: j in keys && next < j ==> k <= j
    decreases |keys|
  {
    if j: nat :| j in keys && next < j < some {
      var above := set x | x in keys && x < some;
      assert some !in above && above <= keys;
      SmallerSet(above, keys, some);
      k := FirstAbove(above, next, j);
      forall x | x in keys && next < x
        ensures k <= x
      {
        if x < some {
          assert x in above;
        }
      }
    } else {
      k := some;
    }
  }

  lemma SmallerSet(a: set<nat>, b: set<nat>, x: nat)
    requires a <= b && x in b && x !in a
    ensures |a| < |b|
  {
    assert a <= b - {x};
    SubsetSize(a, b - {x});
  }

  lemma {:induction false} SubsetSize(a: set<nat>, b: set<nat>)
    requires a <= b
    ensures |a| <= |b|
    decreases |a|
  {
    if a != {} {
      var x :| x in a;
      SubsetSize(a - {x}, b - {x});
    }
  }

  function Zeros(n: nat): (z: Bytes)
    ensures |z| == n
  {
    seq(n, _ => 0)
  }

  /** Nothing buffered overlaps the gap up to the first buffered start. */
  lemma GapIsFree(fl: Flow, k: nat)
    requires Valid(fl) && !Jammed(fl) && k in fl.buffer && fl.next < k
    requires forall j :: j in fl.buffer && fl.next < j ==> k <= j
    ensures var s := Segment(fl.next, Zeros(k - fl.next), false);
            WellFormed(s) && !Conflicts(fl, s) && fl.next !in fl.buffer
  {
    hide Total, Sorted;
    var s := Segment(fl.next, Zeros(k - fl.next), false);
    ValidParts(fl);
    assert WellFormed(fl.buffer[k]) && fl.buffer[k].sequence == k;
    forall j | j in fl.buffer
      ensures !(fl.next <= j < s.End()) && !(j < s.sequence < fl.buffer[j].End())
    {
      assert !(j < fl.next < fl.buffer[j].End());
    }
  }

  /** A segment that fills the gap up to the first buffered start is accepted and moves the cursor there. */
  lemma FillGap(cfg: Config, fl: Flow, k: nat)
    requires Valid(fl) && !Jammed(fl) && k in fl.buffer && fl.next < k
    requires forall j :: j in fl.buffer && fl.next < j ==> k <= j
    ensures var s := Segment(fl.next, Zeros(k - fl.next), false);
            var r := Insert(cfg, fl, s, true);
            && r.Success? && Valid(r.value.flow) && !Jammed(r.value.flow)
            && r.value.flow.next >= k && |r.value.flow.buffer| < |fl.buffer|
  {
    hide Drain, Valid, ValidButCursor, Conflicts, Jammed;
    var s := Segment(fl.next, Zeros(k - fl.next), false);
    GapIsFree(fl, k);
    ValidParts(fl);
    DrainClear(fl, s);
    InsertValid(cfg, fl, s, true);
  }

  lemma NotBelow(fl: Flow, k: nat)
    requires !Jammed(fl) && fl.next !in fl.buffer && k in fl.buffer && fl.next < fl.buffer[k].End()
    ensures fl.next < k
  {
  }

  /** Unless the flow is jammed, some segments deliver any byte it holds. */
  lemma {:induction false} Deliverable(cfg: Config, fl: Flow, b: nat) returns (offers: seq<Offer>)
    requires Valid(fl) && !Jammed(fl) && HasByte(fl, b)
    ensures TakeAll(cfg, fl, offers).next > b
    decreases |fl.buffer|
  {
    hide Valid, Insert, ValidButCursor;
    offers := [];
    if fl.next <= b {
      var j :| j in fl.buffer && j <= b < fl.buffer[j].End();
      assert fl.next !in fl.buffer by { ValidParts(fl); }
      NotBelow(fl, j);
      var k := FirstAbove(fl.buffer.Keys, fl.next, j);
      FillGap(cfg, fl, k);
      var s := Segment(fl.next, Zeros(k - fl.next), false);
      var o := Offer(s, true);
      InsertKeepsBytes(cfg, fl, s, true, b);
      var more := Deliverable(cfg, Take(cfg, fl, o), b);
      offers := [o] + more;
      assert offers[1..] == more;
    }
  }

  /** An acknowledged byte that is not out yet can never come out exactly when the flow is jammed. */
  lemma StuckExactly(cfg: Config, fl: Flow, b: nat)
    requires Valid(fl) && HasByte(fl, b) && fl.next <= b
    ensures Jammed(fl) <==> forall offers :: TakeAll(cfg, fl, offers).next <= b
  {
    hide Jammed, Valid, HasByte, TakeAll;
    if Jammed(fl) {
      forall offers
        ensures TakeAll(cfg, fl, offers).next <= b
      {
        JammedForGood(cfg, fl, offers);
      }
    } else {
      var offers := Deliverable(cfg, fl, b);
      assert TakeAll(cfg, fl, offers).next > b;
    }
  }

  // ---------- how it comes about ----------

  /** Of the segments accepted, exactly one that straddles the cursor jams the flow. */
  lemma JamsExactly(cfg: Config, fl: Flow, s: Segment, room: bool)
    requires Valid(fl) && !Jammed(fl) && Insert(cfg, fl, s, room).Success?
    ensures Jammed(Insert(cfg, fl, s, room).value.flow) <==> s.sequence < fl.next < s.End()
  {
    hide Drain, WithStart, Total, Sorted;
    var e := Insert(cfg, fl, s, room).value;
    if s.End() < fl.next {
    } else if s.sequence in fl.buffer {
      assert !(s.sequence < fl.next < fl.buffer[s.sequence].End());
    } else if s.sequence != fl.next {
      assert s.sequence in e.flow.buffer && e.flow.buffer[s.sequence] == s;
      forall k | k in e.flow.buffer && k != s.sequence
        ensures !(k < fl.next < e.flow.buffer[k].End())
      {
        assert k in fl.buffer;
      }
    } else {
      ValidParts(fl);
      forall k | k in fl.buffer
        ensures !(fl.next <= k < s.End())
      {
        assert !(s.sequence <= k < s.End());
      }
      DrainClear(fl, s);
    }
  }

  /**
   Two bytes are delivered; a segment over the second of them and the next is accepted,
   acknowledged and never delivered.
   */
  lemma AcknowledgedButStuck(cfg: Config, offers: seq<Offer>)
    requires Bounded(cfg) && cfg.maxBytes >= 2
    ensures var one, two := Offer(Segment(0, [1, 2], false), true), Offer(Segment(1, [2, 3], false), true);
            var fl := Take(cfg, Take(cfg, Empty(), one), two);
            && fl.next == 2 && HasByte(fl, 2) && TakeAll(cfg, fl, offers).next == 2
  {
    hide WithStart;
    var one, two := Segment(0, [1, 2], false), Segment(1, [2, 3], false);
    var first := Take(cfg, Empty(), Offer(one, true));
    assert first == Empty().(next := 2);
    var fl := Take(cfg, first, Offer(two, true));
    assert 1 in fl.buffer && fl.buffer[1] == two;
    assert Jammed(fl);
    JammedForGood(cfg, fl, offers);
  }
}
