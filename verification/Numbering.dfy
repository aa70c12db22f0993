/**
 Transmission numbering: a datagram the carrier refuses gives its number back, so
 the numbers on the wire count exactly what went out, and what the peer records
 as lost is exactly what the wire dropped.
 */
module Numbering {
  import opened LossModel
  import opened LossRecord

  const CYCLE: nat := 0x1_0000_0000

  /** What the carrier did with a datagram. */
  datatype Handoff = Accepted | TooLarge | Broken

  class Numberer {
    var nextSeq: nat

    constructor ()
      ensures nextSeq == 0
    {
      nextSeq := 0;
    }

    method Take() returns (n: nat)
      requires nextSeq < CYCLE
      modifies this
      ensures n == old(nextSeq) && nextSeq == (old(nextSeq) + 1) % CYCLE
    {
      n := nextSeq;
      nextSeq := (nextSeq + 1) % CYCLE;
    }

    method Untake()
      requires nextSeq < CYCLE
      modifies this
      ensures nextSeq == (old(nextSeq) + CYCLE - 1) % CYCLE
    {
      nextSeq := (nextSeq + CYCLE - 1) % CYCLE;
    }

    /** Numbers one datagram and hands it over. A refused number is used again. */
    method Put(h: Handoff) returns (n: nat, sent: bool)
      requires nextSeq < CYCLE
      modifies this
      ensures n == old(nextSeq) && sent == h.Accepted? && nextSeq == After(old(nextSeq), h)
    {
      n := Take();
      match h
      case Accepted =>
        sent := true;
      case TooLarge =>
        Untake();
        sent := false;
      case Broken =>
        Untake();
        sent := false;
    }
  }

  function After(next: nat, h: Handoff): (n: nat)
    requires next < CYCLE
    ensures n < CYCLE
  {
    if h.Accepted? then (next + 1) % CYCLE else next
  }

  /** The numbers of the accepted datagrams, in the order they went out. */
  function OnWire(next: nat, handoffs: seq<Handoff>): seq<nat>
    requires next < CYCLE
    decreases |handoffs|
  {
    if handoffs == [] then [] else
      (if handoffs[0].Accepted? then [next] else []) + OnWire(After(next, handoffs[0]), handoffs[1..])
  }

  /** The k'th accepted datagram carries the number k places on, however many are refused in between. */
  lemma {:induction false} WireNumbers(next: nat, handoffs: seq<Handoff>, k: nat)
    requires next < CYCLE && k < |OnWire(next, handoffs)|
    ensures OnWire(next, handoffs)[k] == (next + k) % CYCLE
    decreases |handoffs|
  {
    if handoffs[0].Accepted? {
      if k > 0 {
        WireNumbers(After(next, handoffs[0]), handoffs[1..], k - 1);
        assert ((next + 1) % CYCLE + (k - 1)) % CYCLE == (next + k) % CYCLE;
      }
    } else {
      WireNumbers(next, handoffs[1..], k);
    }
  }

  // ---------- over an in-order wire ----------

  /** Which of the accepted datagrams came through, in order. */
  ghost predicate InOrder(through: seq<nat>) {
    forall i, j :: 0 <= i < j < |through| ==> through[i] < through[j]
  }

  /** The wire delivers some of what it accepted, in order: the numbers of those at the given places. */
  ghost function Arrivals(wire: seq<nat>, through: seq<nat>): seq<nat>
    requires forall i :: 0 <= i < |through| ==> through[i] < |wire|
  {
    seq(|through|, i requires 0 <= i < |through| => wire[through[i]])
  }

  lemma {:induction false} TopOfIncreasing(arr: seq<nat>)
    requires InOrder(arr) && arr != []
    ensures Top(arr) == arr[|arr| - 1]
  {
    if |arr| > 1 {
      TopOfIncreasing(arr[..|arr| - 1]);
    }
  }

  lemma {:induction false} BaseOfIncreasing(arr: seq<nat>, w: Rule)
    requires InOrder(arr) && arr != []
    ensures Base(arr, w) == arr[0]
  {
    if |arr| > 1 {
      BaseOfIncreasing(arr[..|arr| - 1], w);
    }
  }

  lemma TimelyIncreasing(arr: seq<nat>, w: Rule, id: nat)
    requires InOrder(arr)
    ensures Timely(arr, w, id) <==> id in arr
  {
    if id in arr {
      var j :| 0 <= j < |arr| && arr[j] == id;
      if j > 0 {
        TopOfIncreasing(arr[..j]);
      }
      assert !Decided(arr[..j], w, id);
    }
  }

  /** One more arrival is added to what is read, or starts it again. */
  lemma ReadGrows(through: seq<nat>, tolerance: nat)
    requires through != []
    ensures var n := |through| - 1;
            var r, s := ReadAll(through[..n], tolerance), ReadAll(through, tolerance);
            s.arr == r.arr + [through[n]] || s.arr == [through[n]]
  {
    hide Undecided, Log;
  }

  /** In order, what is read since the last restart is the tail of the arrivals. */
  lemma {:induction false} TailRead(through: seq<nat>, tolerance: nat)
    requires through != []
    ensures var r := ReadAll(through, tolerance);
            && 0 < |r.arr| <= |through| && r.arr == through[|through| - |r.arr|..]
  {
    hide ReadAll;
    var n := |through| - 1;
    ReadGrows(through, tolerance);
    if n == 0 {
      assert through[..0] == [];
      NothingReadYet(tolerance);
      assert [] + [through[0]] == through;
    } else {
      TailRead(through[..n], tolerance);
      TailSnoc(through, |ReadAll(through[..n], tolerance).arr|);
    }
  }

  lemma NothingReadYet(tolerance: nat)
    ensures ReadAll([], tolerance).arr == []
  {
  }

  lemma TailSnoc(through: seq<nat>, k: nat)
    requires through != [] && k < |through|
    ensures var n := |through| - 1;
            through[..n][n - k..] + [through[n]] == through[n - k..] && [through[n]] == through[n..]
  {
  }

  /**
   Local refusals are never measured as path loss. Whatever the carrier refused,
   and whatever an in-order wire dropped of the fewer than 2^32 datagrams it
   accepted, the outcomes the peer has recorded since its last restart are those of
   the consecutive datagrams from base to next, and each is a loss exactly when the
   wire dropped that datagram.
   */
  lemma RefusalsAreNotLoss(cfg: Config, handoffs: seq<Handoff>, through: seq<nat>)
    requires Proper(cfg) && InOrder(through) && through != []
    requires |OnWire(0, handoffs)| < CYCLE && forall i :: 0 <= i < |through| ==> through[i] < |OnWire(0, handoffs)|
    ensures var e := ObserveAll(cfg, Arrivals(OnWire(0, handoffs), through));
            var r := ReadAll(through, cfg.tolerance);
            && r.arr != [] && var base := r.arr[0];
            && base <= e.next <= |OnWire(0, handoffs)| && |e.log| == |r.past| + (e.next - base)
            && (forall id: nat :: base <= id < e.next ==> (!e.log[|r.past| + (id - base)] <==> id !in through))
  {
    hide ObserveAll, ReadAll, OnWire;
    var wire := OnWire(0, handoffs);
    forall k: nat | k < |wire|
      ensures wire[k] == k
    {
      WireNumbers(0, handoffs, k);
    }
    assert Arrivals(wire, through) == through;
    InOrderRecord(cfg, through, |wire|);
  }

  /** The record of arrivals that come in order. */
  lemma InOrderRecord(cfg: Config, through: seq<nat>, sent: nat)
    requires Proper(cfg) && InOrder(through) && through != []
    requires forall i :: 0 <= i < |through| ==> through[i] < sent
    ensures var e, r := ObserveAll(cfg, through), ReadAll(through, cfg.tolerance);
            && r.arr != [] && r.arr[0] <= e.next <= sent && |e.log| == |r.past| + (e.next - r.arr[0])
            && (forall id: nat :: r.arr[0] <= id < e.next ==>
                  (!e.log[|r.past| + (id - r.arr[0])] <==> id !in through))
  {
    hide ObserveAll, ReadAll, Timely, Base, Top, Decided, InOrder;
    LossRecordExact(cfg, through);
    TailRead(through, cfg.tolerance);
    var e, r := ObserveAll(cfg, through), ReadAll(through, cfg.tolerance);
    var w := Rule(r.first, cfg.tolerance);
    TailInOrder(through, |through| - |r.arr|);
    BaseOfIncreasing(r.arr, w);
    assert e.highest in through;
    assert e.next <= e.highest by { ObserveAllMatches(cfg, through); }
    forall id: nat | r.arr[0] <= id < e.next
      ensures Timely(r.arr, w, id) <==> id in through
    {
      TimelyIncreasing(r.arr, w, id);
      TailMember(through, |through| - |r.arr|, id);
    }
  }

  lemma HeadInOrder(through: seq<nat>, n: nat)
    requires InOrder(through) && n <= |through|
    ensures InOrder(through[..n])
  {
  }

  lemma TailInOrder(through: seq<nat>, k: nat)
    requires InOrder(through) && k <= |through|
    ensures InOrder(through[k..])
  {
  }

  lemma TailMember(through: seq<nat>, k: nat, id: nat)
    requires InOrder(through) && k < |through| && through[k] <= id
    ensures id in through[k..] <==> id in through
  {
    if id in through {
      var i :| 0 <= i < |through| && through[i] == id;
      assert i >= k;
      assert through[k..][i - k] == id;
    }
  }

  /** No gap on the wire is long enough to look like a break in the numbering. */
  ghost predicate ShortGaps(through: seq<nat>, tolerance: nat) {
    forall i :: 0 < i < |through| ==> through[i] + tolerance <= through[i - 1] + MAX_GAP + 1
  }

  /** An arrival within the largest gap of the newest does not restart the reading. */
  lemma NoRestart(through: seq<nat>, tolerance: nat)
    requires through != [] && InOrder(through)
    requires var n := |through| - 1;
             var r := ReadAll(through[..n], tolerance);
             r.arr == through[..n] && r.past == [] && (n > 0 ==> through[n] + tolerance <= through[n - 1] + MAX_GAP + 1)
    ensures ReadAll(through, tolerance).arr == through && ReadAll(through, tolerance).past == []
  {
    hide InOrder, Read, ReadAll;
    var n := |through| - 1;
    var r := ReadAll(through[..n], tolerance);
    ReadAllStep(through, tolerance);
    assert through == through[..n] + [through[n]];
    if n > 0 {
      HeadInOrder(through, n);
      TopOfIncreasing(through[..n]);
    }
    ReadsOn(r, through[n], tolerance);
  }

  lemma ReadAllStep(through: seq<nat>, tolerance: nat)
    requires through != []
    ensures ReadAll(through, tolerance)
            == Read(ReadAll(through[..|through| - 1], tolerance), through[|through| - 1], tolerance)
  {
    hide Read;
  }

  lemma ReadsOn(r: Reading, x: nat, tolerance: nat)
    requires r.arr == [] || x + tolerance <= Top(r.arr) + MAX_GAP + 1
    ensures Read(r, x, tolerance) == r.(arr := r.arr + [x])
  {
    hide Log, Base, Top;
  }

  /** Without such a gap there is no restart, so the record covers everything since the first arrival. */
  lemma {:induction false} ShortGapsNeverRestart(through: seq<nat>, tolerance: nat)
    requires InOrder(through) && ShortGaps(through, tolerance)
    ensures ReadAll(through, tolerance).arr == through && ReadAll(through, tolerance).past == []
  {
    hide Read, InOrder;
    if through != [] {
      HeadInOrder(through, |through| - 1);
      ShortGapsNeverRestart(through[..|through| - 1], tolerance);
      NoRestart(through, tolerance);
    }
  }
}
