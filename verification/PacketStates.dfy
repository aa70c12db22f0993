/**
 The delivery sampler's table of packets in flight. Packet numbers only increase,
 so a watermark below every key lets obsolete entries be dropped by walking the
 range they lie in; the result is always that of the plain filter.
 */
module PacketStates {
  import opened Wrappers

  const MAX_STATES: nat := 8192
  /** The largest packet number. */
  const MAX_NUMBER: nat := 0x7FFF_FFFF_FFFF_FFFF

  /** The states by packet number, the watermark if there is one, and the newest number sent. */
  datatype Table<S> = Table(states: map<nat, S>, lowest: int, known: bool, lastSent: int)

  datatype Ack = Ack(number: nat, bytes: int)

  /** tracked says whether the packet was retransmittable and not empty. */
  datatype Event<S> = Sent(number: nat, tracked: bool, state: S) | Congestion(acked: seq<Ack>, lost: seq<nat>)

  function Fresh<S>(): Table<S> {
    Table(map[], 0, false, -1)
  }

  // ---------- the plain filter ----------

  function AtLeast<S>(states: map<nat, S>, least: int): map<nat, S> {
    map k | k in states && k >= least :: states[k]
  }

  function Between<S>(states: map<nat, S>, from: int, to: int): map<nat, S> {
    map k | k in states && !(from <= k < to) :: states[k]
  }

  /** How many keys are smaller. */
  function Rank<S>(states: map<nat, S>, k: nat): nat {
    |Below(states, k)|
  }

  function Below<S>(states: map<nat, S>, k: nat): set<nat> {
    set j | j in states && j < k
  }

  /** Without the lowest quarter of a full table. */
  function Pruned<S>(states: map<nat, S>): map<nat, S> {
    map k | k in states && Rank(states, k) >= MAX_STATES / 4 :: states[k]
  }

  function WithoutAcked<S>(states: map<nat, S>, acked: seq<Ack>): map<nat, S>
    decreases |acked|
  {
    if acked == [] then states else
      WithoutAcked(if acked[0].bytes > 0 then states - {acked[0].number} else states, acked[1..])
  }

  function Largest(numbers: seq<nat>): int {
    if numbers == [] then -1 else
      var n := |numbers| - 1;
      if numbers[n] > Largest(numbers[..n]) then numbers[n] else Largest(numbers[..n])
  }

  function Numbers(acked: seq<Ack>): (r: seq<nat>)
    ensures |r| == |acked|
  {
    if acked == [] then [] else Numbers(acked[..|acked| - 1]) + [acked[|acked| - 1].number]
  }

  /** The number below which nothing can still be outstanding, if the event names any packet. */
  function Obsolete(acked: seq<Ack>, lost: seq<nat>): Option<int> {
    if acked != [] then
      var largest := Largest(Numbers(acked));
      if largest < 0 then None else if largest > 1 then Some(largest - 2) else Some(0)
    else
      var largest := Largest(lost);
      if largest < 0 then None else if largest == MAX_NUMBER then Some(largest) else Some(largest + 1)
  }

  // ---------- the steps ----------

  /** Drops obsolete entries: by walking from the watermark when that is short, otherwise by scanning. */
  function RemoveObsolete<S>(t: Table<S>, least: int): Table<S> {
    if t.states == map[] then t.(lowest := least, known := true)
    else if t.known && 0 <= least - t.lowest <= 2 * |t.states| then
      t.(states := Between(t.states, t.lowest, least), lowest := least)
    else
      t.(states := AtLeast(t.states, least), lowest := least, known := true)
  }

  function Step<S>(t: Table<S>, e: Event<S>): Table<S> {
    match e
    case Sent(number, tracked, state) =>
      if !tracked then t.(lastSent := number) else
        var room := if |t.states| >= MAX_STATES then Pruned(t.states) else t.states;
        Table(room[number := state], if t.known then t.lowest else number, true, number)
    case Congestion(acked, lost) =>
      var left := t.(states := WithoutAcked(t.states, acked));
      (match Obsolete(acked, lost)
       case None => left
       case Some(least) => RemoveObsolete(left, least))
  }

  /** The same step with the plain filter and no watermark. */
  function PlainStep<S>(states: map<nat, S>, e: Event<S>): map<nat, S> {
    match e
    case Sent(number, tracked, state) =>
      if !tracked then states else
        (if |states| >= MAX_STATES then Pruned(states) else states)[number := state]
    case Congestion(acked, lost) =>
      var left := WithoutAcked(states, acked);
      (match Obsolete(acked, lost)
       case None => left
       case Some(least) => AtLeast(left, least))
  }

  // ---------- the walk refines the filter ----------

  /** Numbers increase, and only packets that were sent are acknowledged or lost. */
  predicate Possible<S>(lastSent: int, e: Event<S>) {
    match e
    case Sent(number, _, _) => number > lastSent
    case Congestion(acked, lost) =>
      && (forall i :: 0 <= i < |acked| ==> acked[i].number <= lastSent)
      && (forall i :: 0 <= i < |lost| ==> lost[i] <= lastSent)
  }

  /** The watermark is at or below every key, and no further than the next number to be sent. */
  ghost predicate Marked<S>(t: Table<S>) {
    && (t.states != map[] ==> t.known)
    && (t.known ==> t.lowest <= t.lastSent + 1)
    && (forall k :: k in t.states ==> t.lowest <= k <= t.lastSent)
  }

  lemma {:induction false} LargestBound(numbers: seq<nat>, bound: int)
    requires (forall i :: 0 <= i < |numbers| ==> numbers[i] <= bound) && -1 <= bound
    ensures -1 <= Largest(numbers) <= bound
    ensures numbers != [] ==> Largest(numbers) >= 0
  {
    if numbers != [] {
      LargestBound(numbers[..|numbers| - 1], bound);
    }
  }

  lemma {:induction false} NumbersBound(acked: seq<Ack>, bound: int)
    requires forall i :: 0 <= i < |acked| ==> acked[i].number <= bound
    ensures forall i :: 0 <= i < |acked| ==> Numbers(acked)[i] <= bound
  {
    if acked != [] {
      NumbersBound(acked[..|acked| - 1], bound);
    }
  }

  lemma {:induction false} WithoutAckedPart<S>(states: map<nat, S>, acked: seq<Ack>)
    ensures forall k :: k in WithoutAcked(states, acked) ==> k in states && WithoutAcked(states, acked)[k] == states[k]
    decreases |acked|
  {
    if acked != [] {
      WithoutAckedPart(if acked[0].bytes > 0 then states - {acked[0].number} else states, acked[1..]);
    }
  }

  /** It walks from the watermark instead of scanning. */
  predicate Walks<S>(t: Table<S>, least: int) {
    t.states != map[] && t.known && 0 <= least - t.lowest <= 2 * |t.states|
  }

  /**
   Whatever numbers were sent: it equals the plain filter exactly when it scans or no key
   lies below the watermark.
   */
  lemma WalkMissesExactly<S>(t: Table<S>, least: int)
    ensures RemoveObsolete(t, least).states == AtLeast(t.states, least)
            <==> !Walks(t, least) || forall k :: k in t.states ==> t.lowest <= k
  {
    if k :| Walks(t, least) && k in t.states && k < t.lowest {
      assert k in RemoveObsolete(t, least).states && k !in AtLeast(t.states, least);
    }
  }

  /**
   The congestion step on any table at all, so also when packet numbers of several spaces
   overlap: it agrees with the plain one exactly when it removes nothing as obsolete, scans,
   or finds no key below the watermark among those not acknowledged.
   */
  lemma StepMissesExactly<S>(t: Table<S>, acked: seq<Ack>, lost: seq<nat>)
    ensures var left, least := t.(states := WithoutAcked(t.states, acked)), Obsolete(acked, lost);
            Step(t, Congestion(acked, lost)).states == PlainStep(t.states, Congestion(acked, lost))
            <==> least.None? || !Walks(left, least.value) || forall k :: k in left.states ==> t.lowest <= k
  {
    hide RemoveObsolete, AtLeast, WithoutAcked, Obsolete;
    var left, least := t.(states := WithoutAcked(t.states, acked)), Obsolete(acked, lost);
    if least.Some? {
      WalkMissesExactly(left, least.value);
    }
  }

  /** Number 1 sent after 5: when 7 is acknowledged the walk from 5 leaves the state of 1 behind. */
  lemma OverlappingNumbersMiss<S>(s: S)
    ensures var events := [Sent(5, true, s), Sent(1, true, s), Sent(7, true, s), Congestion([Ack(7, 1)], [])];
            1 in Run(Fresh<S>(), events).states && 1 !in PlainRun(map[], events)
  {
    var a, b, c, last := Sent(5, true, s), Sent(1, true, s), Sent(7, true, s), Congestion([Ack(7, 1)], []);
    var t0, t1 := Fresh<S>(), Table(map[5 := s], 5, true, 5);
    var t2, t3 := Table(map[5 := s, 1 := s], 5, true, 1), Table(map[5 := s, 1 := s, 7 := s], 5, true, 7);
    hide Step, PlainStep, Run, PlainRun;
    SentNext(t0, 5, s);
    SentNext(t1, 1, s);
    SentNext(t2, 7, s);
    OneStep(t0, a, [b, c, last]);
    OneStep(t1, b, [c, last]);
    OneStep(t2, c, [last]);
    OneStep(t3, last, []);
    EmptyRun(t3, last);
    assert [a, b, c, last] == [a] + [b, c, last];
    assert [b, c, last] == [b] + [c, last] && [c, last] == [c] + [last] && [last] == [last] + [];
    AfterSeven(t3);
  }

  lemma SentNext<S>(t: Table<S>, number: nat, s: S)
    requires |t.states| < MAX_STATES
    ensures Step(t, Sent(number, true, s))
            == Table(t.states[number := s], if t.known then t.lowest else number, true, number)
    ensures PlainStep(t.states, Sent(number, true, s)) == t.states[number := s]
  {
  }

  lemma EmptyRun<S>(t: Table<S>, e: Event<S>)
    ensures Run(Step(t, e), []) == Step(t, e) && PlainRun(PlainStep(t.states, e), []) == PlainStep(t.states, e)
  {
  }

  lemma OneStep<S>(t: Table<S>, a: Event<S>, rest: seq<Event<S>>)
    ensures Run(t, [a] + rest) == Run(Step(t, a), rest)
            && PlainRun(t.states, [a] + rest) == PlainRun(PlainStep(t.states, a), rest)
  {
    hide Step, PlainStep;
    assert ([a] + rest)[1..] == rest;
  }

  lemma AfterSeven<S>(t: Table<S>)
    requires t.lowest == 5 && t.known && t.states.Keys == {1, 5, 7}
    ensures 1 in Step(t, Congestion([Ack(7, 1)], [])).states && 1 !in PlainStep(t.states, Congestion([Ack(7, 1)], []))
  {
    var acked := [Ack(7, 1)];
    assert acked[1..] == [] && acked[..0] == [];
    assert Numbers(acked) == [7] && [7][..0] == [];
    assert Largest([7]) == 7;
    var left := t.states - {7};
    assert WithoutAcked(t.states, acked) == left && left.Keys == {1, 5};
  }

  /** Whether it walks or scans, exactly the states at or above its argument remain. */
  lemma RemoveObsoleteExact<S>(t: Table<S>, least: int)
    requires Marked(t) && least <= t.lastSent + 1
    ensures RemoveObsolete(t, least).states == AtLeast(t.states, least) && Marked(RemoveObsolete(t, least))
  {
  }

  lemma ObsoleteBound<S>(lastSent: int, acked: seq<Ack>, lost: seq<nat>)
    requires lastSent >= -1 && Possible<S>(lastSent, Congestion(acked, lost))
    ensures Obsolete(acked, lost).Some? ==> Obsolete(acked, lost).value <= lastSent + 1
  {
    NumbersBound(acked, lastSent);
    LargestBound(Numbers(acked), lastSent);
    LargestBound(lost, lastSent);
  }

  lemma StepExact<S>(t: Table<S>, e: Event<S>)
    requires Marked(t) && t.lastSent >= -1 && Possible(t.lastSent, e)
    ensures Step(t, e).states == PlainStep(t.states, e) && Marked(Step(t, e)) && Step(t, e).lastSent >= t.lastSent
  {
    hide RemoveObsolete, AtLeast, WithoutAcked, Obsolete, Rank;
    match e
    case Sent(_, _, _) =>
    case Congestion(acked, lost) =>
      WithoutAckedPart(t.states, acked);
      var left := t.(states := WithoutAcked(t.states, acked));
      assert Marked(left) by { LeftMarked(t, left); }
      ObsoleteBound<S>(t.lastSent, acked, lost);
      if Obsolete(acked, lost).Some? {
        RemoveObsoleteExact(left, Obsolete(acked, lost).value);
        assert RemoveObsolete(left, Obsolete(acked, lost).value).lastSent == t.lastSent by {
          KeepsLastSent(left, Obsolete(acked, lost).value);
        }
      }
  }

  lemma LeftMarked<S>(t: Table<S>, left: Table<S>)
    requires Marked(t) && left == t.(states := left.states) && forall k :: k in left.states ==> k in t.states
    ensures Marked(left)
  {
    if left.states != map[] {
      var k :| k in left.states;
    }
  }

  lemma KeepsLastSent<S>(t: Table<S>, least: int)
    ensures RemoveObsolete(t, least).lastSent == t.lastSent
  {
  }

  ghost predicate PossibleRun<S>(t: Table<S>, events: seq<Event<S>>)
    decreases |events|
  {
    events == [] || (Possible(t.lastSent, events[0]) && PossibleRun(Step(t, events[0]), events[1..]))
  }

  function Run<S>(t: Table<S>, events: seq<Event<S>>): Table<S>
    decreases |events|
  {
    if events == [] then t else Run(Step(t, events[0]), events[1..])
  }

  function PlainRun<S>(states: map<nat, S>, events: seq<Event<S>>): map<nat, S>
    decreases |events|
  {
    if events == [] then states else PlainRun(PlainStep(states, events[0]), events[1..])
  }

  /** Fast pruning refines the plain filter through every run, and the watermark never passes a key. */
  lemma {:induction false} FastEqualsPlain<S>(t: Table<S>, events: seq<Event<S>>)
    requires Marked(t) && t.lastSent >= -1 && PossibleRun(t, events)
    ensures Run(t, events).states == PlainRun(t.states, events) && Marked(Run(t, events))
    decreases |events|
  {
    hide Step, PlainStep, Marked;
    if events != [] {
      StepExact(t, events[0]);
      FastEqualsPlain(Step(t, events[0]), events[1..]);
    }
  }

  /** From an empty table on, in every run. */
  lemma FastEqualsPlainFromTheStart<S>(events: seq<Event<S>>)
    requires PossibleRun(Fresh<S>(), events)
    ensures Run(Fresh<S>(), events).states == PlainRun(map[], events)
    ensures forall k :: k in Run(Fresh<S>(), events).states ==> Run(Fresh<S>(), events).lowest <= k
  {
    hide Run, PlainRun, PossibleRun;
    assert Marked(Fresh<S>());
    FastEqualsPlain(Fresh<S>(), events);
  }

  // ---------- the table as it runs ----------

  ghost predicate Ascending(numbers: seq<nat>) {
    forall i, j :: 0 <= i < j < |numbers| ==> numbers[i] < numbers[j]
  }

  /** A packet number's place among the sorted keys is its rank. */
  lemma {:induction false} RankIsPlace<S>(states: map<nat, S>, numbers: seq<nat>, i: nat)
    requires Ascending(numbers) && (forall k :: k in numbers <==> k in states) && i < |numbers|
    ensures Rank(states, numbers[i]) == i
  {
    var below := Below(states, numbers[i]);
    forall j: nat
      ensures j in below <==> j in numbers[..i]
    {
      if j in below {
        var p :| 0 <= p < |numbers| && numbers[p] == j;
        assert p < i;
        assert numbers[..i][p] == j;
      }
      if j in numbers[..i] {
        var p :| 0 <= p < i && numbers[..i][p] == j;
        assert numbers[p] == j && j in numbers;
      }
    }
    PrefixSize(numbers, i, below);
  }

  lemma {:induction false} PrefixSize(numbers: seq<nat>, i: nat, s: set<nat>)
    requires Ascending(numbers) && i <= |numbers| && forall j :: j in s <==> j in numbers[..i]
    ensures |s| == i
  {
    if i > 0 {
      var x := numbers[i - 1];
      assert numbers[..i] == numbers[..i - 1] + [x];
      forall j
        ensures j in s - {x} <==> j in numbers[..i - 1]
      {
      }
      PrefixSize(numbers, i - 1, s - {x});
    } else {
      assert s == {};
    }
  }

  lemma SplicedAscending(numbers: seq<nat>, k: nat, i: nat)
    requires Ascending(numbers) && i <= |numbers| && (i > 0 ==> numbers[i - 1] < k)
    requires forall j :: i <= j < |numbers| ==> numbers[j] > k
    ensures Ascending(numbers[..i] + [k] + numbers[i..])
  {
    var r := numbers[..i] + [k] + numbers[i..];
    forall a, b | 0 <= a < b < |r|
      ensures r[a] < r[b]
    {
      assert r[a] == if a < i then numbers[a] else if a == i then k else numbers[a - 1];
      assert r[b] == if b < i then numbers[b] else if b == i then k else numbers[b - 1];
    }
  }

  lemma SplicedMembers(numbers: seq<nat>, k: nat, i: nat)
    requires i <= |numbers|
    ensures forall x :: x in numbers[..i] + [k] + numbers[i..] <==> x == k || x in numbers
  {
    assert numbers == numbers[..i] + numbers[i..];
  }

  /** Puts k in its place among ascending numbers. */
  method InsertSorted(numbers: seq<nat>, k: nat) returns (r: seq<nat>)
    requires Ascending(numbers) && k !in numbers
    ensures Ascending(r) && forall x :: x in r <==> x == k || x in numbers
  {
    var i: nat := |numbers|;
    while i > 0 && numbers[i - 1] > k
      invariant i <= |numbers|
      invariant forall j :: i <= j < |numbers| ==> numbers[j] > k
    {
      i := i - 1;
    }
    assert i > 0 ==> numbers[i - 1] in numbers;
    SplicedAscending(numbers, k, i);
    SplicedMembers(numbers, k, i);
    r := numbers[..i] + [k] + numbers[i..];
  }

  method SortedKeys<S>(states: map<nat, S>) returns (numbers: seq<nat>)
    ensures Ascending(numbers) && forall k :: k in numbers <==> k in states
  {
    numbers := [];
    var left := states;
    while left != map[]
      invariant Ascending(numbers)
      invariant forall k :: k in left ==> k in states
      invariant forall k :: k in numbers <==> k in states && k !in left
      decreases |left|
    {
      var k :| k in left;
      numbers := InsertSorted(numbers, k);
      assert (left - {k}).Keys == left.Keys - {k};
      left := left - {k};
    }
  }

  class Sampler<S> {
    var packetStates: map<nat, S>
    var lowestState: int
    var lowestKnown: bool
    var lastSentPacket: int

    ghost function Model(): Table<S>
      reads this
    {
      Table(packetStates, lowestState, lowestKnown, lastSentPacket)
    }

    constructor ()
      ensures Model() == Fresh<S>()
    {
      packetStates, lowestState, lowestKnown, lastSentPacket := map[], 0, false, -1;
    }

    /** Drops the oldest quarter of a full table. */
    method PruneStates()
      modifies this`packetStates
      ensures packetStates == Pruned(old(packetStates))
    {
      hide Rank;
      var numbers := SortedKeys(packetStates);
      forall i | 0 <= i < |numbers|
        ensures Rank(packetStates, numbers[i]) == i
      {
        RankIsPlace(packetStates, numbers, i);
      }
      if |numbers| <= MAX_STATES / 4 {
        packetStates := map[];
        return;
      }
      var left, i := packetStates, 0;
      while i < MAX_STATES / 4
        invariant i <= MAX_STATES / 4
        invariant left == map k | k in packetStates && k !in numbers[..i] :: packetStates[k]
      {
        left := left - {numbers[i]};
        i := i + 1;
      }
      Dropped(packetStates, numbers, left);
      packetStates := left;
    }

    method OnSentPacket(number: nat, tracked: bool, state: S)
      modifies this
      ensures Model() == Step(old(Model()), Sent(number, tracked, state))
    {
      lastSentPacket := number;
      if !tracked {
        return;
      }
      if |packetStates| >= MAX_STATES {
        PruneStates();
      }
      if !lowestKnown {
        lowestState, lowestKnown := number, true;
      }
      packetStates := packetStates[number := state];
    }

    method RemoveObsoleteStates(leastUnacked: int)
      modifies this
      ensures Model() == RemoveObsolete(old(Model()), leastUnacked)
    {
      if packetStates == map[] {
        lowestState, lowestKnown := leastUnacked, true;
        return;
      }
      var gap := leastUnacked - lowestState;
      if lowestKnown && gap >= 0 && gap <= 2 * |packetStates| {
        packetStates := Walk(packetStates, lowestState, leastUnacked);
        lowestState := leastUnacked;
        return;
      }
      packetStates := Scan(packetStates, leastUnacked);
      lowestState, lowestKnown := leastUnacked, true;
    }

    /** Drops the states of acknowledged packets, then everything obsolete. */
    method OnCongestionEvent(acked: seq<Ack>, lost: seq<nat>)
      modifies this
      ensures Model() == Step(old(Model()), Congestion(acked, lost))
    {
      hide RemoveObsolete, Obsolete;
      packetStates := DropAcked(packetStates, acked);
      var least := ObsoletePacketNumber(acked, lost);
      if least.Some? {
        RemoveObsoleteStates(least.value);
      }
    }
  }

  lemma Dropped<S>(states: map<nat, S>, numbers: seq<nat>, left: map<nat, S>)
    requires Ascending(numbers) && (forall k :: k in numbers <==> k in states) && |numbers| > MAX_STATES / 4
    requires forall i :: 0 <= i < |numbers| ==> Rank(states, numbers[i]) == i
    requires left == map k | k in states && k !in numbers[..MAX_STATES / 4] :: states[k]
    ensures left == Pruned(states)
  {
    hide Rank;
    forall k | k in states
      ensures k in numbers[..MAX_STATES / 4] <==> Rank(states, k) < MAX_STATES / 4
    {
      var i :| 0 <= i < |numbers| && numbers[i] == k;
    }
  }

  method Walk<S>(states: map<nat, S>, from: int, to: int) returns (r: map<nat, S>)
    requires from <= to
    ensures r == Between(states, from, to)
  {
    r := states;
    var number := from;
    while number < to
      invariant from <= number <= to && r == Between(states, from, number)
    {
      r := map k | k in r && k != number :: r[k];
      number := number + 1;
    }
  }

  method Scan<S>(states: map<nat, S>, least: int) returns (r: map<nat, S>)
    ensures r == AtLeast(states, least)
  {
    r := states;
    var left := states;
    while left != map[]
      invariant forall k :: k in left ==> k in states
      invariant r == map k | k in states && (k in left || k >= least) :: states[k]
      decreases |left|
    {
      assert left.Keys != {};
      var number :| number in left.Keys;
      if number < least {
        r := r - {number};
      }
      assert (left - {number}).Keys == left.Keys - {number};
      left := left - {number};
    }
  }

  method DropAcked<S>(states: map<nat, S>, acked: seq<Ack>) returns (r: map<nat, S>)
    ensures r == WithoutAcked(states, acked)
  {
    r := states;
    var i := 0;
    assert acked[0..] == acked;
    while i < |acked|
      invariant i <= |acked| && WithoutAcked(r, acked[i..]) == WithoutAcked(states, acked)
    {
      assert acked[i..][1..] == acked[i + 1..];
      if acked[i].bytes > 0 {
        r := r - {acked[i].number};
      }
      i := i + 1;
    }
  }

  method ObsoletePacketNumber(acked: seq<Ack>, lost: seq<nat>) returns (r: Option<int>)
    ensures r == Obsolete(acked, lost)
  {
    var largest: int := -1;
    if |acked| > 0 {
      var i := 0;
      while i < |acked|
        invariant i <= |acked| && largest == Largest(Numbers(acked[..i]))
      {
        assert acked[..i + 1][..i] == acked[..i];
        assert Numbers(acked[..i + 1])[..i] == Numbers(acked[..i]);
        if acked[i].number > largest {
          largest := acked[i].number;
        }
        i := i + 1;
      }
      assert acked[..|acked|] == acked;
      if largest < 0 {
        return None;
      }
      if largest > 1 {
        return Some(largest - 2);
      }
      return Some(0);
    }
    var i := 0;
    while i < |lost|
      invariant i <= |lost| && largest == Largest(lost[..i])
    {
      assert lost[..i + 1][..i] == lost[..i];
      if lost[i] > largest {
        largest := lost[i];
      }
      i := i + 1;
    }
    assert lost[..|lost|] == lost;
    if largest < 0 {
      return None;
    }
    if largest == MAX_NUMBER {
      return Some(largest);
    }
    return Some(largest + 1);
  }
}
