/**
 The coded path end to end: frames packed into symbols, symbols coded, datagrams
 dropped by an in-order channel, symbols recovered, and frames handed up.
 */
module CodedPath {
  import opened LinearSystem
  import opened SymbolIds
  import opened DecoderModel
  import opened DecoderInvariant
  import opened Packing
  import opened Completion
  import D = DecoderRuns
  import F = SymbolFates
  import A = Assembly
  import W = WindowEncoder

  /** The receiving side: decoder, assembler, and every frame handed up so far. */
  datatype Receiver = Receiver(st: State, asm: A.Assembler, out: seq<Vector>)

  /** Recovered symbols go through the assembler like arrived ones. */
  function ArriveAll(a: A.Assembler, symbols: seq<Symbol>): (A.Assembler, seq<Vector>) {
    if symbols == [] then (a, []) else
      var n := |symbols| - 1;
      var before := ArriveAll(a, symbols[..n]);
      var last := A.Arrived(before.0, symbols[n].esi, symbols[n].vector);
      (last.state, before.1 + last.frames)
  }

  function LoseAll(a: A.Assembler, ids: seq<Id>): A.Assembler {
    if ids == [] then a else A.Lost(LoseAll(a, ids[..|ids| - 1]), ids[|ids| - 1])
  }

  /** What the decoder said about one arrival, passed on to the assembler. */
  function PassOn(a: A.Assembler, o: Outcome): (A.Assembler, seq<Vector>) {
    var r := ArriveAll(a, o.recovered);
    (LoseAll(r.0, o.lost), r.1)
  }

  /** One datagram. A source symbol is read by the assembler before the decoder takes it. */
  ghost function OnDatagram(stream: D.Stream, r: Receiver, pk: D.Packet): (q: Receiver)
    requires Sized(r.st)
    ensures Sized(q.st)
  {
    match pk
    case SourcePacket(id) =>
      var read := A.Arrived(r.asm, Wrap(id), stream(id));
      if !read.valid then Receiver(r.st, read.state, r.out + read.frames) else
        var o := D.Deliver(stream, r.st, pk);
        var p := PassOn(read.state, o);
        Receiver(o.state, p.0, r.out + read.frames + p.1)
    case RepairPacket(_, coefs, _) =>
      if |coefs| == 0 || |coefs| > MAX_REPAIR_WINDOW then r else
        var o := D.Deliver(stream, r.st, pk);
        var p := PassOn(r.asm, o);
        Receiver(o.state, p.0, r.out + p.1)
  }

  ghost function Receive(stream: D.Stream, packets: seq<D.Packet>): (r: Receiver)
    ensures Sized(r.st)
  {
    if packets == [] then Receiver(Initial(), A.Fresh(), []) else
      OnDatagram(stream, Receive(stream, packets[..|packets| - 1]), packets[|packets| - 1])
  }

  // ---------- the channel ----------

  /** A datagram the sender could have sent: a source symbol, or a combination of symbols it had sent. */
  ghost predicate Issued(vectors: seq<Vector>, pk: D.Packet) {
    && 0 <= D.Oldest(pk) && D.Newest(pk) < |vectors|
    && D.Genuine(W.Sent(vectors), pk)
  }

  /**
   What an in-order channel that only drops can deliver: a source symbol is sent
   before any repair covers it and before any later source symbol, so whatever
   arrived earlier concerns only older symbols.
   */
  ghost predicate InOrder(vectors: seq<Vector>, packets: seq<D.Packet>) {
    && (forall i :: 0 <= i < |packets| ==> Issued(vectors, packets[i]))
    && (forall i, j :: 0 <= i < j < |packets| && packets[j].SourcePacket? ==> D.Newest(packets[i]) < packets[j].id)
  }

  /** How many source symbols are among the datagrams. */
  function SourcesIn(packets: seq<D.Packet>): nat {
    if packets == [] then 0 else
      SourcesIn(packets[..|packets| - 1]) + if packets[|packets| - 1].SourcePacket? then 1 else 0
  }

  /** What the sender puts out: source symbols in order, and repairs over symbols already sent. */
  ghost predicate SentBy(vectors: seq<Vector>, sent: seq<D.Packet>) {
    forall i :: 0 <= i < |sent| ==>
      && Issued(vectors, sent[i])
      && (if sent[i].SourcePacket? then sent[i].id == SourcesIn(sent[..i])
         else D.Newest(sent[i]) < SourcesIn(sent[..i]))
  }

  lemma {:induction false} SourcesGrow(packets: seq<D.Packet>, i: nat, j: nat)
    requires i <= j <= |packets|
    ensures SourcesIn(packets[..i]) <= SourcesIn(packets[..j])
  {
    if i < j {
      SourcesGrow(packets, i, j - 1);
      assert packets[..j][..j - 1] == packets[..j - 1];
    }
  }

  /** A source symbol is newer than anything sent before it. */
  lemma SentBefore(vectors: seq<Vector>, sent: seq<D.Packet>, i: nat, j: nat)
    requires SentBy(vectors, sent) && i < j < |sent| && sent[j].SourcePacket?
    ensures D.Newest(sent[i]) < sent[j].id
  {
    hide Issued;
    SourcesGrow(sent, i + 1, j);
    assert sent[..i + 1][..i] == sent[..i];
  }

  /** Dropping any of what the sender put out, and nothing else, leaves an in-order arrival. */
  lemma DropOnlyIsInOrder(vectors: seq<Vector>, sent: seq<D.Packet>, kept: seq<nat>)
    requires SentBy(vectors, sent) && (forall k :: 0 <= k < |kept| ==> kept[k] < |sent|)
    requires forall k, m :: 0 <= k < m < |kept| ==> kept[k] < kept[m]
    ensures InOrder(vectors, seq(|kept|, k requires 0 <= k < |kept| => sent[kept[k]]))
  {
    hide Issued, SourcesIn;
    var packets := seq(|kept|, k requires 0 <= k < |kept| => sent[kept[k]]);
    forall i, j | 0 <= i < j < |packets| && packets[j].SourcePacket?
      ensures D.Newest(packets[i]) < packets[j].id
    {
      SentBefore(vectors, sent, kept[i], kept[j]);
    }
  }

  ghost function AsArrival(stream: D.Stream, pk: D.Packet): F.Arrival {
    match pk
    case SourcePacket(id) => F.SourceSymbol(id, stream(id))
    case RepairPacket(first, coefs, vector) => F.RepairSymbol(first, coefs, vector)
  }

  ghost function Arrivals(stream: D.Stream, packets: seq<D.Packet>): (a: seq<F.Arrival>)
    ensures |a| == |packets| && forall i :: 0 <= i < |a| ==> a[i] == AsArrival(stream, packets[i])
  {
    seq(|packets|, i requires 0 <= i < |packets| => AsArrival(stream, packets[i]))
  }

  /** The symbols that arrived or were recovered. */
  ghost function Got(f: F.Fates): set<nat> {
    set x: nat | x in f.accepted + f.recovered
  }

  // ---------- the account of one symbol ----------

  lemma OneFate(f: F.Fates, id: int)
    requires F.Accounted(f) && f.st.started
    ensures multiset(f.accepted)[id] + multiset(f.recovered)[id] + multiset(f.lost)[id] <= 1
    ensures id in f.accepted || id in f.recovered || id in f.lost ==> f.origin <= id < f.base + WIDTH
  {
    assert F.Tally(f)[id] == F.Due(f.st, f.base, f.origin, id);
  }

  /** The newest symbols recovered are new: none was got or lost before, and none comes twice. */
  lemma RecoveredAreNew(f: F.Fates, before: seq<int>, ids: seq<int>, k: nat)
    requires F.Accounted(f) && f.st.started && f.recovered == before + ids && k < |ids|
    ensures ids[k] !in f.accepted && ids[k] !in before && ids[k] !in ids[..k] && f.origin <= ids[k] < f.base + WIDTH
  {
    var x := ids[k];
    OneFate(f, x);
    assert ids == ids[..k] + [x] + ids[k + 1..];
    assert multiset(f.recovered)[x] == multiset(before)[x] + multiset(ids[..k])[x] + 1 + multiset(ids[k + 1..])[x];
  }

  lemma LostAreMissing(f: F.Fates, x: int)
    requires F.Accounted(f) && f.st.started && x in f.lost
    ensures x !in f.accepted && x !in f.recovered && f.origin <= x
  {
    OneFate(f, x);
  }

  // ---------- the assembler takes what the decoder says ----------

  ghost function SetOf(ids: seq<int>): set<nat> {
    set x: nat | x in ids
  }

  /** The symbol is the sender's, under its identifier, and in the window. */
  ghost predicate TrueSymbol(cargo: seq<Cargo>, base: int, s: Symbol, id: int) {
    && 0 <= id < |cargo| && base <= id < base + WIDTH && s.esi == Wrap(id)
    && Packing.Sendable(cargo[id]) && Padded(s.vector, VectorOf(cargo[id]))
  }

  lemma {:induction false} ArriveAllHeld(
    cargo: seq<Cargo>, a: A.Assembler, got: set<nat>, base: int, symbols: seq<Symbol>, ids: seq<int>)
    requires A.Sender(cargo) && A.Held(cargo, a, got, base) && |ids| == |symbols|
    requires forall k :: 0 <= k < |ids| ==> TrueSymbol(cargo, base, symbols[k], ids[k])
    requires forall k :: 0 <= k < |ids| ==> ids[k] !in got && ids[k] !in ids[..k]
    ensures var r := ArriveAll(a, symbols);
            && A.Held(cargo, r.0, got + SetOf(ids), base)
            && multiset(Complete(cargo, got + SetOf(ids), |cargo|))
               == multiset(Complete(cargo, got, |cargo|)) + multiset(r.1)
  {
    hide A.Sender, A.Held, Complete, A.Arrived, Padded, VectorOf;
    if symbols == [] {
      assert got + SetOf(ids) == got;
    } else {
      var n := |symbols| - 1;
      assert forall k :: 0 <= k < n ==> ids[..n][..k] == ids[..k];
      ArriveAllHeld(cargo, a, got, base, symbols[..n], ids[..n]);
      var more, r := got + SetOf(ids[..n]), ArriveAll(a, symbols[..n]);
      assert TrueSymbol(cargo, base, symbols[n], ids[n]);
      assert ids[n] !in more;
      ArriveOne(cargo, r.0, more, base, symbols[n], ids[n]);
      SetOfSnoc(ids, n);
      assert got + SetOf(ids) == more + {ids[n] as nat};
    }
  }

  lemma ArriveOne(cargo: seq<Cargo>, a: A.Assembler, got: set<nat>, base: int, s: Symbol, id: int)
    requires A.Sender(cargo) && A.Held(cargo, a, got, base) && TrueSymbol(cargo, base, s, id) && id !in got
    ensures var r := A.Arrived(a, s.esi, s.vector);
            && A.Held(cargo, r.state, got + {id as nat}, base)
            && multiset(Complete(cargo, got + {id as nat}, |cargo|))
               == multiset(Complete(cargo, got, |cargo|)) + multiset(r.frames)
  {
    hide A.Sender, A.Held, Complete, A.Arrived, Padded, VectorOf, A.Delivered;
    A.SenderAt(cargo, id);
    WrapSmall(id);
    A.ArrivedHeld(cargo, a, got, base, id, s.vector);
    CompleteGrows(cargo, got, id);
  }

  lemma SetOfSnoc(ids: seq<int>, n: nat)
    requires n + 1 == |ids| && ids[n] >= 0
    ensures SetOf(ids) == SetOf(ids[..n]) + {ids[n] as nat}
  {
    assert ids == ids[..n] + [ids[n]];
  }

  lemma {:induction false} LoseAllHeld(cargo: seq<Cargo>, a: A.Assembler, got: set<nat>, base: int, ids: seq<int>)
    requires A.Sender(cargo) && A.Held(cargo, a, got, base)
    requires forall k :: 0 <= k < |ids| ==> 0 <= ids[k] < |cargo| && ids[k] < base && ids[k] !in got
    ensures A.Held(cargo, LoseAll(a, F.WrapAll(ids)), got, base)
  {
    hide A.Sender, A.Held, A.Lost, Wrap;
    if ids != [] {
      var n := |ids| - 1;
      assert F.WrapAll(ids)[..n] == F.WrapAll(ids[..n]);
      LoseAllHeld(cargo, a, got, base, ids[..n]);
      A.Short(cargo);
      WrapSmall(ids[n]);
      A.LostHeld(cargo, LoseAll(a, F.WrapAll(ids[..n])), got, base, ids[n]);
    }
  }

  // ---------- one datagram ----------

  /** Everything the datagrams seen so far have established. */
  ghost predicate Linked(
    cargo: seq<Cargo>, vectors: seq<Vector>, seen: seq<D.Packet>, r: Receiver, c: D.Config, f: F.Fates) {
    && D.Faithful(W.Sent(vectors), c) && F.Accounted(f)
    && r.st == c.st == f.st && c.base == f.base
    && (if f.st.started then 0 <= f.origin && Reached(seen, f.base + WIDTH - 1) && f.base + WIDTH <= |cargo|
        else f.accepted == [] && f.recovered == [] && r.asm == A.Fresh())
    && A.Held(cargo, r.asm, Got(f), f.base)
    && multiset(r.out) == multiset(Complete(cargo, Got(f), |cargo|))
    && (forall id :: id in f.accepted <==> D.SourcePacket(id) in seen)
  }

  ghost predicate Reached(seen: seq<D.Packet>, newest: int) {
    exists i :: 0 <= i < |seen| && D.Newest(seen[i]) == newest
  }

  /** The datagram may come next. */
  ghost predicate Next(vectors: seq<Vector>, seen: seq<D.Packet>, pk: D.Packet) {
    && Issued(vectors, pk)
    && (pk.SourcePacket? ==> forall i :: 0 <= i < |seen| ==> D.Newest(seen[i]) < pk.id)
  }

  lemma WindowLow(f: F.Fates)
    requires F.Accounted(f) && f.st.started
    ensures f.origin < f.base + WIDTH
  {
  }

  lemma NextIsOrderly(
    cargo: seq<Cargo>, vectors: seq<Vector>, seen: seq<D.Packet>, r: Receiver, c: D.Config, f: F.Fates, pk: D.Packet)
    requires A.Sender(cargo) && |vectors| == |cargo| && Linked(cargo, vectors, seen, r, c, f) && Next(vectors, seen, pk)
    ensures F.Orderly(f, AsArrival(W.Sent(vectors), pk))
    ensures pk.SourcePacket? && f.st.started ==> pk.id >= f.base + WIDTH
  {
    hide A.Sender, A.Held, Complete, F.Accounted, D.Faithful, D.Genuine;
    A.Short(cargo);
    if f.st.started {
      WindowLow(f);
    }
  }

  lemma NextIsAdmissible(
    cargo: seq<Cargo>, vectors: seq<Vector>, seen: seq<D.Packet>, r: Receiver, c: D.Config, f: F.Fates, pk: D.Packet)
    requires A.Sender(cargo) && |vectors| == |cargo| && Linked(cargo, vectors, seen, r, c, f) && Next(vectors, seen, pk)
    ensures D.Admissible(W.Sent(vectors), c, pk)
  {
    hide A.Sender, A.Held, Complete, F.Accounted, D.Genuine, F.Orderly;
    A.Short(cargo);
    NextIsOrderly(cargo, vectors, seen, r, c, f, pk);
    if f.st.started {
      WindowLow(f);
    }
    if pk.SourcePacket? {
      AheadIsNoPivot(W.Sent(vectors), c, pk.id);
    }
  }

  lemma AheadIsNoPivot(stream: D.Stream, c: D.Config, id: int)
    requires D.Faithful(stream, c) && (c.st.started ==> c.base + WIDTH <= id && id - c.base < HALF)
    ensures D.NotAPivot(c.st, Wrap(id))
  {
    hide D.Sound, D.Exact, Mixed, Apart, D.Explains, D.AllRight;
    if c.st.started {
      forall j | 0 <= j < |c.st.rows|
        ensures c.st.rows[j].pivot != Wrap(id)
      {
        assert Led(c.st.lo, c.st.rows[j]);
        PivotInWindow(c.st.lo, c.st.rows[j]);
        WrapMinus(id, c.base);
        WrapSmall(id - c.base);
      }
    }
  }

  lemma PivotInWindow(lo: Id, r: Row)
    requires Led(lo, r)
    ensures Wrap(r.pivot - lo) < WIDTH
  {
    var s := Slot(r.pivot);
    OffsetInverse(lo, s);
    WrapPlus(lo + Offset(lo, s), -(lo as int));
    WrapSmall(Offset(lo, s));
  }

  /** The decoder and the account move together. */
  lemma StepTogether(stream: D.Stream, c: D.Config, f: F.Fates, pk: D.Packet)
    requires c.st == f.st && c.base == f.base && Sized(f.st) && D.Genuine(stream, pk)
    ensures var a, o := AsArrival(stream, pk), D.Deliver(stream, c.st, pk);
            && F.Receive(f.st, a) == o
            && D.Step(stream, c, pk).st == F.FateStep(f, a).st == o.state
            && D.Step(stream, c, pk).base == F.FateStep(f, a).base
            && D.Step(stream, c, pk).reports == c.reports + D.Reports(D.BaseAfter(c, pk), o.recovered)
            && D.BaseAfter(c, pk) == F.FateStep(f, a).base
            && (F.Seen(f, a) ==>
               F.FateStep(f, a).recovered == f.recovered + F.IdsOf(F.FateStep(f, a).base, o.recovered))
            && (F.Seen(f, a) ==> F.FateStep(f, a).base == D.NewBase(f.st, f.base, F.Last(a)))
            && (!F.Seen(f, a) ==> F.FateStep(f, a) == f.(st := o.state))
            && (pk.RepairPacket? ==> F.FateStep(f, a).accepted == f.accepted)
            && (F.Seen(f, a) ==> F.FateStep(f, a).origin == F.OriginAfter(f, a, F.FateStep(f, a).base))
  {
    hide Source, TakeRepair, F.LostIds, Admit, Witness, Known;
  }

  /** A source symbol ahead of the window is new to the decoder. */
  lemma NewSourceAccepted(f: F.Fates, a: F.Arrival)
    requires F.Accounted(f) && F.Orderly(f, a) && a.SourceSymbol? && (f.st.started ==> a.id >= f.base + WIDTH)
    ensures Sized(f.st) && F.FateStep(f, a).accepted == f.accepted + [a.id] && F.Seen(f, a)
  {
    hide Admit, Witness, F.LostIds, Behind, Wrap, F.AllAvoid;
    F.AccountedSized(f);
    F.AdmittedAndWitnessed(f, a);
    var base := D.NewBase(f.st, f.base, a.id);
    var origin, w, tally := F.OriginAfter(f, a, base), F.Witnessed(f, a), F.TallyOnEntry(f, a);
    F.LostIdsRange(f.st, f.base, if f.st.started && base > f.base then base - f.base else 0);
    assert tally[a.id] == F.Due(w, base, origin, a.id);
    assert F.Tally(f)[a.id] == 0 by { NotYet(f, a.id); }
    SlotOfWrap(a.id);
  }

  lemma NotYet(f: F.Fates, id: int)
    requires F.Accounted(f) && (f.st.started ==> id >= f.base + WIDTH)
    ensures F.Tally(f)[id] == 0
  {
    if f.st.started {
      assert F.Tally(f)[id] == F.Due(f.st, f.base, f.origin, id);
    }
  }

  /** The symbols recovered are the sender's. */
  lemma RecoveredAreTrue(cargo: seq<Cargo>, vectors: seq<Vector>, base: int, out: seq<Symbol>, k: nat)
    requires Encoded(vectors, cargo) && k < |out| && D.AllRight(W.Sent(vectors), D.Reports(base, out))
    requires 0 <= F.IdsOf(base, out)[k] < |cargo|
    ensures TrueSymbol(cargo, base, out[k], F.IdsOf(base, out)[k])
  {
    hide Padded, VectorOf, Packing.Sendable, Wrap;
    var reports := D.Reports(base, out);
    assert reports[k].id == F.IdsOf(base, out)[k];
    assert Padded(reports[k].vector, W.Sent(vectors)(reports[k].id)) && reports[k].esi == Wrap(reports[k].id);
  }

  /** What one datagram brings: the assembler to start from, what the decoder says, and the account after it. */
  datatype Batch = Batch(
    asm: A.Assembler, got: set<nat>, outcome: Outcome, fates: F.Fates, before: seq<int>, lost: seq<int>)

  /** The symbols recovered are new and true, those lost are missing for good, and the assembler is up to date. */
  ghost predicate Intake(cargo: seq<Cargo>, vectors: seq<Vector>, b: Batch) {
    var f, o := b.fates, b.outcome;
    && F.Accounted(f) && f.st.started && 0 <= f.origin && f.base + WIDTH <= |cargo|
    && f.recovered == b.before + F.IdsOf(f.base, o.recovered) && b.got == SetOf(f.accepted + b.before)
    && D.AllRight(W.Sent(vectors), D.Reports(f.base, o.recovered)) && A.Held(cargo, b.asm, b.got, f.base)
    && o.lost == F.WrapAll(b.lost) && (forall k :: 0 <= k < |b.lost| ==> b.lost[k] in f.lost && b.lost[k] < f.base)
  }

  lemma IntakeRecovered(cargo: seq<Cargo>, vectors: seq<Vector>, b: Batch, k: nat)
    requires Encoded(vectors, cargo) && Intake(cargo, vectors, b) && k < |b.outcome.recovered|
    ensures var ids := F.IdsOf(b.fates.base, b.outcome.recovered);
            && TrueSymbol(cargo, b.fates.base, b.outcome.recovered[k], ids[k])
            && ids[k] !in b.got && ids[k] !in ids[..k]
  {
    hide A.Held, F.Accounted, TrueSymbol, D.AllRight, Encoded;
    var ids := F.IdsOf(b.fates.base, b.outcome.recovered);
    RecoveredAreNew(b.fates, b.before, ids, k);
    RecoveredAreTrue(cargo, vectors, b.fates.base, b.outcome.recovered, k);
  }

  lemma IntakeLost(cargo: seq<Cargo>, vectors: seq<Vector>, b: Batch, k: nat)
    requires Intake(cargo, vectors, b) && k < |b.lost|
    ensures 0 <= b.lost[k] < |cargo| && b.lost[k] < b.fates.base && b.lost[k] !in Got(b.fates)
  {
    hide A.Held, F.Accounted, D.AllRight;
    LostAreMissing(b.fates, b.lost[k]);
  }

  /** The assembler after the first n recovered symbols. */
  lemma IntakeAfter(cargo: seq<Cargo>, vectors: seq<Vector>, b: Batch, n: nat)
    requires A.Sender(cargo) && Encoded(vectors, cargo) && Intake(cargo, vectors, b) && n <= |b.outcome.recovered|
    ensures var ids, r := F.IdsOf(b.fates.base, b.outcome.recovered)[..n], ArriveAll(b.asm, b.outcome.recovered[..n]);
            && A.Held(cargo, r.0, b.got + SetOf(ids), b.fates.base)
            && multiset(Complete(cargo, b.got + SetOf(ids), |cargo|))
               == multiset(Complete(cargo, b.got, |cargo|)) + multiset(r.1)
  {
    hide A.Sender, A.Held, Complete, F.Accounted, TrueSymbol, D.AllRight, ArriveAll, Encoded;
    var ids, symbols := F.IdsOf(b.fates.base, b.outcome.recovered), b.outcome.recovered;
    forall k | 0 <= k < n
      ensures TrueSymbol(cargo, b.fates.base, symbols[..n][k], ids[..n][k])
      ensures ids[..n][k] !in b.got && ids[..n][k] !in ids[..n][..k]
    {
      IntakeRecovered(cargo, vectors, b, k);
      assert ids[..n][..k] == ids[..k];
    }
    ArriveAllHeld(cargo, b.asm, b.got, b.fates.base, symbols[..n], ids[..n]);
  }

  /** What the decoder recovers completes exactly the frames handed up for it, and what it loses only dead ones. */
  lemma PassOnHeld(cargo: seq<Cargo>, vectors: seq<Vector>, b: Batch)
    requires A.Sender(cargo) && Encoded(vectors, cargo) && Intake(cargo, vectors, b)
    ensures var p := PassOn(b.asm, b.outcome);
            && A.Held(cargo, p.0, Got(b.fates), b.fates.base)
            && multiset(Complete(cargo, Got(b.fates), |cargo|))
               == multiset(Complete(cargo, b.got, |cargo|)) + multiset(p.1)
  {
    hide A.Sender, A.Held, Complete, F.Accounted, D.AllRight, ArriveAll, LoseAll, Encoded;
    var symbols := b.outcome.recovered;
    var ids := F.IdsOf(b.fates.base, symbols);
    IntakeAfter(cargo, vectors, b, |symbols|);
    assert symbols[..|symbols|] == symbols && ids[..|ids|] == ids;
    assert Got(b.fates) == b.got + SetOf(ids);
    forall k | 0 <= k < |b.lost|
      ensures 0 <= b.lost[k] < |cargo| && b.lost[k] < b.fates.base && b.lost[k] !in Got(b.fates)
    {
      IntakeLost(cargo, vectors, b, k);
    }
    LoseAllHeld(cargo, ArriveAll(b.asm, symbols).0, Got(b.fates), b.fates.base, b.lost);
  }

  lemma ReportsOfStep(stream: D.Stream, c: D.Config, pk: D.Packet, base: int, out: seq<Symbol>)
    requires Sized(c.st) && D.Faithful(stream, D.Step(stream, c, pk))
    requires D.Step(stream, c, pk).reports == c.reports + D.Reports(base, out)
    ensures D.AllRight(stream, D.Reports(base, out))
  {
    hide D.Tracks, D.Step, Padded;
    var all, new_ := D.Step(stream, c, pk).reports, D.Reports(base, out);
    forall k | 0 <= k < |new_|
      ensures Padded(new_[k].vector, stream(new_[k].id)) && new_[k].esi == Wrap(new_[k].id)
    {
      assert all[|c.reports| + k] == new_[k];
    }
  }

  /** The datagram as a batch: a source symbol has been read by the assembler before the decoder takes it. */
  ghost function BatchOf(stream: D.Stream, r: Receiver, f: F.Fates, pk: D.Packet): Batch
    requires Sized(r.st) && Sized(f.st)
  {
    var a := AsArrival(stream, pk);
    Batch(if pk.SourcePacket? then A.Arrived(r.asm, Wrap(pk.id), stream(pk.id)).state else r.asm,
          if pk.SourcePacket? && pk.id >= 0 then Got(f) + {pk.id as nat} else Got(f),
          D.Deliver(stream, r.st, pk), F.FateStep(f, a), f.recovered, F.Reported(f, a))
  }

  lemma SourceIntake(
    cargo: seq<Cargo>, vectors: seq<Vector>, seen: seq<D.Packet>, r: Receiver, c: D.Config, f: F.Fates, pk: D.Packet)
    requires A.Sender(cargo) && Encoded(vectors, cargo) && Linked(cargo, vectors, seen, r, c, f)
    requires Next(vectors, seen, pk) && pk.SourcePacket? && Sized(r.st)
    ensures var s, id := W.Sent(vectors), pk.id;
            var b, read := BatchOf(s, r, f, pk), A.Arrived(r.asm, Wrap(id), s(id));
            && Intake(cargo, vectors, b) && D.Faithful(s, D.Step(s, c, pk)) && 0 <= id < |cargo|
            && D.Step(s, c, pk).st == b.fates.st == b.outcome.state && D.Step(s, c, pk).base == b.fates.base
            && b.fates.base == id + 1 - WIDTH && b.fates.accepted == f.accepted + [id]
            && read.valid
            && multiset(Complete(cargo, b.got, |cargo|))
               == multiset(Complete(cargo, Got(f), |cargo|)) + multiset(read.frames)
            && A.Held(cargo, r.asm, Got(f), b.fates.base)
  {
    hide A.Sender, A.Held, Complete, F.Accounted, D.Faithful, A.Arrived, D.Deliver, D.Step, F.FateStep, F.Orderly,
         D.Admissible, D.Genuine, A.Delivered, Encoded, F.Receive, F.Reported, F.Silent;
    var s, id := W.Sent(vectors), pk.id;
    var a := AsArrival(s, pk);
    A.Short(cargo);
    assert |vectors| == |cargo| && Packing.Sendable(cargo[id]) && s(id) == VectorOf(cargo[id]) by {
      EncodedAt(vectors, cargo, id);
    }
    NextIsOrderly(cargo, vectors, seen, r, c, f, pk);
    NextIsAdmissible(cargo, vectors, seen, r, c, f, pk);
    D.SourceStep(s, c, id);
    F.FateStepAccounted(f, a);
    StepTogether(s, c, f, pk);
    NewSourceAccepted(f, a);
    var g, o := F.FateStep(f, a), D.Deliver(s, c.st, pk);
    SourceStarts(f, a);
    F.LossesAreReported(f, a);
    StartHeld(cargo, vectors, seen, r, c, f, g.base);
    assert id !in f.accepted && id !in f.recovered by { NotYetGot(f, id); }
    WrapSmall(id);
    PaddedSelf(s(id));
    A.ArrivedHeld(cargo, r.asm, Got(f), g.base, id, s(id));
    CompleteGrows(cargo, Got(f), id);
    assert Got(f) + {id as nat} == SetOf(g.accepted + f.recovered);
    ReportsOfStep(s, c, pk, g.base, o.recovered);
  }

  /** The assembler, once the window has moved on. */
  lemma StartHeld(
    cargo: seq<Cargo>, vectors: seq<Vector>, seen: seq<D.Packet>, r: Receiver, c: D.Config, f: F.Fates, base: int)
    requires Linked(cargo, vectors, seen, r, c, f) && (f.st.started ==> f.base <= base)
    ensures A.Held(cargo, r.asm, Got(f), base)
  {
    hide A.Held, Complete, F.Accounted, D.Faithful;
    if f.st.started {
      A.HeldLater(cargo, r.asm, Got(f), f.base, base);
    } else {
      A.FreshHeld(cargo, base);
      assert Got(f) == {};
    }
  }

  lemma SourceLinked(
    cargo: seq<Cargo>, vectors: seq<Vector>, seen: seq<D.Packet>, r: Receiver, c: D.Config, f: F.Fates, pk: D.Packet)
    requires A.Sender(cargo) && Encoded(vectors, cargo) && Linked(cargo, vectors, seen, r, c, f)
    requires Next(vectors, seen, pk) && pk.SourcePacket? && Sized(r.st)
    ensures var s := W.Sent(vectors);
            Linked(cargo, vectors, seen + [pk], OnDatagram(s, r, pk), D.Step(s, c, pk), F.FateStep(f, AsArrival(s, pk)))
  {
    hide A.Sender, A.Held, Complete, F.Accounted, D.Faithful, A.Arrived, PassOn, D.Deliver, D.Step, F.FateStep,
         Encoded, F.Reported, D.AllRight, Got, SetOf;
    var s := W.Sent(vectors);
    SourceIntake(cargo, vectors, seen, r, c, f, pk);
    PassOnHeld(cargo, vectors, BatchOf(s, r, f, pk));
    assert (seen + [pk])[|seen|] == pk;
  }

  lemma EncodedAt(vectors: seq<Vector>, cargo: seq<Cargo>, id: nat)
    requires Encoded(vectors, cargo) && id < |vectors|
    ensures |vectors| == |cargo| && Packing.Sendable(cargo[id]) && vectors[id] == VectorOf(cargo[id])
  {
  }

  lemma PaddedSelf(v: Vector)
    ensures Padded(v, v)
  {
  }

  lemma NotYetGot(f: F.Fates, id: int)
    requires F.Accounted(f) && (f.st.started ==> id >= f.base + WIDTH)
    ensures id !in f.accepted && id !in f.recovered
  {
    NotYet(f, id);
  }

  /** A source symbol ahead of the window becomes its newest. */
  lemma SourceStarts(f: F.Fates, a: F.Arrival)
    requires F.Accounted(f) && F.Orderly(f, a) && a.SourceSymbol? && (f.st.started ==> a.id >= f.base + WIDTH)
    requires 0 <= a.id && (f.st.started ==> 0 <= f.origin)
    ensures Sized(f.st) && var g := F.FateStep(f, a);
            g.st.started && g.base == a.id + 1 - WIDTH && 0 <= g.origin && (f.st.started ==> f.base <= g.base)
  {
    F.AccountedSized(f);
    F.FateStepAccounted(f, a);
    NewSourceAccepted(f, a);
    hide Source, TakeRepair, F.LostIds, Admit, Witness, Known, F.Fated;
    var g := F.FateStep(f, a);
    SaidMeansStarted(g, a.id);
  }

  lemma SaidMeansStarted(f: F.Fates, id: int)
    requires F.Accounted(f) && id in f.accepted
    ensures f.st.started
  {
    assert multiset(f.accepted)[id] >= 1;
    assert F.Tally(f)[id] >= 1;
  }

  lemma RepairIntake(
    cargo: seq<Cargo>, vectors: seq<Vector>, seen: seq<D.Packet>, r: Receiver, c: D.Config, f: F.Fates, pk: D.Packet)
    requires A.Sender(cargo) && Encoded(vectors, cargo) && Linked(cargo, vectors, seen, r, c, f)
    requires Next(vectors, seen, pk) && pk.RepairPacket? && Sized(r.st) && F.Seen(f, AsArrival(W.Sent(vectors), pk))
    ensures var s := W.Sent(vectors);
            var b := BatchOf(s, r, f, pk);
            && Intake(cargo, vectors, b) && D.Faithful(s, D.Step(s, c, pk)) && 0 < |pk.coefs| <= MAX_REPAIR_WINDOW
            && D.Step(s, c, pk).st == b.fates.st == b.outcome.state && D.Step(s, c, pk).base == b.fates.base
            && b.fates.base == D.NewBase(f.st, f.base, D.Newest(pk)) && b.fates.accepted == f.accepted
  {
    hide A.Sender, A.Held, Complete, F.Accounted, D.Faithful, D.Deliver, D.Step, F.FateStep, F.Orderly, D.Admissible,
         D.Genuine, Encoded, F.Receive, F.Reported, F.Silent;
    var s := W.Sent(vectors);
    var a := AsArrival(s, pk);
    assert D.Genuine(s, pk) && 0 < |pk.coefs| <= MAX_REPAIR_WINDOW by { GenuineSpan(s, pk); }
    assert |vectors| == |cargo| by { EncodedAt(vectors, cargo, D.Newest(pk)); }
    NextIsOrderly(cargo, vectors, seen, r, c, f, pk);
    NextIsAdmissible(cargo, vectors, seen, r, c, f, pk);
    D.RepairStep(s, c, pk);
    F.FateStepAccounted(f, a);
    StepTogether(s, c, f, pk);
    var g, o := F.FateStep(f, a), D.Deliver(s, c.st, pk);
    RepairStarts(f, a);
    F.LossesAreReported(f, a);
    StartHeld(cargo, vectors, seen, r, c, f, g.base);
    assert Got(f) == SetOf(g.accepted + f.recovered);
    ReportsOfStep(s, c, pk, g.base, o.recovered);
    assert g.base + WIDTH <= |cargo|;
  }

  lemma RepairLinked(
    cargo: seq<Cargo>, vectors: seq<Vector>, seen: seq<D.Packet>, r: Receiver, c: D.Config, f: F.Fates, pk: D.Packet)
    requires A.Sender(cargo) && Encoded(vectors, cargo) && Linked(cargo, vectors, seen, r, c, f)
    requires Next(vectors, seen, pk) && pk.RepairPacket? && Sized(r.st) && F.Seen(f, AsArrival(W.Sent(vectors), pk))
    ensures var s := W.Sent(vectors);
            Linked(cargo, vectors, seen + [pk], OnDatagram(s, r, pk), D.Step(s, c, pk), F.FateStep(f, AsArrival(s, pk)))
  {
    hide A.Sender, A.Held, Complete, F.Accounted, D.Faithful, PassOn, D.Deliver, D.Step, F.FateStep, Encoded,
         F.Reported, D.AllRight, Got, SetOf;
    var s := W.Sent(vectors);
    var b := BatchOf(s, r, f, pk);
    RepairIntake(cargo, vectors, seen, r, c, f, pk);
    PassOnHeld(cargo, vectors, b);
    StillReached(seen, pk, f, b.fates);
  }

  lemma StillReached(seen: seq<D.Packet>, pk: D.Packet, f: F.Fates, g: F.Fates)
    requires g.base == D.NewBase(f.st, f.base, D.Newest(pk)) && (f.st.started ==> Reached(seen, f.base + WIDTH - 1))
    ensures Reached(seen + [pk], g.base + WIDTH - 1)
  {
    var all := seen + [pk];
    assert all[|seen|] == pk;
    if f.st.started {
      var i :| 0 <= i < |seen| && D.Newest(seen[i]) == f.base + WIDTH - 1;
      assert all[i] == seen[i];
    }
  }

  lemma GenuineSpan(s: D.Stream, pk: D.Packet)
    requires D.Genuine(s, pk) && pk.RepairPacket?
    ensures 0 < |pk.coefs| <= MAX_REPAIR_WINDOW
  {
  }

  lemma RepairStarts(f: F.Fates, a: F.Arrival)
    requires F.Accounted(f) && F.Orderly(f, a) && a.RepairSymbol? && F.Seen(f, a)
    requires 0 <= a.first && (f.st.started ==> 0 <= f.origin)
    ensures Sized(f.st) && var g := F.FateStep(f, a);
            g.st.started && 0 <= g.origin && (f.st.started ==> f.base <= g.base)
  {
    hide F.LostIds, Admit, Witness, Known, F.Fated, Insert, Spread, Behind, Wrap;
    F.AccountedSized(f);
    F.AdmittedAndWitnessed(f, a);
    var base := D.NewBase(f.st, f.base, F.Last(a));
    F.FatedFacts(F.Witnessed(f, a), base, F.OriginAfter(f, a, base), F.TallyOnEntry(f, a));
    F.InsertKeepsWindow(F.Witnessed(f, a), Row(0, Spread(Wrap(a.first), a.coefs), a.vector));
    WrapPlus(a.first, |a.coefs| - 1);
  }

  /** A repair the decoder does not look at changes nothing. */
  lemma UnseenLinked(
    cargo: seq<Cargo>, vectors: seq<Vector>, seen: seq<D.Packet>, r: Receiver, c: D.Config, f: F.Fates, pk: D.Packet)
    requires A.Sender(cargo) && Encoded(vectors, cargo) && Linked(cargo, vectors, seen, r, c, f)
    requires Next(vectors, seen, pk) && pk.RepairPacket? && Sized(r.st) && !F.Seen(f, AsArrival(W.Sent(vectors), pk))
    ensures var s := W.Sent(vectors);
            Linked(cargo, vectors, seen + [pk], OnDatagram(s, r, pk), D.Step(s, c, pk), F.FateStep(f, AsArrival(s, pk)))
  {
    hide A.Sender, A.Held, Complete, F.Accounted, D.Faithful, D.Deliver, D.Step, F.FateStep, F.Orderly, D.Admissible,
         D.Genuine, Encoded, F.Receive;
    var s := W.Sent(vectors);
    var a := AsArrival(s, pk);
    assert D.Genuine(s, pk) && 0 < |pk.coefs| <= MAX_REPAIR_WINDOW by { GenuineSpan(s, pk); }
    assert |vectors| == |cargo| by { EncodedAt(vectors, cargo, D.Newest(pk)); }
    NextIsOrderly(cargo, vectors, seen, r, c, f, pk);
    NextIsAdmissible(cargo, vectors, seen, r, c, f, pk);
    D.RepairStep(s, c, pk);
    F.FateStepAccounted(f, a);
    StepTogether(s, c, f, pk);
    F.UnseenChangesNothing(f, a);
    assert F.WrapAll([]) == [];
    assert r.out + [] == r.out;
    if f.st.started {
      var i :| 0 <= i < |seen| && D.Newest(seen[i]) == f.base + WIDTH - 1;
      assert (seen + [pk])[i] == seen[i];
    }
  }

  // ---------- the whole run ----------

  lemma NextOf(vectors: seq<Vector>, packets: seq<D.Packet>)
    requires InOrder(vectors, packets) && packets != []
    ensures InOrder(vectors, packets[..|packets| - 1])
    ensures Next(vectors, packets[..|packets| - 1], packets[|packets| - 1])
  {
    hide Issued;
  }

  lemma StartLinked(cargo: seq<Cargo>, vectors: seq<Vector>)
    requires A.Sender(cargo) && Encoded(vectors, cargo)
    ensures Linked(cargo, vectors, [], Receiver(Initial(), A.Fresh(), []), D.Start(), F.NoFates())
  {
    hide A.Sender, A.Held, Complete, Encoded;
    D.StartFaithful(W.Sent(vectors));
    F.NoFatesAccounted();
    A.FreshHeld(cargo, 0);
    assert Got(F.NoFates()) == {};
    NothingComplete(cargo, |cargo|);
  }

  ghost function FateOf(vectors: seq<Vector>, packets: seq<D.Packet>): (f: F.Fates)
    ensures Sized(f.st)
  {
    F.FateRun(Arrivals(W.Sent(vectors), packets))
  }

  lemma {:induction false} RunLinked(cargo: seq<Cargo>, vectors: seq<Vector>, packets: seq<D.Packet>)
    requires A.Sender(cargo) && Encoded(vectors, cargo) && InOrder(vectors, packets)
    ensures var s := W.Sent(vectors);
            Linked(cargo, vectors, packets, Receive(s, packets), D.Run(s, packets), FateOf(vectors, packets))
  {
    hide A.Sender, Encoded, Linked, OnDatagram, D.Step, F.FateStep, InOrder, Next, F.Seen;
    var s := W.Sent(vectors);
    if packets == [] {
      StartLinked(cargo, vectors);
    } else {
      var n := |packets| - 1;
      var seen, pk := packets[..n], packets[n];
      NextOf(vectors, packets);
      RunLinked(cargo, vectors, seen);
      var r, c, f := Receive(s, seen), D.Run(s, seen), FateOf(vectors, seen);
      assert Arrivals(s, packets)[..n] == Arrivals(s, seen);
      assert seen + [pk] == packets;
      if pk.SourcePacket? {
        SourceLinked(cargo, vectors, seen, r, c, f, pk);
      } else if F.Seen(f, AsArrival(s, pk)) {
        RepairLinked(cargo, vectors, seen, r, c, f, pk);
      } else {
        UnseenLinked(cargo, vectors, seen, r, c, f, pk);
      }
    }
  }

  /** Such a channel meets the hypotheses of the decoder's theorems: no source ever leads a row still held. */
  lemma {:induction false} InOrderIsAdmissible(cargo: seq<Cargo>, vectors: seq<Vector>, packets: seq<D.Packet>)
    requires A.Sender(cargo) && Encoded(vectors, cargo) && InOrder(vectors, packets)
    ensures D.AdmissibleRun(W.Sent(vectors), packets) && F.OrderlyRun(Arrivals(W.Sent(vectors), packets))
  {
    hide A.Sender, Linked, D.Step, F.FateStep, InOrder, Next, D.Admissible, F.Orderly, Packing.Sendable, VectorOf;
    var s := W.Sent(vectors);
    if packets != [] {
      var n := |packets| - 1;
      var seen := packets[..n];
      NextOf(vectors, packets);
      InOrderIsAdmissible(cargo, vectors, seen);
      RunLinked(cargo, vectors, seen);
      assert Arrivals(s, packets)[..n] == Arrivals(s, seen);
      NextIsAdmissible(cargo, vectors, seen, Receive(s, seen), D.Run(s, seen), FateOf(vectors, seen), packets[n]);
      NextIsOrderly(cargo, vectors, seen, Receive(s, seen), D.Run(s, seen), FateOf(vectors, seen), packets[n]);
    }
  }

  /**
   End to end, over any in-order channel that only drops: what has been handed up is
   exactly the frames whose every symbol arrived or was recovered, byte for byte and
   once each; no other frame, and nothing else.
   */
  lemma FramesSurviveErasure(cargo: seq<Cargo>, vectors: seq<Vector>, packets: seq<D.Packet>)
    requires A.Sender(cargo) && Encoded(vectors, cargo) && InOrder(vectors, packets)
    ensures var f, out := FateOf(vectors, packets), Receive(W.Sent(vectors), packets).out;
            && multiset(out) == multiset(Complete(cargo, Got(f), |cargo|))
            && (forall id: nat :: id in Got(f) <==> D.SourcePacket(id) in packets || id in f.recovered)
            && ((forall id: nat :: id < |cargo| ==> id in Got(f)) ==> multiset(out) == multiset(FramesIn(cargo)))
  {
    hide A.Sender, Encoded, Complete, A.Held, D.Faithful, F.Accounted, FramesIn;
    RunLinked(cargo, vectors, packets);
    var f := FateOf(vectors, packets);
    if forall id: nat :: id < |cargo| ==> id in Got(f) {
      EverythingComplete(cargo, Got(f), |cargo|);
      assert cargo[..|cargo|] == cargo;
    }
  }

  // ---------- pruning ----------

  /** Noting the symbol drops only groups wholly behind the window: nothing missing from them can still be recovered. */
  ghost predicate DropsOnlyBehind(cargo: seq<Cargo>, a: A.Assembler, esi: Id, base: int) {
    forall first :: first in a.groups && first !in A.Note(a, esi).groups ==>
      A.Heads(cargo, first) && first + A.Size(cargo, first) < base
  }

  lemma NoteDropsBehind(cargo: seq<Cargo>, a: A.Assembler, got: set<nat>, base: int, id: nat)
    requires A.Sender(cargo) && A.Held(cargo, a, got, base) && id < |cargo| && id < base + WIDTH
    ensures id < MODULUS && DropsOnlyBehind(cargo, a, id, base)
  {
    hide A.Sender, A.GroupHolds, A.Settled, A.Prune, A.Heads;
    A.Short(cargo);
    forall first | first in a.groups && first !in A.Note(a, id).groups
      ensures A.Heads(cargo, first) && first + A.Size(cargo, first) < base
    {
      A.PruneOnlyBehind(cargo, a.(high := id), got, base, first);
    }
  }

  /** The same for every symbol that one batch makes the assembler note. */
  lemma BatchDropsBehind(cargo: seq<Cargo>, vectors: seq<Vector>, b: Batch)
    requires A.Sender(cargo) && Encoded(vectors, cargo) && Intake(cargo, vectors, b)
    ensures var o, base := b.outcome, b.fates.base;
            && (forall k :: 0 <= k < |o.recovered| ==>
                  DropsOnlyBehind(cargo, ArriveAll(b.asm, o.recovered[..k]).0, o.recovered[k].esi, base))
            && (forall k :: 0 <= k < |o.lost| ==>
                  DropsOnlyBehind(cargo, LoseAll(ArriveAll(b.asm, o.recovered).0, o.lost[..k]), o.lost[k], base))
  {
    hide A.Sender, A.Held, Complete, F.Accounted, D.AllRight, ArriveAll, LoseAll, Encoded, DropsOnlyBehind, Wrap;
    var o, base, ids := b.outcome, b.fates.base, F.IdsOf(b.fates.base, b.outcome.recovered);
    A.Short(cargo);
    forall k | 0 <= k < |o.recovered|
      ensures DropsOnlyBehind(cargo, ArriveAll(b.asm, o.recovered[..k]).0, o.recovered[k].esi, base)
    {
      IntakeAfter(cargo, vectors, b, k);
      IntakeRecovered(cargo, vectors, b, k);
      WrapSmall(ids[k]);
      NoteDropsBehind(cargo, ArriveAll(b.asm, o.recovered[..k]).0, b.got + SetOf(ids[..k]), base, ids[k]);
    }
    IntakeAfter(cargo, vectors, b, |o.recovered|);
    assert o.recovered[..|o.recovered|] == o.recovered && ids[..|ids|] == ids;
    assert Got(b.fates) == b.got + SetOf(ids);
    forall k | 0 <= k < |o.lost|
      ensures DropsOnlyBehind(cargo, LoseAll(ArriveAll(b.asm, o.recovered).0, o.lost[..k]), o.lost[k], base)
    {
      forall j | 0 <= j <= k
        ensures 0 <= b.lost[j] < |cargo| && b.lost[j] < base && b.lost[j] !in Got(b.fates)
      {
        IntakeLost(cargo, vectors, b, j);
      }
      assert o.lost[..k] == F.WrapAll(b.lost[..k]);
      LoseAllHeld(cargo, ArriveAll(b.asm, o.recovered).0, Got(b.fates), base, b.lost[..k]);
      WrapSmall(b.lost[k]);
      NoteDropsBehind(cargo, LoseAll(ArriveAll(b.asm, o.recovered).0, o.lost[..k]), Got(b.fates), base, b.lost[k]);
    }
  }

  /**
   Pruning never drops a group whose missing fragment the decoder could still recover:
   whichever symbol of the next datagram makes the assembler prune, the source it
   carries, one it recovers or one it loses, every group dropped lies wholly behind the
   window as that datagram leaves it.
   */
  lemma PruneDropsNothingRecoverable(cargo: seq<Cargo>, vectors: seq<Vector>, packets: seq<D.Packet>, pk: D.Packet)
    requires A.Sender(cargo) && Encoded(vectors, cargo) && InOrder(vectors, packets + [pk])
    ensures var s := W.Sent(vectors);
            var r, base := Receive(s, packets), FateOf(vectors, packets + [pk]).base;
            var b := BatchOf(s, r, FateOf(vectors, packets), pk);
            && (pk.SourcePacket? ==> base == pk.id + 1 - WIDTH && DropsOnlyBehind(cargo, r.asm, Wrap(pk.id), base))
            && (forall k :: 0 <= k < |b.outcome.recovered| ==>
                  DropsOnlyBehind(cargo, ArriveAll(b.asm, b.outcome.recovered[..k]).0,
                                  b.outcome.recovered[k].esi, base))
            && (forall k :: 0 <= k < |b.outcome.lost| ==>
                  DropsOnlyBehind(cargo, LoseAll(ArriveAll(b.asm, b.outcome.recovered).0, b.outcome.lost[..k]),
                                  b.outcome.lost[k], base))
  {
    hide A.Sender, Encoded, Linked, InOrder, Next, F.Seen, Intake, ArriveAll, LoseAll, DropsOnlyBehind, D.Step,
         F.FateStep, D.Deliver, A.Arrived, F.Reported, Complete, D.Faithful, A.Held, Got, Wrap;
    var s, all := W.Sent(vectors), packets + [pk];
    assert all[..|packets|] == packets && all[|packets|] == pk;
    NextOf(vectors, all);
    RunLinked(cargo, vectors, packets);
    var r, c, f := Receive(s, packets), D.Run(s, packets), FateOf(vectors, packets);
    assert Arrivals(s, all)[..|packets|] == Arrivals(s, packets);
    var b := BatchOf(s, r, f, pk);
    assert FateOf(vectors, all) == b.fates;
    if pk.SourcePacket? {
      SourceIntake(cargo, vectors, packets, r, c, f, pk);
      BatchDropsBehind(cargo, vectors, b);
      A.Short(cargo);
      WrapSmall(pk.id);
      NoteDropsBehind(cargo, r.asm, Got(f), b.fates.base, pk.id);
    } else if F.Seen(f, AsArrival(s, pk)) {
      RepairIntake(cargo, vectors, packets, r, c, f, pk);
      BatchDropsBehind(cargo, vectors, b);
    } else {
      UnseenBatch(cargo, vectors, packets, r, c, f, pk);
    }
  }

  lemma UnseenBatch(
    cargo: seq<Cargo>, vectors: seq<Vector>, seen: seq<D.Packet>, r: Receiver, c: D.Config, f: F.Fates, pk: D.Packet)
    requires A.Sender(cargo) && Encoded(vectors, cargo) && Linked(cargo, vectors, seen, r, c, f)
    requires Next(vectors, seen, pk) && pk.RepairPacket? && Sized(r.st) && !F.Seen(f, AsArrival(W.Sent(vectors), pk))
    ensures D.Deliver(W.Sent(vectors), r.st, pk).recovered == [] && D.Deliver(W.Sent(vectors), r.st, pk).lost == []
  {
    hide A.Sender, A.Held, Complete, F.Accounted, D.Faithful, F.Orderly, D.Genuine, Encoded, Source, TakeRepair;
    var s := W.Sent(vectors);
    assert D.Genuine(s, pk) && 0 < |pk.coefs| <= MAX_REPAIR_WINDOW by { GenuineSpan(s, pk); }
    assert |vectors| == |cargo| by { EncodedAt(vectors, cargo, D.Newest(pk)); }
    NextIsOrderly(cargo, vectors, seen, r, c, f, pk);
    F.UnseenChangesNothing(f, AsArrival(s, pk));
    StepTogether(s, c, f, pk);
  }
}
