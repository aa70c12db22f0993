/**
 The sending side as a whole: frames packed into symbols, each symbol added to the
 window and sent, the window resized and repairs sent in between as the coding policy
 asks. Whatever it asks, what goes out is what the end-to-end theorem needs.
 */
module CodedSender {
  import opened GaloisField
  import opened LinearSystem
  import opened SymbolIds
  import opened Frames
  import opened Packing
  import opened Completion
  import A = Assembly
  import C = CodedPath
  import D = DecoderRuns
  import W = WindowEncoder

  // ---------- one symbol after another ----------

  /** A repair asked for over the newest count symbols, or over all that are held. */
  datatype Asked = Asked(rid: Id, count: int)

  /** What the policy asks around one symbol: the window's capacity, and the repairs after it. */
  datatype Plan = Plan(capacity: int, repairs: seq<Asked>)

  /** The symbols added so far, the window over the newest of them, and everything handed to the carrier. */
  datatype Line = Line(vectors: seq<Vector>, ring: nat, held: nat, sent: seq<D.Packet>)

  predicate Proper(l: Line) {
    l.held <= |l.vectors| && l.held <= l.ring <= MAX_REPAIR_WINDOW
  }

  function Resized(l: Line, capacity: int): Line {
    var ring := W.RingFor(capacity);
    l.(ring := ring, held := if l.held <= ring then l.held else ring)
  }

  function Added(l: Line, v: Vector): Line {
    l.(vectors := l.vectors + [v], held := if l.held < l.ring then l.held + 1 else l.held,
       sent := l.sent + [D.SourcePacket(|l.vectors|)])
  }

  function SendRepair(l: Line, a: Asked): Line
    requires Proper(l)
  {
    if l.held == 0 then l else l.(sent := l.sent + [W.RepairOver(l.vectors, a.rid, W.SpanFor(l.held, a.count))])
  }

  function SendRepairs(l: Line, asked: seq<Asked>): (r: Line)
    requires Proper(l)
    ensures Proper(r) && r == l.(sent := r.sent)
  {
    if asked == [] then l else SendRepair(SendRepairs(l, asked[..|asked| - 1]), asked[|asked| - 1])
  }

  /** The window is resized, the symbol added and sent, and repairs follow. */
  function PutOut(l: Line, v: Vector, plan: Plan): (r: Line)
    requires Proper(l)
    ensures Proper(r) && r.vectors == l.vectors + [v]
  {
    ResizedProper(l, plan.capacity);
    SendRepairs(Added(Resized(l, plan.capacity), v), plan.repairs)
  }

  lemma ResizedProper(l: Line, capacity: int)
    requires Proper(l)
    ensures Proper(Resized(l, capacity)) && Resized(l, capacity).ring > 0
  {
    W.RingIsSmall(if capacity > MAX_REPAIR_WINDOW then MAX_REPAIR_WINDOW else capacity);
  }

  /** The policy may ask for something else around every symbol. */
  type Policy = nat -> Plan

  function PutOutAll(l: Line, vectors: seq<Vector>, policy: Policy): (r: Line)
    requires Proper(l)
    ensures Proper(r) && r.vectors == l.vectors + vectors
  {
    if vectors == [] then l else
      var n := |vectors| - 1;
      PutOut(PutOutAll(l, vectors[..n], policy), vectors[n], policy(|l.vectors| + n))
  }

  /** The encoder, driven one symbol at a time. */
  class SendSide {
    const encoder: W.Encoder
    /** Everything handed to the carrier, by true identifiers. */
    ghost var sent: seq<D.Packet>

    ghost predicate Valid()
      reads this, encoder
    {
      encoder.Valid() && Proper(Model())
    }

    ghost function Model(): Line
      reads this, encoder
    {
      Line(encoder.symbols, |encoder.ring|, encoder.held, sent)
    }

    constructor (capacity: int)
      ensures Valid() && fresh(encoder) && Model() == Line([], W.RingFor(capacity), 0, [])
    {
      encoder := new W.Encoder(capacity);
      sent := [];
      new;
      ResizedProper(Line([], 0, 0, []), capacity);
    }

    method EmitRepair(a: Asked)
      requires Valid()
      modifies this`sent
      ensures Valid() && Model() == SendRepair(old(Model()), a)
    {
      hide W.RepairOver, W.PacketOf;
      var ok, repair := encoder.Repair(a.rid, a.count);
      if ok {
        sent := sent + [W.PacketOf(repair, |encoder.symbols| - repair.count)];
      }
    }

    method Emit(vector: Vector, plan: Plan)
      requires Valid()
      modifies this, encoder
      ensures Valid() && Model() == PutOut(old(Model()), vector, plan)
    {
      hide SendRepair, Proper;
      ghost var start := Model();
      ResizedProper(start, plan.capacity);
      encoder.SetCapacity(plan.capacity);
      assert Model() == Resized(start, plan.capacity);
      var esi := encoder.Add(vector);
      sent := sent + [D.SourcePacket(|encoder.symbols| - 1)];
      ghost var added := Model();
      assert added == Added(Resized(start, plan.capacity), vector);
      AddedProper(Resized(start, plan.capacity), vector);
      var i := 0;
      assert plan.repairs[..0] == [];
      while i < |plan.repairs|
        invariant i <= |plan.repairs| && Valid() && Proper(added) && Model() == SendRepairs(added, plan.repairs[..i])
        modifies this`sent
      {
        assert plan.repairs[..i + 1][..i] == plan.repairs[..i];
        EmitRepair(plan.repairs[i]);
        i := i + 1;
      }
      assert plan.repairs[..|plan.repairs|] == plan.repairs;
    }
  }

  lemma AddedProper(l: Line, v: Vector)
    requires Proper(l)
    ensures Proper(Added(l, v))
  {
  }

  // ---------- what goes out is in order and genuine ----------

  /** Sources in order, and repairs that are true of the stream over symbols already sent. */
  ghost predicate Orderly(l: Line) {
    Proper(l) && C.SentBy(l.vectors, l.sent) && C.SourcesIn(l.sent) == |l.vectors|
  }

  /** A longer stream does not change what was sent. */
  lemma StillSendable(vectors: seq<Vector>, later: seq<Vector>, pk: D.Packet)
    requires C.Issued(vectors, pk) && vectors <= later
    ensures C.Issued(later, pk)
  {
    hide D.Satisfies;
    if pk.RepairPacket? {
      W.GenuineForEver(vectors, later, pk);
    }
  }

  lemma StillSentBy(vectors: seq<Vector>, later: seq<Vector>, sent: seq<D.Packet>)
    requires C.SentBy(vectors, sent) && vectors <= later
    ensures C.SentBy(later, sent)
  {
    hide C.Issued;
    forall i | 0 <= i < |sent|
      ensures C.Issued(later, sent[i])
    {
      StillSendable(vectors, later, sent[i]);
    }
  }

  lemma SentBySnoc(vectors: seq<Vector>, sent: seq<D.Packet>, pk: D.Packet)
    requires C.SentBy(vectors, sent) && C.Issued(vectors, pk)
    requires if pk.SourcePacket? then pk.id == C.SourcesIn(sent) else D.Newest(pk) < C.SourcesIn(sent)
    ensures C.SentBy(vectors, sent + [pk])
    ensures C.SourcesIn(sent + [pk]) == C.SourcesIn(sent) + if pk.SourcePacket? then 1 else 0
  {
    hide C.Issued;
    var all := sent + [pk];
    assert all[..|sent|] == sent;
    assert forall i :: 0 <= i <= |sent| ==> all[..i] == sent[..i];
    assert sent[..|sent|] == sent;
  }

  lemma AddedOrderly(l: Line, v: Vector)
    requires Orderly(l)
    ensures Orderly(Added(l, v))
  {
    hide C.SentBy, C.SourcesIn;
    var later := l.vectors + [v];
    StillSentBy(l.vectors, later, l.sent);
    SentBySnoc(later, l.sent, D.SourcePacket(|l.vectors|));
  }

  lemma RepairOrderly(l: Line, a: Asked)
    requires Orderly(l)
    ensures Orderly(SendRepair(l, a))
  {
    hide C.SentBy, C.SourcesIn, D.Genuine, W.RepairVector;
    if l.held > 0 {
      var span := W.SpanFor(l.held, a.count);
      var pk := W.RepairOver(l.vectors, a.rid, span);
      W.RepairOverIsGenuine(l.vectors, a.rid, span);
      SentBySnoc(l.vectors, l.sent, pk);
    }
  }

  lemma {:induction false} RepairsOrderly(l: Line, asked: seq<Asked>)
    requires Orderly(l)
    ensures Orderly(SendRepairs(l, asked))
  {
    hide Orderly, SendRepair;
    assert Proper(l) by { OrderlyProper(l); }
    if asked != [] {
      RepairsOrderly(l, asked[..|asked| - 1]);
      RepairOrderly(SendRepairs(l, asked[..|asked| - 1]), asked[|asked| - 1]);
    }
  }

  lemma OrderlyProper(l: Line)
    requires Orderly(l)
    ensures Proper(l)
  {
  }

  lemma {:induction false} PutOutAllOrderly(l: Line, vectors: seq<Vector>, policy: Policy)
    requires Orderly(l)
    ensures Proper(l) && Orderly(PutOutAll(l, vectors, policy))
  {
    hide C.SentBy, C.SourcesIn, SendRepairs, Proper;
    OrderlyProper(l);
    if vectors != [] {
      var n := |vectors| - 1;
      PutOutAllOrderly(l, vectors[..n], policy);
      var before, plan := PutOutAll(l, vectors[..n], policy), policy(|l.vectors| + n);
      ResizedProper(before, plan.capacity);
      AddedOrderly(Resized(before, plan.capacity), vectors[n]);
      RepairsOrderly(Added(Resized(before, plan.capacity), vectors[n]), plan.repairs);
    }
  }

  // ---------- the sender over a run ----------

  datatype Sender = Sender(packed: Packed, line: Line)

  datatype Event =
    | Frame(frame: Vector, limit: nat)
    | Flush
    /** Repairs over the burst that has just ended. */
    | Protect(repairs: seq<Asked>)

  /** The limit is one a symbol can have. */
  predicate InRange(e: Event) {
    e.Frame? ==> FRAME_HEADER < e.limit <= MAX_PAYLOAD
  }

  /** Everything packed can be encoded. */
  ghost predicate WellPacked(p: Packed) {
    && Carried(p.waiting) && |Pack(p.waiting)| <= MAX_PAYLOAD && Grouped(p.cargo)
    && forall i :: 0 <= i < |p.cargo| ==> Sendable(p.cargo[i])
  }

  ghost function EncodeAll(cargo: seq<Cargo>): (v: seq<Vector>)
    requires forall i :: 0 <= i < |cargo| ==> Sendable(cargo[i])
    ensures Encoded(v, cargo)
  {
    seq(|cargo|, i requires 0 <= i < |cargo| => VectorOf(cargo[i]))
  }

  function Packs(p: Packed, e: Event): Packed
    requires InRange(e)
  {
    match e
    case Frame(frame, limit) => Append(p, frame, limit)
    case Flush => Flushed(p)
    case Protect(_) => p
  }

  lemma FlushedWell(p: Packed)
    requires WellPacked(p)
    ensures WellPacked(Flushed(p)) && p.cargo <= Flushed(p).cargo
  {
    hide Grouped, Pack, Carried;
    GroupedWhole(p.cargo, p.waiting);
    PackNothing();
  }

  lemma PacksWell(p: Packed, e: Event)
    requires WellPacked(p) && InRange(e)
    ensures WellPacked(Packs(p, e)) && p.cargo <= Packs(p, e).cargo
  {
    hide Grouped, Pack, Carried, FragmentCount;
    FlushedWell(p);
    PackNothing();
    if e.Frame? {
      var q := Flushed(p);
      var count := FragmentCount(|e.frame|, e.limit);
      GroupedParts(q.cargo, e.frame, e.limit);
      PackSnoc(p.waiting, e.frame);
      PackSnoc([], e.frame);
      if FRAME_HEADER + |e.frame| <= e.limit {
        CarriedSnoc(p.waiting, e.frame);
        CarriedSnoc([], e.frame);
      }
    }
  }

  ghost function Step(s: Sender, e: Event, policy: Policy): Sender
    requires WellPacked(s.packed) && InRange(e) && Proper(s.line)
  {
    PacksWell(s.packed, e);
    var next := Packs(s.packed, e);
    var line := PutOutAll(s.line, EncodeAll(next.cargo[|s.packed.cargo|..]), policy);
    Sender(next, if e.Protect? then SendRepairs(line, e.repairs) else line)
  }

  ghost predicate Sound(s: Sender) {
    WellPacked(s.packed) && Orderly(s.line) && Encoded(s.line.vectors, s.packed.cargo)
  }

  lemma EncodedJoin(a: seq<Vector>, b: seq<Vector>, c: seq<Cargo>, d: seq<Cargo>)
    requires Encoded(a, c) && Encoded(b, d)
    ensures Encoded(a + b, c + d)
  {
    hide Sendable, VectorOf;
  }

  lemma StepSound(s: Sender, e: Event, policy: Policy)
    requires Sound(s) && InRange(e)
    ensures Proper(s.line) && Sound(Step(s, e, policy)) && s.packed.cargo <= Step(s, e, policy).packed.cargo
  {
    hide Orderly, Encoded, PutOutAll, SendRepairs, Packs, Grouped, Carried, Sendable, EncodeAll, Pack;
    OrderlyProper(s.line);
    PacksWell(s.packed, e);
    var next := Packs(s.packed, e);
    var fresh_ := next.cargo[|s.packed.cargo|..];
    PutOutAllOrderly(s.line, EncodeAll(fresh_), policy);
    var line := PutOutAll(s.line, EncodeAll(fresh_), policy);
    EncodedJoin(s.line.vectors, EncodeAll(fresh_), s.packed.cargo, fresh_);
    assert s.packed.cargo + fresh_ == next.cargo;
    if e.Protect? {
      OrderlyProper(line);
      RepairsOrderly(line, e.repairs);
    }
  }

  function Start(capacity: int): Sender {
    Sender(Packed([], []), Line([], W.RingFor(capacity), 0, []))
  }

  lemma StartSound(capacity: int)
    ensures Sound(Start(capacity))
  {
    ResizedProper(Line([], 0, 0, []), capacity);
  }

  ghost predicate AllInRange(events: seq<Event>) {
    forall i :: 0 <= i < |events| ==> InRange(events[i])
  }

  /** The sender after a run. */
  ghost function Run(capacity: int, events: seq<Event>, policy: Policy): (s: Sender)
    requires AllInRange(events)
    ensures Sound(s)
  {
    if events == [] then
      StartSound(capacity);
      Start(capacity)
    else
      var n := |events| - 1;
      var before := Run(capacity, events[..n], policy);
      OrderlyProper(before.line);
      StepSound(before, events[n], policy);
      Step(before, events[n], policy)
  }

  /** The frames of the run that can be carried at the limit they met, in order. */
  ghost function Fitting(events: seq<Event>): seq<Vector>
    requires AllInRange(events)
  {
    if events == [] then [] else
      var e := events[|events| - 1];
      assert InRange(e);
      Fitting(events[..|events| - 1]) + if e.Frame? && Fits(|e.frame|, e.limit) then [e.frame] else []
  }

  /** No frame of the run is a misfit at the limit it met. */
  ghost predicate NoMisfits(events: seq<Event>) {
    forall i :: 0 <= i < |events| && events[i].Frame? ==> !Misfit(|events[i].frame|, events[i].limit)
  }

  lemma FlushedFrames(p: Packed)
    ensures FramesIn(Flushed(p).cargo) + Flushed(p).waiting == FramesIn(p.cargo) + p.waiting
    ensures NoMisfit(p.cargo) ==> NoMisfit(Flushed(p).cargo)
  {
    hide FramesIn, NoMisfit;
    FramesInJoin(p.cargo, [Whole(p.waiting)]);
    FramesInWhole(p.waiting);
    WholeNoMisfit(p.waiting);
    if NoMisfit(p.cargo) {
      NoMisfitJoin(p.cargo, [Whole(p.waiting)]);
    }
  }

  /** Each frame that fits goes to one place, in order. */
  lemma AppendFrames(p: Packed, frame: Vector, limit: nat)
    requires FRAME_HEADER < limit
    ensures var q := Append(p, frame, limit);
            FramesIn(q.cargo) + q.waiting
            == FramesIn(p.cargo) + p.waiting + if Fits(|frame|, limit) then [frame] else []
    ensures NoMisfit(p.cargo) && !Misfit(|frame|, limit) ==> NoMisfit(Append(p, frame, limit).cargo)
  {
    hide FramesIn, NoMisfit, FragmentCount, Pack;
    FlushedFrames(p);
    if FRAME_HEADER + |frame| > limit {
      var q, count := Flushed(p), FragmentCount(|frame|, limit);
      FramesInJoin(q.cargo, Parts(frame, limit, count));
      FramesInParts(frame, limit, count);
      FragmentedCount(|frame|, limit);
      if NoMisfit(p.cargo) && !Misfit(|frame|, limit) {
        PartsNoMisfit(frame, limit);
        NoMisfitJoin(q.cargo, Parts(frame, limit, count));
      }
    }
  }

  lemma {:induction false} RunFrames(capacity: int, events: seq<Event>, policy: Policy)
    requires AllInRange(events)
    ensures var s := Run(capacity, events, policy);
            && FramesIn(s.packed.cargo) + s.packed.waiting == Fitting(events)
            && (NoMisfits(events) ==> NoMisfit(s.packed.cargo))
  {
    hide FramesIn, NoMisfit, Sound, Append, Flushed, PutOutAll, SendRepairs, EncodeAll, Fits, Misfit, WellPacked,
         Proper;
    if events == [] {
      NothingSent();
    } else {
      var n := |events| - 1;
      RunFrames(capacity, events[..n], policy);
      var p, e := Run(capacity, events[..n], policy).packed, events[n];
      assert Run(capacity, events, policy).packed == Packs(p, e);
      if e.Frame? {
        AppendFrames(p, e.frame, e.limit);
      } else {
        FlushedFrames(p);
      }
    }
  }

  lemma NothingSent()
    ensures FramesIn([]) == [] && NoMisfit([])
  {
  }

  /** Whatever the policy asks, a run puts out source symbols in order and genuine repairs over symbols already sent. */
  lemma SenderIsSentBy(capacity: int, events: seq<Event>, policy: Policy)
    requires AllInRange(events)
    ensures var s := Run(capacity, events, policy);
            Encoded(s.line.vectors, s.packed.cargo) && C.SentBy(s.line.vectors, s.line.sent)
  {
    hide Encoded, C.SentBy, WellPacked, Run;
  }

  /**
   The whole path, from frames to frames: over any run of the sender, with the window
   resized and repairs sent as any policy asks, and any of the datagrams dropped, the
   frames handed up are once each exactly those whose every symbol arrived or was
   recovered, out of the frames of the run that fit, in symbols that carry just those.
   */
  lemma SentFramesSurviveErasure(capacity: int, events: seq<Event>, policy: Policy, kept: seq<nat>)
    requires AllInRange(events) && NoMisfits(events)
    requires var s := Run(capacity, events, policy);
             && |s.packed.cargo| <= A.MAX_SYMBOLS
             && (forall k :: 0 <= k < |kept| ==> kept[k] < |s.line.sent|)
             && (forall k, m :: 0 <= k < m < |kept| ==> kept[k] < kept[m])
    ensures var s := Run(capacity, events, policy);
            var packets := seq(|kept|, k requires 0 <= k < |kept| => s.line.sent[kept[k]]);
            var f, out := C.FateOf(s.line.vectors, packets), C.Receive(W.Sent(s.line.vectors), packets).out;
            && FramesIn(s.packed.cargo) + s.packed.waiting == Fitting(events)
            && multiset(out) == multiset(Complete(s.packed.cargo, C.Got(f), |s.packed.cargo|))
            && (forall id: nat :: id in C.Got(f) <==> D.SourcePacket(id) in packets || id in f.recovered)
  {
    hide Encoded, C.SentBy, Run, FramesIn, NoMisfits, NoMisfit, C.FateOf, C.Receive, Complete, C.Got, C.InOrder,
         Fitting, Grouped, Sendable;
    var s := Run(capacity, events, policy);
    RunFrames(capacity, events, policy);
    SenderIsSentBy(capacity, events, policy);
    C.DropOnlyIsInOrder(s.line.vectors, s.line.sent, kept);
    var packets := seq(|kept|, k requires 0 <= k < |kept| => s.line.sent[kept[k]]);
    assert A.Sender(s.packed.cargo);
    C.FramesSurviveErasure(s.packed.cargo, s.line.vectors, packets);
  }
}
