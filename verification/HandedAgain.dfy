/**
 When a frame is handed up a second time. Datagrams are taken in any order and with any
 repeats; a source symbol is read again exactly when it was got before, which the decoder
 could tell for every symbol of its window but is asked too late.
 */
module HandedAgain {
  import opened GaloisField
  import opened LinearSystem
  import opened SymbolIds
  import opened DecoderModel
  import opened DecoderInvariant
  import opened Frames
  import opened Packing
  import opened Completion
  import opened Rereading
  import A = Assembly
  import C = CodedPath
  import D = DecoderRuns
  import F = SymbolFates
  import S = DecoderSemantics
  import W = WindowEncoder

  // ---------- the account of a run in any order ----------

  /** Where one arrival leaves the window, the origin and the losses. */
  lemma StepPlace(f: F.Fates, a: F.Arrival)
    requires Sized(f.st)
    ensures var g := F.FateStep(f, a);
            && (F.Seen(f, a) ==>
                  g.base == D.NewBase(f.st, f.base, F.Last(a)) && g.origin == F.OriginAfter(f, a, g.base))
            && (F.Seen(f, a) ==> f.accepted <= g.accepted && f.recovered <= g.recovered)
            && (F.Seen(f, a) ==> g.lost == f.lost + F.LostIds(f.st, f.base, F.Moved(f, a)))
            && (!F.Seen(f, a) ==> g == f.(st := F.Receive(f.st, a).state))
  {
    hide F.Receive, F.LostIds, Admit, Witness, Known, F.OriginAfter;
  }

  /** What the datagrams of a stream have established, in whatever order they came. */
  ghost predicate Placed(vectors: seq<Vector>, f: F.Fates) {
    && F.Accounted(f)
    && (f.st.started ==> 0 <= f.origin && f.base + WIDTH <= |vectors|)
    && (forall x :: x in f.lost ==> x < f.base)
  }

  lemma PlacedIsOrderly(vectors: seq<Vector>, f: F.Fates, pk: D.Packet)
    requires |vectors| <= A.MAX_SYMBOLS && Placed(vectors, f) && C.Issued(vectors, pk)
    ensures F.Orderly(f, C.AsArrival(W.Sent(vectors), pk))
  {
    hide F.Accounted, D.Genuine;
    if f.st.started {
      C.WindowLow(f);
    }
  }

  lemma StepPlaced(vectors: seq<Vector>, f: F.Fates, pk: D.Packet)
    requires |vectors| <= A.MAX_SYMBOLS && Placed(vectors, f) && C.Issued(vectors, pk)
    ensures Sized(f.st) && Placed(vectors, F.FateStep(f, C.AsArrival(W.Sent(vectors), pk)))
  {
    hide F.Accounted, D.Genuine, F.FateStep, F.Receive, F.LostIds, F.Orderly;
    var a := C.AsArrival(W.Sent(vectors), pk);
    F.AccountedSized(f);
    PlacedIsOrderly(vectors, f, pk);
    F.FateStepAccounted(f, a);
    StepPlace(f, a);
    if F.Seen(f, a) {
      StillBehind(f, a);
    } else {
      F.UnseenChangesNothing(f, a);
    }
  }

  lemma StillBehind(f: F.Fates, a: F.Arrival)
    requires F.Accounted(f) && Sized(f.st) && F.Seen(f, a) && forall x :: x in f.lost ==> x < f.base
    ensures forall x :: x in F.FateStep(f, a).lost ==> x < F.FateStep(f, a).base
  {
    hide F.FateStep, F.LostIds, F.Fated, F.Seen;
    StepPlace(f, a);
    F.LostIdsRange(f.st, f.base, F.Moved(f, a));
    F.NothingLost(f.st, f.base);
    if !f.st.started {
      assert |F.Tally(f)| == 0;
      assert f.lost == [];
    }
  }

  /** Nothing is asked of the order: datagrams of a stream shorter than 2^31 are always near enough. */
  lemma {:induction false} IssuedIsPlaced(vectors: seq<Vector>, packets: seq<D.Packet>)
    requires |vectors| <= A.MAX_SYMBOLS && AllIssued(vectors, packets)
    ensures F.OrderlyRun(C.Arrivals(W.Sent(vectors), packets)) && Placed(vectors, C.FateOf(vectors, packets))
  {
    hide Placed, C.Issued, F.FateStep, F.Orderly;
    var s := W.Sent(vectors);
    if packets == [] {
      NothingPlaced(vectors);
    } else {
      var n := |packets| - 1;
      IssuedIsPlaced(vectors, packets[..n]);
      assert C.Arrivals(s, packets)[..n] == C.Arrivals(s, packets[..n]);
      PlacedIsOrderly(vectors, C.FateOf(vectors, packets[..n]), packets[n]);
      StepPlaced(vectors, C.FateOf(vectors, packets[..n]), packets[n]);
    }
  }

  lemma NothingPlaced(vectors: seq<Vector>)
    ensures Placed(vectors, F.NoFates())
  {
    hide F.Accounted;
    F.NoFatesAccounted();
  }

  // ---------- what has been got ----------

  predicate IsGot(f: F.Fates, id: int) {
    id in f.accepted || id in f.recovered
  }

  /** Of the symbols not behind the window, the decoder knows exactly those got. */
  lemma KnownIsGot(f: F.Fates, id: int)
    requires F.Accounted(f) && f.st.started && f.base <= id < f.base + HALF && id !in f.lost
    ensures Sized(f.st) && (Known(f.st, Wrap(id)) <==> IsGot(f, id))
  {
    hide IdOf, F.AllAvoid, Wrap;
    F.AccountedSized(f);
    assert F.Tally(f)[id] == F.Due(f.st, f.base, f.origin, id);
    WrapMinus(id, f.base);
    WrapSmall(id - f.base);
    InWindowSlot(f.st.lo, Wrap(id));
    SlotOfWrap(id);
    if id < f.base + WIDTH {
      KnownIsHeld(f.st, Wrap(id));
      IdAtSlot(f.base, id);
    }
  }

  /** Of the symbols behind the window, those got are the ones from the origin on that were not lost. */
  lemma BehindIsGot(f: F.Fates, id: int)
    requires F.Accounted(f) && f.st.started && id < f.base
    ensures IsGot(f, id) <==> f.origin <= id && id !in f.lost
  {
    hide F.AllAvoid, Framed;
    F.AccountedSized(f);
    assert F.Tally(f)[id] == F.Due(f.st, f.base, f.origin, id);
  }

  /** A source symbol that is looked at is accepted unless it is known; then nothing changes but the window. */
  lemma SourceShape(f: F.Fates, a: F.Arrival)
    requires Sized(f.st) && F.Seen(f, a) && a.SourceSymbol? && Admit(f.st, Wrap(a.id)).ok
    ensures var g, w := F.FateStep(f, a), F.Witnessed(f, a);
            && Sized(w)
            && (if Known(w, Wrap(a.id)) then g.st == w && g.recovered == f.recovered
                else a.id in g.accepted && D.SameWindow(w, g.st))
  {
    hide F.LostIds, Admit, Behind, Harvest, Substitute, Wrap, F.Seen, F.OriginAfter;
    var w := F.Witnessed(f, a);
    if Known(w, Wrap(a.id)) {
      assert F.IdsOf(F.FateStep(f, a).base, []) == [];
      assert f.recovered + [] == f.recovered;
    } else {
      F.HarvestKeepsWindow(Substitute(w, Wrap(a.id), a.vector), []);
      D.SubstituteFrame(w, Wrap(a.id), a.vector);
    }
  }

  lemma SeenStarts(f: F.Fates, a: F.Arrival)
    requires F.Accounted(f) && F.Orderly(f, a) && F.Seen(f, a)
    ensures Sized(f.st) && F.FateStep(f, a).st.started
  {
    hide F.LostIds, Admit, Witness, Known, F.Fated, Insert, Spread, Behind, Wrap, F.OriginAfter, F.Orderly,
         F.FateStep, F.Receive;
    F.AccountedSized(f);
    F.AdmittedAndWitnessed(f, a);
    if a.SourceSymbol? {
      SourceShape(f, a);
    } else {
      RepairShape(f, a);
    }
  }

  lemma RepairShape(f: F.Fates, a: F.Arrival)
    requires Sized(f.st) && F.Seen(f, a) && a.RepairSymbol? && Admit(f.st, Wrap(F.Last(a))).ok
    ensures D.SameWindow(F.Witnessed(f, a), F.FateStep(f, a).st)
  {
    hide F.LostIds, Admit, Known, Insert, Spread, Behind, Wrap, F.OriginAfter;
    var w := F.Witnessed(f, a);
    WrapPlus(a.first, |a.coefs| - 1);
    F.InsertKeepsWindow(w, Row(0, Spread(Wrap(a.first), a.coefs), a.vector));
  }

  /** A source symbol that is looked at has been got once it is taken in; if it is not new, nothing is recovered. */
  lemma SourceGot(vectors: seq<Vector>, f: F.Fates, a: F.Arrival)
    requires Placed(vectors, f) && F.Orderly(f, a) && F.Seen(f, a) && a.SourceSymbol? && Sized(f.st)
    requires Placed(vectors, F.FateStep(f, a))
    ensures var g := F.FateStep(f, a);
            IsGot(g, a.id) && (a.id in g.accepted || g.recovered == f.recovered)
  {
    hide F.LostIds, F.Fated, Admit, Witness, Behind, Wrap, F.FateStep, F.OriginAfter, F.Accounted, Known;
    F.AdmittedAndWitnessed(f, a);
    SourceShape(f, a);
    StepPlace(f, a);
    SeenStarts(f, a);
    var g, w := F.FateStep(f, a), F.Witnessed(f, a);
    if Known(w, Wrap(a.id)) {
      assert g.base <= a.id < g.base + WIDTH;
      KnownIsGot(g, a.id);
    }
  }

  /** A source datagram for the symbol is among them. */
  ghost predicate Came(packets: seq<D.Packet>, id: int) {
    D.SourcePacket(id) in packets
  }

  lemma CameSnoc(packets: seq<D.Packet>, id: int)
    requires packets != []
    ensures var n := |packets| - 1;
            Came(packets, id) <==> Came(packets[..n], id) || packets[n] == D.SourcePacket(id)
  {
    assert packets == packets[..|packets| - 1] + [packets[|packets| - 1]];
  }

  /** The account before and after the last datagram. */
  lemma LastStep(vectors: seq<Vector>, packets: seq<D.Packet>) returns (f: F.Fates, a: F.Arrival)
    requires |vectors| <= A.MAX_SYMBOLS && AllIssued(vectors, packets) && packets != []
    ensures var n := |packets| - 1;
            && f == C.FateOf(vectors, packets[..n]) && a == C.AsArrival(W.Sent(vectors), packets[n]) && Sized(f.st)
            && C.FateOf(vectors, packets) == F.FateStep(f, a)
            && Placed(vectors, f) && Placed(vectors, F.FateStep(f, a)) && F.Orderly(f, a)
               && C.Issued(vectors, packets[n])
            && AllIssued(vectors, packets[..n])
  {
    hide Placed, C.Issued, F.FateStep, F.Orderly;
    var n, s := |packets| - 1, W.Sent(vectors);
    IssuedIsPlaced(vectors, packets[..n]);
    IssuedIsPlaced(vectors, packets);
    assert C.Arrivals(s, packets)[..n] == C.Arrivals(s, packets[..n]);
    f, a := C.FateOf(vectors, packets[..n]), C.AsArrival(s, packets[n]);
  }

  /** A symbol that came by itself and is not behind the window has been got. */
  lemma {:induction false} CameIsGot(vectors: seq<Vector>, packets: seq<D.Packet>, id: int)
    requires |vectors| <= A.MAX_SYMBOLS && AllIssued(vectors, packets) && Came(packets, id)
    ensures var f := C.FateOf(vectors, packets); f.st.started && (f.base <= id ==> IsGot(f, id))
  {
    hide C.FateOf, C.Issued, F.FateStep, F.Orderly, F.OriginAfter, F.Receive, Placed, F.Accounted, IsGot;
    var f, a := LastStep(vectors, packets);
    var n := |packets| - 1;
    CameSnoc(packets, id);
    StepPlace(f, a);
    PlacedAccounted(vectors, f);
    if F.Seen(f, a) {
      SeenStarts(f, a);
    } else {
      F.UnseenChangesNothing(f, a);
    }
    if packets[n] == D.SourcePacket(id) {
      if F.Seen(f, a) {
        SourceGot(vectors, f, a);
      }
    } else {
      CameIsGot(vectors, packets[..n], id);
      GotStays(f, a, id);
    }
  }

  lemma PlacedAccounted(vectors: seq<Vector>, f: F.Fates)
    requires Placed(vectors, f)
    ensures F.Accounted(f)
  {
  }

  lemma GotStays(f: F.Fates, a: F.Arrival, id: int)
    requires Sized(f.st)
    ensures var g := F.FateStep(f, a);
            (IsGot(f, id) ==> IsGot(g, id)) && (f.st.started ==> f.base <= g.base)
  {
    hide F.FateStep, F.OriginAfter, F.Receive, F.LostIds;
    StepPlace(f, a);
  }

  // ---------- read again ----------

  /**
   A source symbol arriving now has been read before: the decoder knows it, or it is
   behind the window and either left it got or has come late already.
   */
  ghost predicate Again(vectors: seq<Vector>, packets: seq<D.Packet>, id: int) {
    var f := C.FateOf(vectors, packets);
    && f.st.started
    && if f.base <= id then Known(f.st, Wrap(id)) else (f.origin <= id && id !in f.lost) || Came(packets, id)
  }

  lemma ReadsAre(vectors: seq<Vector>, packets: seq<D.Packet>, id: int)
    requires |vectors| <= A.MAX_SYMBOLS && AllIssued(vectors, packets)
    ensures id in Reads(W.Sent(vectors), packets) <==> Came(packets, id) || id in C.FateOf(vectors, packets).recovered
    ensures multiset(Reads(W.Sent(vectors), packets))[id]
         == SourcesOf(packets, id) + multiset(C.FateOf(vectors, packets).recovered)[id]
    ensures multiset(C.FateOf(vectors, packets).recovered)[id] <= 1
  {
    hide Reads, D.Run, F.FateRun, C.Arrivals, Ids, C.Issued, Placed;
    var s := W.Sent(vectors);
    IssuedIsPlaced(vectors, packets);
    PlacedAccounted(vectors, C.FateOf(vectors, packets));
    ReadCount(s, packets, id);
    assert AllGenuine(s, packets) by { IssuedGenuine(vectors, packets); }
    ReportsAreRecoveries(s, packets);
    RecoveredOnce(C.FateOf(vectors, packets), id);
  }

  lemma IssuedGenuine(vectors: seq<Vector>, packets: seq<D.Packet>)
    requires AllIssued(vectors, packets)
    ensures AllGenuine(W.Sent(vectors), packets)
  {
    hide D.Genuine;
  }

  /** Whether a symbol has been read is what the test says, for every symbol of the stream. */
  lemma AgainExactly(vectors: seq<Vector>, packets: seq<D.Packet>, id: int)
    requires |vectors| <= A.MAX_SYMBOLS && AllIssued(vectors, packets) && 0 <= id < |vectors|
    ensures id in Reads(W.Sent(vectors), packets) <==> Again(vectors, packets, id)
  {
    hide Reads, C.FateOf, F.Accounted, C.Issued, Came, AllIssued, Known;
    var f := C.FateOf(vectors, packets);
    IssuedIsPlaced(vectors, packets);
    ReadsAre(vectors, packets, id);
    if Came(packets, id) {
      CameIsGot(vectors, packets, id);
    }
    AcceptedCame(vectors, packets, id);
    if f.st.started {
      C.WindowLow(f);
      if f.base <= id {
        KnownIsGot(f, id);
      } else {
        BehindIsGot(f, id);
      }
    } else {
      NothingGot(f, id);
    }
  }

  lemma NothingGot(f: F.Fates, id: int)
    requires F.Accounted(f) && !f.st.started
    ensures !IsGot(f, id)
  {
    assert F.Tally(f)[id] == 0;
  }

  lemma {:induction false} AcceptedCame(vectors: seq<Vector>, packets: seq<D.Packet>, id: int)
    ensures id in C.FateOf(vectors, packets).accepted ==> Came(packets, id)
  {
    hide F.Receive, F.LostIds, Admit, Witness, Known, F.OriginAfter;
    if packets != [] {
      var n := |packets| - 1;
      AcceptedCame(vectors, packets[..n], id);
      FateSnoc(vectors, packets);
      CameSnoc(packets, id);
    }
  }

  /** A symbol newly recovered had not come by itself. */
  lemma RecoveredIsUnread(vectors: seq<Vector>, packets: seq<D.Packet>, id: int)
    requires |vectors| <= A.MAX_SYMBOLS && AllIssued(vectors, packets) && packets != []
    requires id in C.FateOf(vectors, packets).recovered && id !in C.FateOf(vectors, packets[..|packets| - 1]).recovered
    ensures !Came(packets, id)
  {
    hide C.FateOf, C.Issued, F.FateStep, F.Orderly, F.OriginAfter, F.Receive, Came, F.Accounted, F.LostIds, D.Deliver;
    var f, a := LastStep(vectors, packets);
    var n, g := |packets| - 1, F.FateStep(f, a);
    StepPlace(f, a);
    CameSnoc(packets, id);
    NewlyRecovered(f, a, id);
    SeenStarts(f, a);
    C.OneFate(g, id);
    GotStays(f, a, id);
    if Came(packets[..n], id) {
      CameIsGot(vectors, packets[..n], id);
    }
    if packets[n] == D.SourcePacket(id) {
      SourceGot(vectors, f, a);
    }
  }

  lemma NewlyRecovered(f: F.Fates, a: F.Arrival, id: int)
    requires Sized(f.st) && id in F.FateStep(f, a).recovered && id !in f.recovered
    ensures F.Seen(f, a) && F.FateStep(f, a).base <= id
  {
    hide F.Receive, F.LostIds, Admit, Witness, Known, F.OriginAfter;
  }

  lemma FateSnoc(vectors: seq<Vector>, packets: seq<D.Packet>)
    requires packets != []
    ensures var n := |packets| - 1;
            C.FateOf(vectors, packets)
            == F.FateStep(C.FateOf(vectors, packets[..n]), C.AsArrival(W.Sent(vectors), packets[n]))
  {
    hide F.FateStep;
    var n := |packets| - 1;
    assert C.Arrivals(W.Sent(vectors), packets)[..n] == C.Arrivals(W.Sent(vectors), packets[..n]);
  }

  lemma {:induction false} RecoveredStays(vectors: seq<Vector>, packets: seq<D.Packet>, i: nat, id: int)
    requires i <= |packets| && id in C.FateOf(vectors, packets[..i]).recovered
    ensures id in C.FateOf(vectors, packets).recovered
  {
    hide F.FateStep, C.FateOf, F.Seen, F.OriginAfter, F.LostIds, F.Receive;
    if i == |packets| {
      assert packets[..i] == packets;
    } else {
      var n := |packets| - 1;
      assert packets[..n][..i] == packets[..i];
      RecoveredStays(vectors, packets[..n], i, id);
      FateSnoc(vectors, packets);
      StepPlace(C.FateOf(vectors, packets[..n]), C.AsArrival(W.Sent(vectors), packets[n]));
    }
  }

  /** The i'th datagram carries the symbol, which has been read before. */
  ghost predicate ReadAgainAt(vectors: seq<Vector>, packets: seq<D.Packet>, i: nat, id: int) {
    i < |packets| && packets[i] == D.SourcePacket(id) && Again(vectors, packets[..i], id)
  }

  lemma AgainIsTwice(vectors: seq<Vector>, packets: seq<D.Packet>, i: nat, id: int)
    requires |vectors| <= A.MAX_SYMBOLS && AllIssued(vectors, packets) && 0 <= id < |vectors|
    requires ReadAgainAt(vectors, packets, i, id)
    ensures multiset(Reads(W.Sent(vectors), packets))[id] >= 2
  {
    hide C.Issued, Again, Reads, C.FateOf;
    AgainExactly(vectors, packets[..i], id);
    ReadsAre(vectors, packets[..i], id);
    ReadsAre(vectors, packets, id);
    var rest := packets[i + 1..];
    assert packets == packets[..i] + [packets[i]] + rest;
    assert SourcesOf(packets, id) == SourcesOf(packets[..i], id) + 1 + SourcesOf(rest, id);
    if id in C.FateOf(vectors, packets[..i]).recovered {
      RecoveredStays(vectors, packets, i, id);
    }
  }

  /** A symbol read more than once was at some arrival read again. */
  lemma {:induction false} TwiceIsAgain(vectors: seq<Vector>, packets: seq<D.Packet>, id: int) returns (i: nat)
    requires |vectors| <= A.MAX_SYMBOLS && AllIssued(vectors, packets) && 0 <= id < |vectors|
    requires multiset(Reads(W.Sent(vectors), packets))[id] >= 2
    ensures ReadAgainAt(vectors, packets, i, id)
  {
    hide C.Issued, Again, Reads, C.FateOf;
    ReadsAre(vectors, packets, id);
    var n := |packets| - 1;
    assert packets == packets[..n] + [packets[n]];
    ReadsAre(vectors, packets[..n], id);
    if id in C.FateOf(vectors, packets).recovered && id !in C.FateOf(vectors, packets[..n]).recovered {
      RecoveredIsUnread(vectors, packets, id);
    }
    if multiset(Reads(W.Sent(vectors), packets[..n]))[id] >= 2 {
      i := TwiceIsAgain(vectors, packets[..n], id);
      assert packets[..n][..i] == packets[..i];
    } else {
      i := n;
      AgainExactly(vectors, packets[..n], id);
    }
  }

  // ---------- handed up again ----------

  /** No other symbol starts this frame. */
  ghost predicate OnlyAt(cargo: seq<Cargo>, id: int, x: Vector) {
    forall k :: 0 <= k < |cargo| && x in StartedBy(cargo[k]) ==> k == id
  }

  lemma {:induction false} CopiesOf(cargo: seq<Cargo>, ids: seq<int>, id: int, x: Vector)
    requires 0 <= id < |cargo| && OnlyAt(cargo, id, x)
    ensures multiset(FramesOf(cargo, ids))[x] == multiset(ids)[id] * multiset(StartedBy(cargo[id]))[x]
  {
    hide StartedBy, OnlyAt, FramesAt;
    if ids != [] {
      var n, sent := |ids| - 1, multiset(StartedBy(cargo[id]))[x];
      CopiesOf(cargo, ids[..n], id, x);
      CopiesAt(cargo, ids[n], id, x);
      FramesOfJoin(cargo, ids[..n], [ids[n]]);
      OneHanded(cargo, ids[n]);
      assert ids == ids[..n] + [ids[n]];
      OnceMore(multiset(ids[..n])[id], sent);
    }
  }

  lemma CopiesAt(cargo: seq<Cargo>, k: int, id: int, x: Vector)
    requires 0 <= id < |cargo| && OnlyAt(cargo, id, x)
    ensures multiset(FramesAt(cargo, k))[x] == if k == id then multiset(StartedBy(cargo[id]))[x] else 0
  {
    hide StartedBy;
  }

  lemma OnceMore(times: nat, sent: nat)
    ensures (times + 1) * sent == times * sent + sent
  {
  }

  ghost function TimesRead(vectors: seq<Vector>, packets: seq<D.Packet>, id: int): nat {
    multiset(Reads(W.Sent(vectors), packets))[id]
  }

  ghost function TimesHandedUp(vectors: seq<Vector>, packets: seq<D.Packet>, x: Vector): nat {
    multiset(C.Receive(W.Sent(vectors), packets).out)[x]
  }

  /** The decoder has recovered nothing wrong. */
  ghost predicate RecoveredRight(vectors: seq<Vector>, packets: seq<D.Packet>) {
    D.AllRight(W.Sent(vectors), D.Run(W.Sent(vectors), packets).reports)
  }

  /**
   At the arrival: a source datagram hands up the whole frames of its symbol, and they
   have been handed up before exactly when the symbol was got before, by the test the
   decoder makes only afterwards, or lies behind the window and left it got or came late.
   */
  lemma HandsUpAgain(cargo: seq<Cargo>, vectors: seq<Vector>, packets: seq<D.Packet>, id: int)
    requires A.Sender(cargo) && Encoded(vectors, cargo) && AllIssued(vectors, packets + [D.SourcePacket(id)])
    requires RecoveredRight(vectors, packets + [D.SourcePacket(id)]) && 0 <= id < |cargo| && cargo[id].Whole?
    ensures var s := W.Sent(vectors);
            && C.Receive(s, packets).out + cargo[id].frames <= C.Receive(s, packets + [D.SourcePacket(id)]).out
            && (id in Handed(cargo, s, packets) <==> Again(vectors, packets, id))
  {
    hide A.Sender, Encoded, C.Issued, Again, Handed, C.Receive, RecoveredRight;
    var s, all := W.Sent(vectors), packets + [D.SourcePacket(id)];
    assert all[..|packets|] == packets && all[|packets|] == D.SourcePacket(id);
    assert forall k :: 0 <= k < |packets| ==> all[k] == packets[k];
    assert AllIssued(vectors, packets);
    FramesComeUp(cargo, vectors, packets, id);
    A.Short(cargo);
    EncodedLength(vectors, cargo);
    AgainExactly(vectors, packets, id);
    ReadIsHanded(cargo, vectors, packets, id);
  }

  lemma FramesComeUp(cargo: seq<Cargo>, vectors: seq<Vector>, packets: seq<D.Packet>, id: int)
    requires A.Sender(cargo) && Encoded(vectors, cargo) && AllIssued(vectors, packets)
             && C.Issued(vectors, D.SourcePacket(id))
    requires RecoveredRight(vectors, packets + [D.SourcePacket(id)]) && 0 <= id < |cargo| && cargo[id].Whole?
    ensures RecoveredRight(vectors, packets)
    ensures var s := W.Sent(vectors);
            C.Receive(s, packets).out + cargo[id].frames <= C.Receive(s, packets + [D.SourcePacket(id)]).out
  {
    hide A.Sender, Encoded, D.AllRight, D.Step, C.OnDatagram, C.Issued, Deals, Rightful, C.PassOn, ReadFor, HandedFor,
         AllIssued, Reads, Handed, D.Reports, D.Deliver, D.BaseAfter, A.Arrived;
    var s, pk, all := W.Sent(vectors), D.SourcePacket(id), packets + [D.SourcePacket(id)];
    assert all[..|packets|] == packets && all[|packets|] == pk;
    var c, r := D.Run(s, packets), C.Receive(s, packets);
    ReportsGrow(s, c, pk);
    RunDeals(cargo, vectors, packets);
    DealsRightful(cargo, A.Fresh(), Handed(cargo, s, packets), r.asm, Reads(s, packets), r.out);
    SourceDeals(cargo, vectors, r, c, pk);
  }

  lemma ReadIsHanded(cargo: seq<Cargo>, vectors: seq<Vector>, packets: seq<D.Packet>, id: int)
    requires A.Sender(cargo) && Encoded(vectors, cargo) && AllIssued(vectors, packets)
             && RecoveredRight(vectors, packets)
    requires 0 <= id < |cargo| && cargo[id].Whole?
    ensures multiset(Handed(cargo, W.Sent(vectors), packets))[id] == TimesRead(vectors, packets, id)
    ensures id in Handed(cargo, W.Sent(vectors), packets) <==> id in Reads(W.Sent(vectors), packets)
    ensures C.Receive(W.Sent(vectors), packets).out == FramesOf(cargo, Handed(cargo, W.Sent(vectors), packets))
  {
    hide A.Sender, Encoded, AllIssued, C.Receive, Handed, Reads, FramesOf, D.Run, D.AllRight;
    HandedUpAsOftenAsRead(cargo, vectors, packets);
    assert id in Reads(W.Sent(vectors), packets) <==> TimesRead(vectors, packets, id) > 0;
  }

  /**
   Over a run: a frame that only one symbol of whole frames carries is handed up as often
   as that symbol is read, and so more often than it was sent exactly when some source
   datagram arrives for a symbol that was got before.
   */
  lemma HandedUpTwiceExactly(cargo: seq<Cargo>, vectors: seq<Vector>, packets: seq<D.Packet>, id: int, x: Vector)
    requires A.Sender(cargo) && Encoded(vectors, cargo) && AllIssued(vectors, packets)
             && RecoveredRight(vectors, packets)
    requires 0 <= id < |cargo| && cargo[id].Whole? && x in cargo[id].frames && OnlyAt(cargo, id, x)
    ensures var sent := multiset(cargo[id].frames)[x];
            && TimesHandedUp(vectors, packets, x) == TimesRead(vectors, packets, id) * sent
            && (TimesHandedUp(vectors, packets, x) > sent <==> exists i: nat :: ReadAgainAt(vectors, packets, i, id))
  {
    hide A.Sender, Encoded, RecoveredRight, C.Receive, AllIssued, ReadAgainAt, Reads, Handed, FramesOf, OnlyAt;
    ReadIsHanded(cargo, vectors, packets, id);
    CopiesOf(cargo, Handed(cargo, W.Sent(vectors), packets), id, x);
    A.Short(cargo);
    EncodedLength(vectors, cargo);
    var times, sent := TimesRead(vectors, packets, id), multiset(cargo[id].frames)[x];
    MoreThanOnce(times, sent);
    if times >= 2 {
      var i := TwiceIsAgain(vectors, packets, id);
    }
    if i: nat :| ReadAgainAt(vectors, packets, i, id) {
      AgainIsTwice(vectors, packets, i, id);
    }
  }

  lemma MoreThanOnce(times: nat, sent: nat)
    requires sent > 0
    ensures times * sent > sent <==> times >= 2
  {
    if times >= 2 {
      assert times * sent == sent + sent + (times - 2) * sent;
    }
  }

  lemma EncodedLength(vectors: seq<Vector>, cargo: seq<Cargo>)
    requires Encoded(vectors, cargo)
    ensures |vectors| == |cargo|
  {
  }

  // ---------- a run that hands a frame up twice ----------

  /** A repair over one symbol determines it. */
  lemma OneTermDetermines(stream: D.Stream, other: D.Stream, pk: D.Packet)
    requires pk.RepairPacket? && |pk.coefs| == 1 && pk.coefs[0] != 0 && D.Satisfies(stream, pk)
             && D.Satisfies(other, pk)
    ensures Same(other(pk.first), stream(pk.first))
  {
    hide Mul, Add;
    var c, x, y := pk.coefs[0], stream(pk.first), other(pk.first);
    forall p: nat
      ensures At(y, p) == At(x, p)
    {
      assert Sum(pk.coefs, D.Span(stream, pk.first, 1), p, 1) == Sum(pk.coefs, D.Span(other, pk.first, 1), p, 1);
      AddLaws(Mul(c, At(x, p)), 0, 0);
      AddLaws(Mul(c, At(y, p)), 0, 0);
      MulCancels(c, At(y, p), At(x, p));
    }
  }

  /** The stream of one symbol that carries one frame. */
  ghost function One(frame: Vector): seq<Cargo> {
    [Whole([frame])]
  }

  ghost function OneVector(frame: Vector): seq<Vector>
    requires Sendable(Whole([frame]))
  {
    [VectorOf(Whole([frame]))]
  }

  lemma OneSends(frame: Vector, rid: Id)
    requires Sendable(Whole([frame]))
    ensures A.Sender(One(frame)) && Encoded(OneVector(frame), One(frame))
    ensures var pk := W.RepairOver(OneVector(frame), rid, 1);
            && C.Issued(OneVector(frame), pk) && C.InOrder(OneVector(frame), [pk]) && pk.first == 0 && |pk.coefs| == 1
            && pk.coefs[0] != 0 && pk.vector != []
  {
    hide D.Genuine, VectorOf, S.Longest, EncodeSymbol;
    W.RepairOverIsGenuine(OneVector(frame), rid, 1);
    var xs := OneVector(frame)[0..];
    assert |xs[0]| >= SYMBOL_HEADER by { HasHeader(Whole([frame])); }
    assert S.Longest(xs) >= |xs[0]|;
  }

  lemma HasHeader(c: Cargo)
    requires Sendable(c)
    ensures |VectorOf(c)| >= SYMBOL_HEADER
  {
  }

  /** Once a repair over the one symbol has come, the symbol has been recovered and its frame handed up. */
  lemma RepairRecovers(frame: Vector, rid: Id)
    requires Sendable(Whole([frame]))
    ensures var vectors := OneVector(frame);
            var packets := [W.RepairOver(vectors, rid, 1)];
            var f := C.FateOf(vectors, packets);
            && AllIssued(vectors, packets) && RecoveredRight(vectors, packets) && f.st.started
            && f.base == 1 - WIDTH && F.Accounted(f) && f.st == D.Run(W.Sent(vectors), packets).st && Known(f.st, 0)
  {
    hide A.Sender, Encoded, C.Issued, D.AllRight, VectorOf, W.RepairOver, F.FateStep, F.Accounted, Known,
         D.AdmissibleRun, C.InOrder, D.Satisfies, F.Orderly, F.Receive, D.Deliver;
    var cargo, vectors := One(frame), OneVector(frame);
    var pk, s := W.RepairOver(vectors, rid, 1), W.Sent(vectors);
    var packets := [pk];
    OneSends(frame, rid);
    C.InOrderIsAdmissible(cargo, vectors, packets);
    D.DecoderSoundness(s, packets);
    var f, a := LastStep(vectors, packets);
    assert packets[..0] == [] && f == F.NoFates();
    StepPlace(f, a);
    PlacedAccounted(vectors, f);
    PlacedAccounted(vectors, F.FateStep(f, a));
    SeenStarts(f, a);
    IssuedGenuine(vectors, packets);
    ReportsAreRecoveries(s, packets);
    WrapSmall(0);
    var c := D.Run(s, packets);
    assert D.Run(s, []) == D.Start();
    assert c.taken == [pk];
    if !Known(c.st, 0) {
      var other := D.DecoderCompleteness(s, packets, 0);
      assert D.Agrees(other, s, c.taken[0]);
      OneTermDetermines(s, other, pk);
    }
  }

  lemma KnownSource(st: State, esi: Id, v: Vector)
    requires Sized(st) && Aligned(st) && InWindow(st.lo, esi) && Known(st, esi)
    ensures Source(st, esi, v).recovered == []
  {
    hide Harvest, EvictMany, LostOf, Substitute, Behind;
    WindowTests(st, esi);
  }

  /** A source symbol the decoder knows changes nothing below and hands its whole frames up once more. */
  lemma KnownHandsUp(cargo: seq<Cargo>, vectors: seq<Vector>, packets: seq<D.Packet>, id: int)
    requires A.Sender(cargo) && Encoded(vectors, cargo) && AllIssued(vectors, packets)
             && C.Issued(vectors, D.SourcePacket(id))
    requires RecoveredRight(vectors, packets) && 0 <= id < |cargo| && cargo[id].Whole? && |vectors| <= A.MAX_SYMBOLS
    requires var f := C.FateOf(vectors, packets);
             f.st.started && f.base <= id < f.base + WIDTH && Known(f.st, Wrap(id))
    ensures var s, all := W.Sent(vectors), packets + [D.SourcePacket(id)];
            RecoveredRight(vectors, all) && C.Receive(s, all).out == C.Receive(s, packets).out + cargo[id].frames
  {
    hide A.Sender, Encoded, D.AllRight, C.OnDatagram, C.Issued, Deals, Rightful, ReadFor, HandedFor, AllIssued, Reads,
         Handed, D.BaseAfter, A.Arrived, C.FateOf, Source, Placed, InWindow, Known, Wrap;
    var s, pk, all := W.Sent(vectors), D.SourcePacket(id), packets + [D.SourcePacket(id)];
    assert all[..|packets|] == packets && all[|packets|] == pk;
    var c, r, f := D.Run(s, packets), C.Receive(s, packets), C.FateOf(vectors, packets);
    SameState(vectors, packets);
    AccountedPlace(f);
    D.WindowAt(s, f.base, id);
    KnownSource(c.st, Wrap(id), s(id));
    assert D.Reports(D.BaseAfter(c, pk), []) == [];
    assert c.reports + [] == c.reports;
    NoneIsRight(s);
    RunDeals(cargo, vectors, packets);
    DealsRightful(cargo, A.Fresh(), Handed(cargo, s, packets), r.asm, Reads(s, packets), r.out);
    SourceDeals(cargo, vectors, r, c, pk);
    assert cargo[id].frames + [] == cargo[id].frames;
  }

  /** The run and the account are about the same decoder. */
  lemma SameState(vectors: seq<Vector>, packets: seq<D.Packet>)
    requires |vectors| <= A.MAX_SYMBOLS && AllIssued(vectors, packets)
    ensures D.Run(W.Sent(vectors), packets).st == C.FateOf(vectors, packets).st
            && F.Accounted(C.FateOf(vectors, packets))
  {
    hide D.Run, F.FateRun, C.Arrivals, Ids, C.Issued, Placed, F.Accounted;
    IssuedIsPlaced(vectors, packets);
    PlacedAccounted(vectors, C.FateOf(vectors, packets));
    IssuedGenuine(vectors, packets);
    ReportsAreRecoveries(W.Sent(vectors), packets);
  }

  lemma NoneIsRight(s: D.Stream)
    ensures D.AllRight(s, [])
  {
  }

  lemma AccountedPlace(f: F.Fates)
    requires F.Accounted(f) && f.st.started
    ensures Sized(f.st) && Aligned(f.st) && f.st.lo == Wrap(f.base)
  {
  }

  lemma HandsUpOnce(frame: Vector, rid: Id)
    requires Sendable(Whole([frame]))
    ensures C.Receive(W.Sent(OneVector(frame)), [W.RepairOver(OneVector(frame), rid, 1)]).out == [frame]
  {
    hide A.Sender, Encoded, C.Issued, VectorOf, W.RepairOver, F.Accounted, Known, C.FateOf, C.InOrder, Complete,
         C.Receive, FramesIn, AllIssued, RecoveredRight, D.Run, F.OrderlyRun;
    var cargo, vectors := One(frame), OneVector(frame);
    var pk := W.RepairOver(vectors, rid, 1);
    OneSends(frame, rid);
    RepairRecovers(frame, rid);
    IssuedIsPlaced(vectors, [pk]);
    KnownIsGot(C.FateOf(vectors, [pk]), 0);
    WrapSmall(0);
    C.FramesSurviveErasure(cargo, vectors, [pk]);
    assert 0 in C.Got(C.FateOf(vectors, [pk]));
    JustOne(C.Receive(W.Sent(vectors), [pk]).out, frame);
  }

  lemma JustOne(out: seq<Vector>, frame: Vector)
    requires multiset(out) == multiset(FramesIn(One(frame)))
    ensures out == [frame]
  {
    assert One(frame)[..0] == [] && FramesIn(One(frame)) == [] + [frame];
    assert |out| == |multiset(out)| == |multiset([frame])| == 1;
    assert out[0] in multiset(out);
  }

  /**
   The sender puts one frame in one symbol, sends the symbol and a repair over it, and the
   two datagrams change places on the way: the frame is handed up twice.
   */
  lemma RecoveredThenArrives(frame: Vector, rid: Id)
    requires Sendable(Whole([frame]))
    ensures var vectors := OneVector(frame);
            var packets := [W.RepairOver(vectors, rid, 1), D.SourcePacket(0)];
            && A.Sender(One(frame)) && Encoded(vectors, One(frame)) && AllIssued(vectors, packets)
            && RecoveredRight(vectors, packets)
            && C.Receive(W.Sent(vectors), packets).out == [frame, frame]
  {
    hide A.Sender, Encoded, VectorOf, W.RepairOver, F.Accounted, Known, C.FateOf, C.InOrder, C.Receive, D.Genuine,
         RecoveredRight;
    var vectors := OneVector(frame);
    var before := [W.RepairOver(vectors, rid, 1)];
    OneSends(frame, rid);
    RepairRecovers(frame, rid);
    HandsUpOnce(frame, rid);
    WrapSmall(0);
    OneIsGenuine(vectors);
    KnownHandsUp(One(frame), vectors, before, 0);
    assert before + [D.SourcePacket(0)] == [W.RepairOver(vectors, rid, 1), D.SourcePacket(0)];
    assert [frame] + [frame] == [frame, frame];
  }

  lemma OneIsGenuine(vectors: seq<Vector>)
    ensures D.Genuine(W.Sent(vectors), D.SourcePacket(0))
  {
  }
}
