/**
 What reordering and repetition do above the decoder. The assembler reads every source
 symbol that arrives, also one it has read before or that the decoder recovered in the
 meantime, so whole frames are handed up as often as their symbol is read, and a
 fragmented one at most as often as each of its fragments is.
 */
module Rereading {
  import opened LinearSystem
  import opened SymbolIds
  import opened DecoderModel
  import opened Frames
  import opened Packing
  import A = Assembly
  import C = CodedPath
  import D = DecoderRuns
  import F = SymbolFates
  import W = WindowEncoder

  // ---------- what the assembler holds, in any order ----------

  /** Every part held is the right one, in its place; nothing is said of those missing. */
  ghost predicate PartsRight(cargo: seq<Cargo>, first: nat, g: A.Group)
    requires A.Heads(cargo, first)
  {
    && |g.parts| == A.Size(cargo, first) && g.held == A.Filled(g.parts) < |g.parts|
    && forall j: nat :: j < |g.parts| && g.parts[j] != [] ==>
         IsFragment(cargo[first].frame, cargo[first].limit, j, g.parts[j])
  }

  ghost predicate Rightful(cargo: seq<Cargo>, a: A.Assembler) {
    forall first :: first in a.groups ==> A.Heads(cargo, first) && PartsRight(cargo, first, a.groups[first])
  }

  /** The j'th part of the group is held. */
  predicate Holding(a: A.Assembler, first: nat, j: nat) {
    first in a.groups && j < |a.groups[first].parts| && a.groups[first].parts[j] != []
  }

  /** The group is held, and this part is the only one it misses. */
  ghost predicate LastMissing(a: A.Assembler, first: nat, index: nat) {
    first in a.groups && forall j: nat :: j < |a.groups[first].parts| ==> (Holding(a, first, j) <==> j != index)
  }

  /**
   Where the frames that a reading hands up start: the symbol itself if it carries whole
   frames, the head of its group if every other part is held, else nowhere.
   */
  ghost function HandedBy(cargo: seq<Cargo>, a: A.Assembler, id: int): seq<int> {
    if !(0 <= id < |cargo|) then []
    else if cargo[id].Whole? then [id]
    else
      var first := id - cargo[id].index;
      if first >= 0 && LastMissing(A.Note(a, Wrap(id)), first, cargo[id].index) then [first] else []
  }

  /** The frames that start with a symbol; outside the stream there are none. */
  function FramesAt(cargo: seq<Cargo>, id: int): seq<Vector> {
    if 0 <= id < |cargo| then StartedBy(cargo[id]) else []
  }

  function FramesOf(cargo: seq<Cargo>, ids: seq<int>): seq<Vector> {
    if ids == [] then [] else FramesOf(cargo, ids[..|ids| - 1]) + FramesAt(cargo, ids[|ids| - 1])
  }

  lemma {:induction false} FramesOfJoin(cargo: seq<Cargo>, a: seq<int>, b: seq<int>)
    ensures FramesOf(cargo, a + b) == FramesOf(cargo, a) + FramesOf(cargo, b)
  {
    hide FramesAt;
    if b == [] {
      assert a + b == a;
    } else {
      var n := |b| - 1;
      assert (a + b)[..|a| + n] == a + b[..n];
      FramesOfJoin(cargo, a, b[..n]);
    }
  }

  lemma OneHanded(cargo: seq<Cargo>, id: int)
    ensures FramesOf(cargo, [id]) == FramesAt(cargo, id) && FramesOf(cargo, []) == []
  {
    assert [id][..0] == [];
  }

  lemma ZerosAreMalformed(v: Vector)
    requires Padded(v, [])
    ensures ParseSymbol(v) == Malformed
  {
  }

  // ---------- what is handed up is paid for by readings ----------

  function Spare(a: A.Assembler, first: nat, j: nat): nat {
    if Holding(a, first, j) then 1 else 0
  }

  /**
   Whole frames are handed up once for every reading of their symbol; every handing up
   of a fragmented frame uses up one reading of each of its fragments.
   */
  ghost predicate Paid(
    cargo: seq<Cargo>, before: A.Assembler, handed: seq<int>, after: A.Assembler, readings: seq<int>) {
    && (forall id :: 0 <= id < |cargo| && cargo[id].Whole? ==> multiset(handed)[id] == multiset(readings)[id])
    && (forall first: nat, j: nat :: A.Heads(cargo, first) && j < A.Size(cargo, first) ==>
          multiset(handed)[first] + Spare(after, first, j) <= Spare(before, first, j) + multiset(readings)[first + j])
  }

  /** One stretch of readings: what it hands up, and what the assembler holds after it. */
  ghost predicate Deals(
    cargo: seq<Cargo>, before: A.Assembler, handed: seq<int>, after: A.Assembler, readings: seq<int>,
    frames: seq<Vector>) {
    Rightful(cargo, after) && frames == FramesOf(cargo, handed) && Paid(cargo, before, handed, after, readings)
  }

  lemma DealsJoin(
    cargo: seq<Cargo>, a: A.Assembler, h1: seq<int>, b: A.Assembler, r1: seq<int>, f1: seq<Vector>,
    h2: seq<int>, c: A.Assembler, r2: seq<int>, f2: seq<Vector>)
    requires Deals(cargo, a, h1, b, r1, f1) && Deals(cargo, b, h2, c, r2, f2)
    ensures Deals(cargo, a, h1 + h2, c, r1 + r2, f1 + f2)
  {
    hide Rightful, A.Heads, A.Size, Spare, FramesOf;
    FramesOfJoin(cargo, h1, h2);
    assert multiset(h1 + h2) == multiset(h1) + multiset(h2);
    assert multiset(r1 + r2) == multiset(r1) + multiset(r2);
    forall first: nat, j: nat | A.Heads(cargo, first) && j < A.Size(cargo, first)
      ensures multiset(h1 + h2)[first] + Spare(c, first, j) <= Spare(a, first, j) + multiset(r1 + r2)[first + j]
    {
      assert multiset(h1)[first] + Spare(b, first, j) <= Spare(a, first, j) + multiset(r1)[first + j];
      assert multiset(h2)[first] + Spare(c, first, j) <= Spare(b, first, j) + multiset(r2)[first + j];
    }
  }

  /** Nothing but dropping groups. */
  ghost predicate Fewer(a: A.Assembler, b: A.Assembler) {
    forall k :: k in b.groups ==> k in a.groups && b.groups[k] == a.groups[k]
  }

  lemma FewerDeals(cargo: seq<Cargo>, a: A.Assembler, b: A.Assembler)
    requires Rightful(cargo, a) && Fewer(a, b)
    ensures Deals(cargo, a, [], b, [], [])
  {
    hide PartsRight, A.Heads, A.Size;
  }

  lemma NoteFewer(a: A.Assembler, esi: Id)
    ensures Fewer(a, A.Note(a, esi))
  {
    hide A.TooOld;
  }

  lemma {:induction false} LoseAllFewer(a: A.Assembler, ids: seq<Id>)
    ensures Fewer(a, C.LoseAll(a, ids))
  {
    hide A.Spans, A.Note;
    if ids != [] {
      var n := |ids| - 1;
      LoseAllFewer(a, ids[..n]);
      NoteFewer(C.LoseAll(a, ids[..n]), ids[n]);
    }
  }

  // ---------- one reading ----------

  /** A symbol of whole frames hands them up, whatever was read before. */
  lemma WholeRead(cargo: seq<Cargo>, a: A.Assembler, id: nat, v: Vector)
    requires id < |cargo| && cargo[id].Whole? && Sendable(cargo[id]) && Padded(v, VectorOf(cargo[id]))
    ensures A.Arrived(a, Wrap(id), v) == A.Arrival(A.Note(a, Wrap(id)), cargo[id].frames, true)
  {
    hide A.Note, ParseFrames, Pack, Wrap, ParseSymbol, VectorOf;
    A.ParsedCargo(cargo[id], v);
    PackRoundTrip(cargo[id].frames, []);
    assert Pack(cargo[id].frames) + [] == Pack(cargo[id].frames);
    assert cargo[id].frames + ParseFrames([]) == cargo[id].frames by { ParseNothing(); }
  }

  lemma PartRead(cargo: seq<Cargo>, a: A.Assembler, id: nat, v: Vector)
    requires A.Sender(cargo) && id < |cargo| && cargo[id].Part? && Sendable(cargo[id]) && Padded(v, VectorOf(cargo[id]))
    ensures cargo[id].limit > 0 && cargo[id].index <= id < MODULUS
    ensures var r := A.TakePart(A.Note(a, Wrap(id)), id - cargo[id].index,
                                Payload(cargo[id]), cargo[id].index, PartCount(cargo[id]));
            A.Arrived(a, Wrap(id), v) == A.Arrival(r.0, r.1, true)
    ensures IsFragment(cargo[id].frame, cargo[id].limit, cargo[id].index, Payload(cargo[id]))
  {
    hide A.Note, ParseSymbol, VectorOf, A.TakePart, FragmentCount, A.Sender, Wrap, Payload;
    A.ParsedCargo(cargo[id], v);
    A.SenderAt(cargo, id);
    A.PartHead(cargo, id);
    WrapSmall(id);
    WrapSmall(id - cargo[id].index);
  }

  /** The group a fragment finds or opens. */
  function GroupAt(a: A.Assembler, first: Id, count: nat): A.Group {
    if first in a.groups then a.groups[first] else A.Group(A.NoParts(count), 0)
  }

  lemma GroupAtRight(cargo: seq<Cargo>, a: A.Assembler, first: nat)
    requires Rightful(cargo, a) && A.Heads(cargo, first) && first < MODULUS && A.Size(cargo, first) > 0
    ensures PartsRight(cargo, first, GroupAt(a, first, A.Size(cargo, first)))
  {
    hide A.Filled, IsFragment, A.Heads;
    A.NoneFilled(A.Size(cargo, first));
  }

  /** A fragment put in its place: either some part is still missing, or the parts are the frame. */
  lemma PartPut(cargo: seq<Cargo>, first: nat, g: A.Group, j: nat, payload: Vector)
    requires A.Heads(cargo, first) && PartsRight(cargo, first, g) && j < |g.parts| && g.parts[j] == []
    requires IsFragment(cargo[first].frame, cargo[first].limit, j, payload)
    ensures var h := A.Group(g.parts[j := payload], g.held + 1);
            && payload != []
            && (h.held < |h.parts| <==> exists i: nat :: i < |g.parts| && i != j && g.parts[i] == [])
            && (h.held < |h.parts| ==> PartsRight(cargo, first, h))
            && (h.held >= |h.parts| ==> Concat(h.parts) == cargo[first].frame)
  {
    hide A.Filled, IsFragment, Concat;
    var h := A.Group(g.parts[j := payload], g.held + 1);
    FragmentFull(cargo[first].frame, cargo[first].limit, j, payload);
    A.FilledPut(g.parts, j, payload);
    A.FilledBound(h.parts);
    assert forall i: nat :: i < |g.parts| && i != j ==> h.parts[i] == g.parts[i];
    if h.held >= |h.parts| {
      A.PartsAreFrame(cargo[first].frame, cargo[first].limit, h.parts);
    }
  }

  /** What a fragment changes: its place is filled, or its group is complete and goes. */
  lemma TakePartExact(cargo: seq<Cargo>, b: A.Assembler, first: nat, index: nat, payload: Vector)
    requires A.Sender(cargo) && Rightful(cargo, b) && A.Heads(cargo, first) && index < A.Size(cargo, first)
             && first < MODULUS
    requires IsFragment(cargo[first].frame, cargo[first].limit, index, payload)
    ensures var r := A.TakePart(b, first, payload, index, A.Size(cargo, first));
            && Rightful(cargo, r.0)
            && (forall x: nat, j: nat :: x != first ==> Holding(r.0, x, j) == Holding(b, x, j))
            && r.1 == (if LastMissing(b, first, index) then [cargo[first].frame] else [])
            && (forall j: nat :: j < A.Size(cargo, first) ==>
                  && (Holding(r.0, first, j) <==> !LastMissing(b, first, index) && (Holding(b, first, j) || j == index))
                  && (LastMissing(b, first, index) ==> Holding(b, first, j) || j == index))
  {
    hide A.Sender, A.Filled, Concat, FragmentCount, IsFragment, A.Heads, A.Size, PartsRight;
    A.SizeBound(cargo, first);
    var g := GroupAt(b, first, A.Size(cargo, first));
    GroupAtRight(cargo, b, first);
    PartsSize(cargo, first, g);
    assert forall j: nat :: j < |g.parts| ==> (Holding(b, first, j) <==> g.parts[j] != []);
    if g.parts[index] != [] {
      assert Holding(b, first, index);
    } else {
      PartPut(cargo, first, g, index, payload);
      var h := A.Group(g.parts[index := payload], g.held + 1);
      if h.held >= |h.parts| {
        var i := if index == 0 then 1 else 0;
        assert g.parts[i] != [];
        assert LastMissing(b, first, index);
      } else {
        assert !LastMissing(b, first, index);
      }
    }
  }

  lemma PartsSize(cargo: seq<Cargo>, first: nat, g: A.Group)
    requires A.Heads(cargo, first) && PartsRight(cargo, first, g)
    ensures |g.parts| == A.Size(cargo, first)
  {
  }

  lemma TakePartDeals(cargo: seq<Cargo>, b: A.Assembler, id: nat, payload: Vector)
    requires A.Sender(cargo) && Rightful(cargo, b) && id < |cargo| && cargo[id].Part? && cargo[id].limit > 0
    requires cargo[id].index <= id < MODULUS && IsFragment(cargo[id].frame, cargo[id].limit, cargo[id].index, payload)
    ensures var index, first := cargo[id].index, id - cargo[id].index;
            var r := A.TakePart(b, first, payload, index, PartCount(cargo[id]));
            Deals(cargo, b, if LastMissing(b, first, index) then [first] else [], r.0, [id], r.1)
  {
    hide A.Sender, FragmentCount, IsFragment, A.Heads, A.Size, FramesOf, Rightful, A.TakePart, LastMissing;
    var index, first := cargo[id].index, id - cargo[id].index;
    A.PartHead(cargo, id);
    TakePartExact(cargo, b, first, index, payload);
    OneHanded(cargo, first);
    var r := A.TakePart(b, first, payload, index, PartCount(cargo[id]));
    var handed := if LastMissing(b, first, index) then [first] else [];
    forall x: nat, j: nat | A.Heads(cargo, x) && j < A.Size(cargo, x)
      ensures multiset(handed)[x] + Spare(r.0, x, j) <= Spare(b, x, j) + multiset([id])[x + j]
    {
      if x == first {
        assert multiset([id])[x + j] == if j == index then 1 else 0;
      } else if x + j == id {
        A.OneGroup(cargo, x, id);
      }
    }
  }
  /** A reading in any state the assembler can be in: what it hands up and what it costs. */
  lemma ReadDeals(cargo: seq<Cargo>, vectors: seq<Vector>, a: A.Assembler, id: int, v: Vector)
    requires A.Sender(cargo) && Encoded(vectors, cargo) && Rightful(cargo, a) && Padded(v, W.Sent(vectors)(id))
    ensures var r := A.Arrived(a, Wrap(id), v);
            r.valid == (0 <= id < |cargo|) && Deals(cargo, a, HandedBy(cargo, a, id), r.state, [id], r.frames)
  {
    hide A.Sender, A.Note, ParseSymbol, VectorOf, Wrap, Rightful, Paid, FramesOf, Padded, A.Arrived, A.TakePart,
         LastMissing, Payload;
    var b := A.Note(a, Wrap(id));
    NoteFewer(a, Wrap(id));
    FewerDeals(cargo, a, b);
    if 0 <= id < |cargo| {
      C.EncodedAt(vectors, cargo, id);
      if cargo[id].Whole? {
        WholeRead(cargo, a, id, v);
        WholeDeals(cargo, b, id);
        DealsJoin(cargo, a, [], b, [], [], [id], b, [id], cargo[id].frames);
        assert [] + [id] == [id] && [] + cargo[id].frames == cargo[id].frames;
      } else {
        PartRead(cargo, a, id, v);
        var index, first := cargo[id].index, id - cargo[id].index;
        TakePartDeals(cargo, b, id, Payload(cargo[id]));
        var r := A.TakePart(b, first, Payload(cargo[id]), index, PartCount(cargo[id]));
        var handed := HandedBy(cargo, a, id);
        DealsJoin(cargo, a, [], b, [], [], handed, r.0, [id], r.1);
        assert [] + [id] == [id] && [] + r.1 == r.1 && [] + handed == handed;
      }
    } else {
      NothingDeals(cargo, vectors, a, id, v);
    }
  }

  lemma WholeDeals(cargo: seq<Cargo>, b: A.Assembler, id: int)
    requires A.Sender(cargo) && Rightful(cargo, b) && 0 <= id < |cargo| && cargo[id].Whole?
    ensures Deals(cargo, b, [id], b, [id], cargo[id].frames)
  {
    hide A.Sender, Rightful, FramesOf;
    OneHanded(cargo, id);
    forall first: nat | A.Heads(cargo, first)
      ensures multiset([id])[first] == 0
    {
      assert first != id;
    }
  }

  /** Outside the stream there are only zeros, which are no symbol. */
  lemma NothingDeals(cargo: seq<Cargo>, vectors: seq<Vector>, a: A.Assembler, id: int, v: Vector)
    requires Rightful(cargo, a) && |vectors| == |cargo| && !(0 <= id < |cargo|) && Padded(v, W.Sent(vectors)(id))
    ensures var r := A.Arrived(a, Wrap(id), v);
            !r.valid && Deals(cargo, a, [], r.state, [id], r.frames)
  {
    hide A.Note, Wrap, Rightful, FramesOf, ParseSymbol, Deals;
    var b := A.Note(a, Wrap(id));
    ZerosAreMalformed(v);
    NoteFewer(a, Wrap(id));
    FewerDeals(cargo, a, b);
    ReadForNothing(cargo, a, b, id);
  }

  lemma ReadForNothing(cargo: seq<Cargo>, a: A.Assembler, b: A.Assembler, id: int)
    requires Deals(cargo, a, [], b, [], []) && !(0 <= id < |cargo|)
    ensures Deals(cargo, a, [], b, [id], [])
  {
    hide Rightful, FramesOf, A.Size, A.Heads;
    forall first: nat, j: nat | A.Heads(cargo, first) && j < A.Size(cargo, first)
      ensures multiset([])[first] + Spare(b, first, j) <= Spare(a, first, j) + multiset([id])[first + j]
    {
      assert multiset([])[first] + Spare(b, first, j) <= Spare(a, first, j) + multiset([])[first + j];
    }
  }

  /** The identifiers read, in order: each source that arrives, then what the decoder recovers for it. */
  ghost function Reads(stream: D.Stream, packets: seq<D.Packet>): seq<int> {
    if packets == [] then [] else
      var n := |packets| - 1;
      Reads(stream, packets[..n]) + ReadFor(stream, D.Run(stream, packets[..n]), packets[n])
  }

  ghost function ReadFor(stream: D.Stream, c: D.Config, pk: D.Packet): seq<int>
    requires Sized(c.st)
  {
    (if pk.SourcePacket? then [pk.id] else [])
        + Ids(D.Reports(D.BaseAfter(c, pk), D.Deliver(stream, c.st, pk).recovered))
  }

  function Ids(reports: seq<D.Report>): (ids: seq<int>)
    ensures |ids| == |reports| && forall k :: 0 <= k < |ids| ==> ids[k] == reports[k].id
  {
    seq(|reports|, k requires 0 <= k < |reports| => reports[k].id)
  }

  /** What a batch of recovered symbols hands up. */
  ghost function HandedByAll(cargo: seq<Cargo>, a: A.Assembler, symbols: seq<Symbol>, ids: seq<int>): seq<int>
    requires |ids| == |symbols|
  {
    if symbols == [] then [] else
      var n := |symbols| - 1;
      HandedByAll(cargo, a, symbols[..n], ids[..n]) + HandedBy(cargo, C.ArriveAll(a, symbols[..n]).0, ids[n])
  }

  /** What a datagram hands up: for the source symbol it carries, then for each symbol recovered. */
  ghost function HandedFor(cargo: seq<Cargo>, stream: D.Stream, r: C.Receiver, c: D.Config, pk: D.Packet): seq<int>
    requires Sized(c.st)
  {
    var symbols := D.Deliver(stream, c.st, pk).recovered;
    var ids := Ids(D.Reports(D.BaseAfter(c, pk), symbols));
    if pk.SourcePacket? then
      HandedBy(cargo, r.asm, pk.id)
          + HandedByAll(cargo, A.Arrived(r.asm, Wrap(pk.id), stream(pk.id)).state, symbols, ids)
    else HandedByAll(cargo, r.asm, symbols, ids)
  }

  /** Where the frames handed up over a run start, in the order they were handed up. */
  ghost function Handed(cargo: seq<Cargo>, stream: D.Stream, packets: seq<D.Packet>): seq<int> {
    if packets == [] then [] else
      var n := |packets| - 1;
      Handed(cargo, stream, packets[..n])
      + HandedFor(cargo, stream, C.Receive(stream, packets[..n]), D.Run(stream, packets[..n]), packets[n])
  }

  lemma {:induction false} ArriveAllDeals(
    cargo: seq<Cargo>, vectors: seq<Vector>, a: A.Assembler, symbols: seq<Symbol>, reports: seq<D.Report>)
    requires A.Sender(cargo) && Encoded(vectors, cargo) && Rightful(cargo, a) && |reports| == |symbols|
    requires D.AllRight(W.Sent(vectors), reports)
    requires forall k :: 0 <= k < |symbols| ==>
               reports[k].esi == symbols[k].esi && reports[k].vector == symbols[k].vector
    ensures var r := C.ArriveAll(a, symbols);
            Deals(cargo, a, HandedByAll(cargo, a, symbols, Ids(reports)), r.0, Ids(reports), r.1)
  {
    hide A.Sender, Encoded, A.Arrived, Padded, Paid, HandedBy, FramesOf, Rightful;
    if symbols == [] {
      FewerDeals(cargo, a, a);
      assert Ids(reports) == [];
    } else {
      var n := |symbols| - 1;
      ArriveAllDeals(cargo, vectors, a, symbols[..n], reports[..n]);
      var id, before := reports[n].id, C.ArriveAll(a, symbols[..n]);
      assert Ids(reports)[..n] == Ids(reports[..n]) && Ids(reports) == Ids(reports[..n]) + [id];
      assert Padded(reports[n].vector, W.Sent(vectors)(id)) && reports[n].esi == Wrap(id);
      ReadDeals(cargo, vectors, before.0, id, symbols[n].vector);
      var last := A.Arrived(before.0, symbols[n].esi, symbols[n].vector);
      DealsJoin(cargo, a, HandedByAll(cargo, a, symbols[..n], Ids(reports[..n])), before.0, Ids(reports[..n]), before.1,
                HandedBy(cargo, before.0, id), last.state, [id], last.frames);
    }
  }

  ghost predicate AllIssued(vectors: seq<Vector>, packets: seq<D.Packet>) {
    forall i :: 0 <= i < |packets| ==> C.Issued(vectors, packets[i])
  }

  lemma ReportsGrow(stream: D.Stream, c: D.Config, pk: D.Packet)
    requires Sized(c.st) && D.AllRight(stream, D.Step(stream, c, pk).reports)
    ensures D.AllRight(stream, c.reports)
    ensures D.AllRight(stream, D.Reports(D.BaseAfter(c, pk), D.Deliver(stream, c.st, pk).recovered))
  {
    hide Padded, D.Deliver, D.Admitted;
    var more := D.Reports(D.BaseAfter(c, pk), D.Deliver(stream, c.st, pk).recovered);
    var all := D.Step(stream, c, pk).reports;
    assert all == c.reports + more;
    assert forall k :: 0 <= k < |c.reports| ==> all[k] == c.reports[k];
    assert forall k :: 0 <= k < |more| ==> all[|c.reports| + k] == more[k];
  }

  /** What the decoder says about a datagram, passed on. */
  lemma PassOnDeals(cargo: seq<Cargo>, vectors: seq<Vector>, a: A.Assembler, c: D.Config, pk: D.Packet)
    requires A.Sender(cargo) && Encoded(vectors, cargo) && Rightful(cargo, a) && Sized(c.st)
    requires D.AllRight(W.Sent(vectors), D.Reports(D.BaseAfter(c, pk), D.Deliver(W.Sent(vectors), c.st, pk).recovered))
    ensures var o := D.Deliver(W.Sent(vectors), c.st, pk);
            var ids, p := Ids(D.Reports(D.BaseAfter(c, pk), o.recovered)), C.PassOn(a, o);
            Deals(cargo, a, HandedByAll(cargo, a, o.recovered, ids), p.0, ids, p.1)
  {
    hide A.Sender, Encoded, D.Deliver, C.ArriveAll, C.LoseAll, D.AllRight, FramesOf, Ids, Paid, HandedByAll, Fewer,
         Rightful, D.BaseAfter;
    var o := D.Deliver(W.Sent(vectors), c.st, pk);
    var reports, r := D.Reports(D.BaseAfter(c, pk), o.recovered), C.ArriveAll(a, o.recovered);
    var ids := Ids(reports);
    ArriveAllDeals(cargo, vectors, a, o.recovered, reports);
    LoseAllFewer(r.0, o.lost);
    FewerDeals(cargo, r.0, C.LoseAll(r.0, o.lost));
    var handed := HandedByAll(cargo, a, o.recovered, ids);
    DealsJoin(cargo, a, handed, r.0, ids, r.1, [], C.LoseAll(r.0, o.lost), [], []);
    assert handed + [] == handed && ids + [] == ids && r.1 + [] == r.1;
  }

  lemma SourceDeals(cargo: seq<Cargo>, vectors: seq<Vector>, r: C.Receiver, c: D.Config, pk: D.Packet)
    requires A.Sender(cargo) && Encoded(vectors, cargo) && C.Issued(vectors, pk) && pk.SourcePacket?
    requires Rightful(cargo, r.asm) && r.st == c.st && Sized(c.st)
    requires D.AllRight(W.Sent(vectors), D.Reports(D.BaseAfter(c, pk), D.Deliver(W.Sent(vectors), c.st, pk).recovered))
    ensures var s := W.Sent(vectors);
            var q, read := C.OnDatagram(s, r, pk), A.Arrived(r.asm, Wrap(pk.id), s(pk.id));
            var p := C.PassOn(read.state, D.Deliver(s, c.st, pk));
            && q.st == D.Step(s, c, pk).st && r.out <= q.out
            && Deals(cargo, r.asm, HandedFor(cargo, s, r, c, pk), q.asm, ReadFor(s, c, pk), q.out[|r.out|..])
            && (cargo[pk.id].Whole? ==> q.out == r.out + cargo[pk.id].frames + p.1)
  {
    hide A.Sender, Encoded, A.Arrived, Padded, Paid, D.Deliver, C.PassOn, D.AllRight, D.BaseAfter, D.Reports, Wrap,
         FramesOf, Ids, HandedBy, HandedByAll, Rightful;
    var s, id := W.Sent(vectors), pk.id;
    var o := D.Deliver(s, c.st, pk);
    var ids := Ids(D.Reports(D.BaseAfter(c, pk), o.recovered));
    var read := A.Arrived(r.asm, Wrap(id), s(id));
    C.EncodedAt(vectors, cargo, id);
    C.PaddedSelf(s(id));
    ReadDeals(cargo, vectors, r.asm, id, s(id));
    PassOnDeals(cargo, vectors, read.state, c, pk);
    var p := C.PassOn(read.state, o);
    DealsJoin(cargo, r.asm, HandedBy(cargo, r.asm, id), read.state, [id], read.frames,
              HandedByAll(cargo, read.state, o.recovered, ids), p.0, ids, p.1);
    var q := C.OnDatagram(s, r, pk);
    assert q.out == r.out + (read.frames + p.1);
    if cargo[id].Whole? {
      WholeRead(cargo, r.asm, id, s(id));
    }
  }

  /** One datagram hands up what it completes. */
  lemma DatagramDeals(cargo: seq<Cargo>, vectors: seq<Vector>, r: C.Receiver, c: D.Config, pk: D.Packet)
    requires A.Sender(cargo) && Encoded(vectors, cargo) && C.Issued(vectors, pk)
    requires Rightful(cargo, r.asm) && r.st == c.st && Sized(c.st)
    requires D.AllRight(W.Sent(vectors), D.Reports(D.BaseAfter(c, pk), D.Deliver(W.Sent(vectors), c.st, pk).recovered))
    ensures var s := W.Sent(vectors);
            var q := C.OnDatagram(s, r, pk);
            && q.st == D.Step(s, c, pk).st && r.out <= q.out
            && Deals(cargo, r.asm, HandedFor(cargo, s, r, c, pk), q.asm, ReadFor(s, c, pk), q.out[|r.out|..])
  {
    hide A.Sender, Encoded, A.Arrived, Paid, D.Deliver, C.PassOn, D.AllRight, D.BaseAfter, D.Reports, FramesOf, Ids,
         D.Satisfies, HandedByAll, Rightful, HandedBy;
    if pk.SourcePacket? {
      SourceDeals(cargo, vectors, r, c, pk);
    } else {
      PassOnDeals(cargo, vectors, r.asm, c, pk);
      var o := D.Deliver(W.Sent(vectors), c.st, pk);
      var more := Ids(D.Reports(D.BaseAfter(c, pk), o.recovered));
      assert [] + more == more;
      assert (r.out + C.PassOn(r.asm, o).1)[|r.out|..] == C.PassOn(r.asm, o).1;
    }
  }

  lemma {:induction false} RunDeals(cargo: seq<Cargo>, vectors: seq<Vector>, packets: seq<D.Packet>)
    requires A.Sender(cargo) && Encoded(vectors, cargo) && AllIssued(vectors, packets)
    requires D.AllRight(W.Sent(vectors), D.Run(W.Sent(vectors), packets).reports)
    ensures var s := W.Sent(vectors);
            var r := C.Receive(s, packets);
            && r.st == D.Run(s, packets).st
            && Deals(cargo, A.Fresh(), Handed(cargo, s, packets), r.asm, Reads(s, packets), r.out)
  {
    hide A.Sender, Encoded, D.AllRight, D.Step, C.OnDatagram, ReadFor, C.Issued, HandedFor, Deals, Rightful;
    var s := W.Sent(vectors);
    if packets == [] {
      FreshRightful(cargo);
      FewerDeals(cargo, A.Fresh(), A.Fresh());
    } else {
      var n := |packets| - 1;
      var c, r, pk := D.Run(s, packets[..n]), C.Receive(s, packets[..n]), packets[n];
      ReportsGrow(s, c, pk);
      RunDeals(cargo, vectors, packets[..n]);
      DealsRightful(cargo, A.Fresh(), Handed(cargo, s, packets[..n]), r.asm, Reads(s, packets[..n]), r.out);
      DatagramDeals(cargo, vectors, r, c, pk);
      var q := C.OnDatagram(s, r, pk);
      DealsJoin(cargo, A.Fresh(), Handed(cargo, s, packets[..n]), r.asm, Reads(s, packets[..n]), r.out,
                HandedFor(cargo, s, r, c, pk), q.asm, ReadFor(s, c, pk), q.out[|r.out|..]);
      assert r.out + q.out[|r.out|..] == q.out;
    }
  }

  lemma DealsRightful(
    cargo: seq<Cargo>, a: A.Assembler, handed: seq<int>, b: A.Assembler, readings: seq<int>, frames: seq<Vector>)
    requires Deals(cargo, a, handed, b, readings, frames)
    ensures Rightful(cargo, b)
  {
  }

  lemma FreshRightful(cargo: seq<Cargo>)
    ensures Rightful(cargo, A.Fresh())
  {
  }

  /**
   In any order, with any repeats, as long as what the decoder recovers is right: what is
   handed up are frames of the stream, byte for byte. Whole frames come up once for every
   reading of their symbol. A fragmented frame comes up at most as often as each one of
   its fragments is read: a group that was completed is opened again by the next fragment
   of it, and nothing more comes of it until every other has been read again as well.
   */
  lemma HandedUpAsOftenAsRead(cargo: seq<Cargo>, vectors: seq<Vector>, packets: seq<D.Packet>)
    requires A.Sender(cargo) && Encoded(vectors, cargo) && AllIssued(vectors, packets)
    requires D.AllRight(W.Sent(vectors), D.Run(W.Sent(vectors), packets).reports)
    ensures var s := W.Sent(vectors);
            var handed, times := Handed(cargo, s, packets), multiset(Reads(s, packets));
            && C.Receive(s, packets).out == FramesOf(cargo, handed)
            && (forall id :: 0 <= id < |cargo| && cargo[id].Whole? ==> multiset(handed)[id] == times[id])
            && (forall first: nat, j: nat :: A.Heads(cargo, first) && j < A.Size(cargo, first) ==>
                  multiset(handed)[first] + Spare(C.Receive(s, packets).asm, first, j) <= times[first + j])
  {
    hide A.Sender, Encoded, C.Receive, D.Run, Reads, Handed, FramesOf, Rightful, A.Heads, A.Size;
    RunDeals(cargo, vectors, packets);
  }

  /** A fragment of a group that was completed, or of one dropped, opens it again with itself alone. */
  lemma ReopensGroup(cargo: seq<Cargo>, vectors: seq<Vector>, a: A.Assembler, id: nat)
    requires A.Sender(cargo) && Encoded(vectors, cargo) && Rightful(cargo, a)
    requires id < |cargo| && cargo[id].Part? && cargo[id].index <= id && id - cargo[id].index !in a.groups
    ensures var r, first := A.Arrived(a, Wrap(id), VectorOf(cargo[id])), id - cargo[id].index;
            && A.Heads(cargo, first) && r.valid && r.frames == [] && first in r.state.groups
            && (forall j: nat :: j < A.Size(cargo, first) ==> (Holding(r.state, first, j) <==> j == cargo[id].index))
  {
    hide A.Sender, A.Note, Wrap, Rightful, Payload, A.TakePart, A.Heads, A.Size, A.Arrived, VectorOf, IsFragment;
    C.EncodedAt(vectors, cargo, id);
    C.PaddedSelf(VectorOf(cargo[id]));
    PartRead(cargo, a, id, VectorOf(cargo[id]));
    A.PartHead(cargo, id);
    NoteFewer(a, Wrap(id));
    FewerDeals(cargo, a, A.Note(a, Wrap(id)));
    TakePartExact(cargo, A.Note(a, Wrap(id)), id - cargo[id].index, cargo[id].index, Payload(cargo[id]));
    assert Holding(A.Arrived(a, Wrap(id), VectorOf(cargo[id])).state, id - cargo[id].index, cargo[id].index);
  }

  /** How many datagrams carry the symbol. */
  function SourcesOf(packets: seq<D.Packet>, id: int): nat {
    multiset(packets)[D.SourcePacket(id)]
  }

  /** How often the decoder has reported it recovered. */
  function RecoveriesOf(reports: seq<D.Report>, id: int): nat {
    multiset(Ids(reports))[id]
  }

  lemma IdsJoin(a: seq<D.Report>, b: seq<D.Report>)
    ensures Ids(a + b) == Ids(a) + Ids(b)
  {
  }

  lemma ReadForCount(stream: D.Stream, c: D.Config, pk: D.Packet, id: int)
    requires Sized(c.st)
    ensures multiset(ReadFor(stream, c, pk))[id]
         == (if pk == D.SourcePacket(id) then 1 else 0)
            + RecoveriesOf(D.Reports(D.BaseAfter(c, pk), D.Deliver(stream, c.st, pk).recovered), id)
  {
    hide D.Deliver, D.BaseAfter, D.Reports, Ids;
    var more := Ids(D.Reports(D.BaseAfter(c, pk), D.Deliver(stream, c.st, pk).recovered));
    assert multiset(ReadFor(stream, c, pk)) == multiset(if pk.SourcePacket? then [pk.id] else []) + multiset(more);
  }

  /** A symbol is read once for each datagram that carries it and once for each time it is recovered. */
  lemma {:induction false} ReadCount(stream: D.Stream, packets: seq<D.Packet>, id: int)
    ensures multiset(Reads(stream, packets))[id]
            == SourcesOf(packets, id) + RecoveriesOf(D.Run(stream, packets).reports, id)
  {
    hide D.Deliver, D.BaseAfter, D.Reports, ReadFor, Ids, D.Admitted;
    if packets == [] {
      NothingRecovered(id);
    } else {
      var n := |packets| - 1;
      ReadCount(stream, packets[..n], id);
      assert packets == packets[..n] + [packets[n]];
      var c, pk := D.Run(stream, packets[..n]), packets[n];
      IdsJoin(c.reports, D.Reports(D.BaseAfter(c, pk), D.Deliver(stream, c.st, pk).recovered));
      ReadForCount(stream, c, pk, id);
    }
  }

  lemma NothingRecovered(id: int)
    ensures Ids([]) == [] && RecoveriesOf([], id) == 0
  {
  }

  ghost predicate AllGenuine(stream: D.Stream, packets: seq<D.Packet>) {
    forall i :: 0 <= i < |packets| ==> D.Genuine(stream, packets[i])
  }

  /** The reports of the run are the recoveries of the account. */
  lemma {:induction false} ReportsAreRecoveries(stream: D.Stream, packets: seq<D.Packet>)
    requires AllGenuine(stream, packets) && F.OrderlyRun(C.Arrivals(stream, packets))
    ensures var c, f := D.Run(stream, packets), F.FateRun(C.Arrivals(stream, packets));
            Ids(c.reports) == f.recovered && c.st == f.st && c.base == f.base
  {
    hide D.Deliver, D.Step, F.FateStep, F.Orderly, F.Seen, D.Genuine, F.IdsOf, D.Reports, Ids, F.Accounted,
         D.BaseAfter;
    if packets == [] {
      NothingRecovered(0);
    } else {
      var n := |packets| - 1;
      var a := C.AsArrival(stream, packets[n]);
      assert C.Arrivals(stream, packets)[..n] == C.Arrivals(stream, packets[..n]);
      ReportsAreRecoveries(stream, packets[..n]);
      F.FateRunAccounted(C.Arrivals(stream, packets[..n]));
      var c, f := D.Run(stream, packets[..n]), F.FateRun(C.Arrivals(stream, packets[..n]));
      C.StepTogether(stream, c, f, packets[n]);
      var o := D.Deliver(stream, c.st, packets[n]);
      IdsJoin(c.reports, D.Reports(D.BaseAfter(c, packets[n]), o.recovered));
      IdsOfReports(D.BaseAfter(c, packets[n]), o.recovered);
      if !F.Seen(f, a) {
        F.UnseenChangesNothing(f, a);
        assert Ids(c.reports) + [] == Ids(c.reports);
      }
    }
  }

  lemma IdsOfReports(base: int, out: seq<Symbol>)
    ensures Ids(D.Reports(base, out)) == F.IdsOf(base, out) && (out == [] ==> F.IdsOf(base, out) == [])
  {
  }

  lemma RecoveredOnce(f: F.Fates, id: int)
    requires F.Accounted(f)
    ensures multiset(f.recovered)[id] <= 1
  {
    if f.st.started {
      C.OneFate(f, id);
    } else {
      assert multiset(f.recovered)[id] <= F.Tally(f)[id];
    }
  }
}
