/**
 Whole runs of the decoder against the stream a sender produced. Identifiers are
 here the symbols' true, unbounded positions; the decoder itself sees only their
 wrapped form.
 */
module DecoderRuns {
  import opened GaloisField
  import opened LinearSystem
  import opened SymbolIds
  import opened DecoderModel
  import opened DecoderInvariant
  import opened DecoderSemantics

  /** Every symbol by its true identifier. */
  type Stream = int -> Vector

  /** A datagram as the sender built it. */
  datatype Packet = SourcePacket(id: int) | RepairPacket(first: int, coefs: seq<Byte>, vector: Vector)

  function Newest(pk: Packet): int {
    match pk
    case SourcePacket(id) => id
    case RepairPacket(first, coefs, _) => first + |coefs| - 1
  }

  function Oldest(pk: Packet): int {
    match pk
    case SourcePacket(id) => id
    case RepairPacket(first, _, _) => first
  }

  /** The symbols of the window that starts at base, by slot. */
  ghost function Window(stream: Stream, base: int): (xs: seq<Vector>)
    ensures |xs| == WIDTH
  {
    seq(WIDTH, i requires 0 <= i < WIDTH => stream(IdAt(base, i)))
  }

  /** The symbols a repair covers, lowest first. */
  ghost function Span(stream: Stream, first: int, count: nat): (xs: seq<Vector>)
    ensures |xs| == count
  {
    seq(count, k requires 0 <= k < count => stream(first + k))
  }

  /** The stream satisfies the repair's equation. */
  ghost predicate Satisfies(stream: Stream, pk: Packet)
    requires pk.RepairPacket?
  {
    forall p: nat :: Sum(pk.coefs, Span(stream, pk.first, |pk.coefs|), p, |pk.coefs|) == At(pk.vector, p)
  }

  /** The packet is one the sender of this stream could have built. */
  ghost predicate Genuine(stream: Stream, pk: Packet) {
    pk.RepairPacket? ==>
      && 0 < |pk.coefs| <= MAX_REPAIR_WINDOW
      && Satisfies(stream, pk)
      && forall k :: 0 <= k < |pk.coefs| ==> |Span(stream, pk.first, |pk.coefs|)[k]| <= |pk.vector|
  }

  // ---------- the window and the stream ----------

  lemma IdOfIdAt(base: int, i: nat)
    requires i < WIDTH
    ensures IdOf(Wrap(base), i) == Wrap(IdAt(base, i))
    ensures Offset(Wrap(base), i) == IdAt(base, i) - base
  {
    var id := IdAt(base, i);
    var lo := Wrap(base);
    WrapPlus(base, id - base);
    SlotOfWrap(id);
    SlotOfWrap(lo + (id - base));
    SlotOffset(lo, id - base);
  }

  /** An identifier of the window sits at its own slot. */
  lemma WindowAt(stream: Stream, base: int, id: int)
    requires base <= id < base + WIDTH
    ensures Window(stream, base)[Slot(id)] == stream(id)
    ensures InWindow(Wrap(base), Wrap(id)) && Slot(Wrap(id)) == Slot(id)
  {
    IdAtSlot(base, id);
    SlotOfWrap(id);
    WrapMinus(id, base);
    WrapSmall(id - base);
  }

  lemma WindowNext(stream: Stream, base: int)
    ensures Window(stream, base) == Window(stream, base + 1)[Slot(base) := stream(base)]
  {
    forall i | 0 <= i < WIDTH
      ensures Window(stream, base)[i] == Window(stream, base + 1)[Slot(base) := stream(base)][i]
    {
      IdAtNext(base, i);
      if i == Slot(base) {
        IdAtSlot(base, base);
      }
    }
  }

  /** A repair laid out over the window says what the repair says. */
  lemma SpreadHolds(stream: Stream, base: int, pk: Packet)
    requires pk.RepairPacket? && |pk.coefs| <= WIDTH && base <= pk.first && pk.first + |pk.coefs| <= base + WIDTH
    ensures Holds(Row(0, Spread(Wrap(pk.first), pk.coefs), pk.vector), Window(stream, base)) <==> Satisfies(stream, pk)
  {
    hide Sum;
    var coef, xs, n := Spread(Wrap(pk.first), pk.coefs), Window(stream, base), |pk.coefs|;
    forall p: nat
      ensures Sum(coef, xs, p, WIDTH) == Sum(pk.coefs, Span(stream, pk.first, n), p, n)
    {
      SpreadSum(stream, base, pk, p, n);
      assert pk.coefs[..n] == pk.coefs;
      SpreadOfWrap(pk.first, pk.coefs);
    }
  }

  lemma SpreadOfWrap(first: int, coefs: seq<Byte>)
    ensures Spread(first, coefs) == Spread(Wrap(first), coefs)
  {
    forall i | 0 <= i < WIDTH
      ensures Spread(first, coefs)[i] == Spread(Wrap(first), coefs)[i]
    {
      SlotDifference(i, first);
    }
  }

  lemma SlotDifference(i: int, x: int)
    ensures Slot(i - Wrap(x)) == Slot(i - x)
  {
    var q := x / MODULUS;
    assert Wrap(x) == x - q * MODULUS;
    assert i - Wrap(x) == i - x + (q * 8388608) * WIDTH;
    SlotShift(i - x, q * 8388608);
  }

  lemma SpreadStep(first: int, coefs: seq<Byte>, n: nat)
    requires n < |coefs| <= WIDTH
    ensures Spread(first, coefs[..n]) == Spread(first, coefs[..n + 1])[Slot(first + n) := 0]
    ensures Spread(first, coefs[..n + 1])[Slot(first + n)] == coefs[n]
  {
    var s := Slot(first + n);
    SlotInverseAt(first, n);
    forall i | 0 <= i < WIDTH
      ensures Spread(first, coefs[..n])[i] == Spread(first, coefs[..n + 1])[s := 0][i]
    {
      SlotBack(first, i);
    }
  }

  lemma SlotInverseAt(first: int, n: nat)
    requires n < WIDTH
    ensures Slot(Slot(first + n) - first) == n
  {
    var s := Slot(first + n);
    var q := (first + n) / WIDTH;
    assert s - first == n + (-q) * WIDTH;
    SlotShift(n, -q);
  }

  lemma SlotBack(first: int, i: nat)
    requires i < WIDTH
    ensures Slot(first + Slot(i - first)) == i
  {
    SlotInverse(first, i);
  }

  lemma {:induction false} SpreadSum(stream: Stream, base: int, pk: Packet, p: nat, n: nat)
    requires pk.RepairPacket? && n <= |pk.coefs| <= WIDTH && base <= pk.first && pk.first + |pk.coefs| <= base + WIDTH
    ensures Sum(Spread(pk.first, pk.coefs[..n]), Window(stream, base), p, WIDTH)
         == Sum(pk.coefs, Span(stream, pk.first, |pk.coefs|), p, n)
  {
    hide Add, Mul, Spread;
    var part, xs := Spread(pk.first, pk.coefs[..n]), Window(stream, base);
    if n == 0 {
      SumOfZeros(part, xs, p, WIDTH);
    } else {
      SpreadSum(stream, base, pk, p, n - 1);
      SpreadStep(pk.first, pk.coefs, n - 1);
      var s := Slot(pk.first + n - 1);
      SumClear(part, xs, p, WIDTH, s);
      WindowAt(stream, base, pk.first + n - 1);
      var before, term := Sum(part, xs, p, WIDTH), Mul(pk.coefs[n - 1], At(stream(pk.first + n - 1), p));
      AddCancels(before, term);
    }
  }

  lemma SpreadLong(stream: Stream, base: int, pk: Packet)
    requires pk.RepairPacket? && Genuine(stream, pk) && base <= pk.first && pk.first + |pk.coefs| <= base + WIDTH
    ensures LongEnough(Row(0, Spread(Wrap(pk.first), pk.coefs), pk.vector), Window(stream, base))
  {
    hide Spread, Satisfies;
    SpreadOfWrap(pk.first, pk.coefs);
    var xs := Window(stream, base);
    forall i | 0 <= i < WIDTH && CoefAt(pk.first, pk.coefs, i) != 0
      ensures |xs[i]| <= |pk.vector|
    {
      var k := Slot(i - pk.first);
      SlotBack(pk.first, i);
      WindowAt(stream, base, pk.first + k);
      assert Span(stream, pk.first, |pk.coefs|)[k] == xs[i];
    }
  }

  // ---------- what a state says about the stream ----------

  /** The state is true of the stream, and its vectors are long enough to hold the symbols whole. */
  ghost predicate Sound(st: State, stream: Stream, base: int) {
    Consistent(st, Window(stream, base)) && Long(st, Window(stream, base))
  }

  /** The stream other agrees with everything the packet said about the sender's stream. */
  ghost predicate Agrees(other: Stream, stream: Stream, pk: Packet) {
    match pk
    case SourcePacket(id) => Same(stream(id), other(id))
    case RepairPacket(_, _, _) => Satisfies(other, pk)
  }

  ghost predicate Explains(other: Stream, stream: Stream, taken: seq<Packet>) {
    forall k :: 0 <= k < |taken| ==> Agrees(other, stream, taken[k])
  }

  /** The stream puts these symbols in the window. */
  ghost predicate Fits(other: Stream, base: int, xs: seq<Vector>) {
    |xs| == WIDTH && forall i :: 0 <= i < WIDTH ==> Same(other(IdAt(base, i)), xs[i])
  }

  /** Some stream that agrees with every packet taken puts these symbols in the window. */
  ghost predicate Explained(stream: Stream, taken: seq<Packet>, base: int, xs: seq<Vector>) {
    exists other: Stream :: Explains(other, stream, taken) && Fits(other, base, xs)
  }

  /** The decoder allows exactly the windows that the packets taken allow. */
  ghost predicate Exact(st: State, stream: Stream, taken: seq<Packet>, base: int) {
    forall xs: seq<Vector> :: |xs| == WIDTH ==> (Consistent(st, xs) <==> Explained(stream, taken, base, xs))
  }

  /** Every packet taken is about symbols before the limit. */
  ghost predicate Before(taken: seq<Packet>, limit: int) {
    forall k :: 0 <= k < |taken| ==> Newest(taken[k]) < limit
  }

  lemma AgreesBefore(a: Stream, b: Stream, stream: Stream, pk: Packet, limit: int)
    requires Newest(pk) < limit && forall id :: id < limit ==> a(id) == b(id)
    requires Agrees(a, stream, pk)
    ensures Agrees(b, stream, pk)
  {
    hide Sum;
    if pk.RepairPacket? {
      assert Span(a, pk.first, |pk.coefs|) == Span(b, pk.first, |pk.coefs|);
      forall p: nat
        ensures Sum(pk.coefs, Span(b, pk.first, |pk.coefs|), p, |pk.coefs|) == At(pk.vector, p)
      {
        assert Sum(pk.coefs, Span(a, pk.first, |pk.coefs|), p, |pk.coefs|) == At(pk.vector, p);
      }
    }
  }

  lemma ExplainsBefore(a: Stream, b: Stream, stream: Stream, taken: seq<Packet>, limit: int)
    requires Before(taken, limit) && forall id :: id < limit ==> a(id) == b(id)
    requires Explains(a, stream, taken)
    ensures Explains(b, stream, taken)
  {
    hide Agrees;
    forall k | 0 <= k < |taken|
      ensures Agrees(b, stream, taken[k])
    {
      AgreesBefore(a, b, stream, taken[k], limit);
    }
  }

  // ---------- sliding by one ----------

  lemma EvictSound(st: State, stream: Stream, base: int)
    requires Framed(st) && st.lo == Wrap(base) && Sound(st, stream, base)
    ensures Sound(Evict(st), stream, base + 1)
  {
    hide Holds, LongEnough, Led, Mixed, Apart, Without;
    var xs, s, r := Window(stream, base + 1), Slot(base), Evict(st);
    SlotOfWrap(base);
    WindowNext(stream, base);
    EvictForgets(st, xs, stream(base));
    EvictFramed(st);
    assert Window(stream, base) == xs[s := stream(base)];
    forall j | 0 <= j < |r.rows|
      ensures LongEnough(r.rows[j], xs)
    {
      assert r.rows[j] in st.rows;
      var k :| 0 <= k < |st.rows| && st.rows[k] == r.rows[j];
      LongElsewhere(st.rows[k], xs, s, stream(base));
    }
    forall i | 0 <= i < WIDTH && r.cells[i].Held?
      ensures |xs[i]| <= |r.cells[i].vector|
    {
      assert xs[s := stream(base)][i] == xs[i];
    }
  }

  lemma LongElsewhere(r: Row, xs: seq<Vector>, s: nat, v: Vector)
    requires s < |xs| && LongEnough(r, xs[s := v]) && r.coef[s] == 0
    ensures LongEnough(r, xs)
  {
    forall i | 0 <= i < |xs| && r.coef[i] != 0
      ensures |xs[i]| <= |r.data|
    {
      assert xs[s := v][i] == xs[i];
    }
  }

  lemma FitsNext(other: Stream, base: int, xs: seq<Vector>)
    requires Fits(other, base + 1, xs)
    ensures Fits(other, base, xs[Slot(base) := other(base)])
  {
    hide Same;
    forall i | 0 <= i < WIDTH
      ensures Same(other(IdAt(base, i)), xs[Slot(base) := other(base)][i])
    {
      IdAtNext(base, i);
      if i == Slot(base) {
        IdAtSlot(base, base);
        SameIsReflexive(other(base));
      }
    }
  }

  lemma EvictExactOneWay(st: State, stream: Stream, taken: seq<Packet>, base: int, xs: seq<Vector>)
    requires Reduced(st) && st.lo == Wrap(base) && Exact(st, stream, taken, base)
             && Explained(stream, taken, base + 1, xs)
    ensures Consistent(Evict(st), xs)
  {
    hide Consistent, Fits, Explains;
    var other: Stream :| Explains(other, stream, taken) && Fits(other, base + 1, xs);
    FitsNext(other, base, xs);
    SlotOfWrap(base);
    FitsSize(other, base + 1, xs);
    var ys := xs[Slot(base) := other(base)];
    assert Explained(stream, taken, base, ys);
    EvictForgets(st, xs, other(base));
  }

  lemma FitsSize(other: Stream, base: int, xs: seq<Vector>)
    requires Fits(other, base, xs)
    ensures |xs| == WIDTH
  {
  }

  lemma EvictExactOtherWay(st: State, stream: Stream, taken: seq<Packet>, base: int, xs: seq<Vector>)
    requires Reduced(st) && st.lo == Wrap(base) && Exact(st, stream, taken, base) && Before(taken, base + WIDTH)
    requires Consistent(Evict(st), xs)
    ensures Explained(stream, taken, base + 1, xs)
  {
    hide Consistent, Explains, Evict;
    ConsistentSize(Evict(st), xs);
    var v := EvictExtends(st, xs);
    SlotOfWrap(base);
    var ys := xs[Slot(base) := v];
    assert Explained(stream, taken, base, ys);
    var other: Stream :| Explains(other, stream, taken) && Fits(other, base, ys);
    var wider: Stream := id => if id == base + WIDTH then xs[Slot(base)] else other(id);
    ExplainsBefore(other, wider, stream, taken, base + WIDTH);
    forall i | 0 <= i < WIDTH
      ensures Same(wider(IdAt(base + 1, i)), xs[i])
    {
      IdAtNext(base, i);
      if i == Slot(base) {
        SameIsReflexive(xs[i]);
      } else {
        assert ys[i] == xs[i];
      }
    }
    assert Fits(wider, base + 1, xs);
  }

  lemma EvictExact(st: State, stream: Stream, taken: seq<Packet>, base: int)
    requires Reduced(st) && st.lo == Wrap(base) && Exact(st, stream, taken, base) && Before(taken, base + WIDTH)
    ensures Exact(Evict(st), stream, taken, base + 1)
  {
    hide Consistent, Explained, Evict;
    forall xs: seq<Vector> | |xs| == WIDTH
      ensures Consistent(Evict(st), xs) <==> Explained(stream, taken, base + 1, xs)
    {
      if Consistent(Evict(st), xs) {
        EvictExactOtherWay(st, stream, taken, base, xs);
      }
      if Explained(stream, taken, base + 1, xs) {
        EvictExactOneWay(st, stream, taken, base, xs);
      }
    }
  }

  /** An empty decoder allows every window, and so do packets that are all about earlier symbols. */
  lemma EmptyExact(st: State, stream: Stream, taken: seq<Packet>, base: int)
    requires Empty(st) && Before(taken, base) && Explains(stream, stream, taken)
    ensures Exact(st, stream, taken, base) && Sound(st, stream, base)
  {
    hide Explains;
    forall xs: seq<Vector> | |xs| == WIDTH
      ensures Consistent(st, xs) && Explained(stream, taken, base, xs)
    {
      var other: Stream := id => if base <= id < base + WIDTH then xs[Slot(id)] else stream(id);
      ExplainsBefore(stream, other, stream, taken, base);
      forall i | 0 <= i < WIDTH
        ensures Same(other(IdAt(base, i)), xs[i])
      {
        SameIsReflexive(xs[i]);
      }
      assert Fits(other, base, xs);
    }
  }

  // ---------- admission ----------

  /** The state faithfully records the packets taken: its form, what it asserts, and how much. */
  ghost predicate Tracks(st: State, stream: Stream, taken: seq<Packet>, base: int) {
    && Aligned(st) && Reduced(st) && st.lo == Wrap(base)
    && Sound(st, stream, base)
    && Exact(st, stream, taken, base)
    && Before(taken, base + WIDTH)
    && Explains(stream, stream, taken)
  }

  lemma {:induction false} EvictManyTracks(st: State, stream: Stream, taken: seq<Packet>, base: int, n: nat)
    requires Reduced(st) && st.lo == Wrap(base) && Sound(st, stream, base) && Exact(st, stream, taken, base)
    requires Before(taken, base + WIDTH)
    ensures var r := EvictMany(st, n); Sound(r, stream, base + n) && Exact(r, stream, taken, base + n)
    decreases n
  {
    hide Sound, Exact, Led, Mixed, Apart, Evict;
    if n > 0 {
      EvictReduced(st);
      EvictSound(st, stream, base);
      EvictExact(st, stream, taken, base);
      WrapPlus(base, 1);
      EvictManyTracks(Evict(st), stream, taken, base + 1, n - 1);
    }
  }

  /** Soundness and exactness are about the held symbols and equations only. */
  lemma TracksElsewhere(st: State, other: State, stream: Stream, taken: seq<Packet>, base: int)
    requires other.cells == st.cells && other.rows == st.rows
    ensures Sound(st, stream, base) ==> Sound(other, stream, base)
    ensures Exact(st, stream, taken, base) ==> Exact(other, stream, taken, base)
  {
    hide Holds, LongEnough, Explained;
    assert forall xs :: Consistent(other, xs) <==> Consistent(st, xs);
  }

  function NewBase(st: State, base: int, id: int): int {
    if !st.started || id >= base + WIDTH then id + 1 - WIDTH else base
  }

  lemma AdmitOrder(st: State, base: int, id: int)
    requires Aligned(st) && st.lo == Wrap(base) && -(HALF as int) <= id - base < HALF
    ensures Behind(Wrap(id), st.lo) <==> id < base
    ensures id >= base ==> (Behind(Wrap(id), st.high) <==> id < base + WIDTH) && Wrap(Wrap(id) - st.lo) == id - base
  {
    BehindIsLess(id, base);
    if id >= base {
      WindowTests(st, Wrap(id));
      WrapMinus(id, base);
      WrapSmall(id - base);
    }
  }

  lemma AdmitTracks(st: State, stream: Stream, taken: seq<Packet>, base: int, id: int)
    requires Good(st)
    requires if st.started then Tracks(st, stream, taken, base) else taken == []
    requires st.started ==> -(HALF as int) <= id - base < HALF
    ensures var a := Admit(st, Wrap(id));
            && (a.ok <==> st.started ==> id >= base)
            && (a.ok ==> Tracks(a.state, stream, taken, NewBase(st, base, id)))
            && (!a.ok ==> a.state == st && a.lost == [])
  {
    hide Sound, Exact, Led, Mixed, Apart, EvictMany, LostOf, Behind, Wrap;
    var a, base' := Admit(st, Wrap(id)), NewBase(st, base, id);
    AdmitGood(st, Wrap(id));
    WrapPlus(id, 1 - WIDTH);
    if !st.started {
      EmptyExact(a.state, stream, taken, base');
    } else {
      AdmitOrder(st, base, id);
      if id >= base + WIDTH {
        var n := Walked(st, Wrap(id));
        AdmitDistance(st, base, id);
        AdmitSlides(st, stream, taken, base, id, n);
      }
    }
  }

  lemma AdmitDistance(st: State, base: int, id: int)
    requires Aligned(st) && st.lo == Wrap(base) && WIDTH <= id - base < HALF
    ensures Walked(st, Wrap(id)) == if id - base + 1 - WIDTH < WIDTH then id - base + 1 - WIDTH else WIDTH
  {
    AdmitOrder(st, base, id);
    WindowTests(st, Wrap(id));
  }

  lemma AdmitSlides(st: State, stream: Stream, taken: seq<Packet>, base: int, id: int, n: nat)
    requires Good(st) && Tracks(st, stream, taken, base) && WIDTH <= id - base < HALF
    requires n == Walked(st, Wrap(id)) == if id - base + 1 - WIDTH < WIDTH then id - base + 1 - WIDTH else WIDTH
    ensures Tracks(Admit(st, Wrap(id)).state, stream, taken, id + 1 - WIDTH)
  {
    hide Sound, Exact, Led, Mixed, Apart, EvictMany, LostOf, Behind, Wrap;
    var a, slid := Admit(st, Wrap(id)), EvictMany(st, n);
    AdmitGood(st, Wrap(id));
    AdmitOrder(st, base, id);
    EvictManyLo(st, n);
    SlideEnds(st.lo, Wrap(id), n);
    WrapPlus(id, 1 - WIDTH);
    WrapPlus(base, n);
    if n == WIDTH {
      EvictWholeWindow(st);
      EmptyExact(a.state, stream, taken, id + 1 - WIDTH);
    } else {
      EvictManyTracks(st, stream, taken, base, n);
      TracksElsewhere(slid, a.state, stream, taken, id + 1 - WIDTH);
    }
  }

  // ---------- taking a packet ----------

  function RowOf(pk: Packet): Row
    requires pk.RepairPacket?
  {
    Row(0, Spread(Wrap(pk.first), pk.coefs), pk.vector)
  }

  /** What the packet says about the symbols in the window. */
  ghost predicate Says(stream: Stream, pk: Packet, xs: seq<Vector>)
    requires |xs| == WIDTH
  {
    match pk
    case SourcePacket(id) => Same(stream(id), xs[Slot(id)])
    case RepairPacket(_, _, _) => Holds(RowOf(pk), xs)
  }

  lemma HoldsOfSame(r: Row, xs: seq<Vector>, ys: seq<Vector>)
    requires |r.coef| == |xs| == |ys| && forall i :: 0 <= i < |xs| ==> Same(xs[i], ys[i])
    ensures Holds(r, xs) <==> Holds(r, ys)
  {
    hide Sum;
    forall q: nat
      ensures Sum(r.coef, xs, q, |xs|) == Sum(r.coef, ys, q, |xs|)
    {
      SumAgrees(r.coef, xs, ys, q, |xs|);
    }
  }

  lemma AgreesIsSays(other: Stream, stream: Stream, base: int, pk: Packet, xs: seq<Vector>)
    requires Fits(other, base, xs) && base <= Oldest(pk) && Newest(pk) < base + WIDTH
    requires pk.RepairPacket? ==> |pk.coefs| <= WIDTH
    ensures Agrees(other, stream, pk) <==> Says(stream, pk, xs)
  {
    match pk
    case SourcePacket(id) =>
      IdAtSlot(base, id);
      assert Same(other(id), xs[Slot(id)]);
    case RepairPacket(first, coefs, vector) =>
      hide Holds, Satisfies;
      SpreadHolds(other, base, pk);
      HoldsOfSame(RowOf(pk), Window(other, base), xs);
  }

  /** Taking a packet adds exactly what the packet says. */
  lemma ExactAfter(st: State, next: State, stream: Stream, taken: seq<Packet>, base: int, pk: Packet)
    requires Exact(st, stream, taken, base) && base <= Oldest(pk) && Newest(pk) < base + WIDTH
    requires pk.RepairPacket? ==> |pk.coefs| <= WIDTH
    requires forall xs: seq<Vector> :: |xs| == WIDTH ==>
               (Consistent(next, xs) <==> Consistent(st, xs) && Says(stream, pk, xs))
    ensures Exact(next, stream, taken + [pk], base)
  {
    hide Consistent, Agrees, Fits;
    forall xs: seq<Vector> | |xs| == WIDTH
      ensures Consistent(next, xs) <==> Explained(stream, taken + [pk], base, xs)
    {
      if Explained(stream, taken, base, xs) && Says(stream, pk, xs) {
        var other: Stream :| Explains(other, stream, taken) && Fits(other, base, xs);
        AgreesIsSays(other, stream, base, pk, xs);
        assert Explains(other, stream, taken + [pk]);
      }
      if Explained(stream, taken + [pk], base, xs) {
        var other: Stream :| Explains(other, stream, taken + [pk]) && Fits(other, base, xs);
        AgreesIsSays(other, stream, base, pk, xs);
        assert (taken + [pk])[|taken|] == pk;
        forall k | 0 <= k < |taken|
          ensures Agrees(other, stream, taken[k])
        {
          assert (taken + [pk])[k] == taken[k];
        }
        assert Explains(other, stream, taken);
      }
    }
  }

  lemma TakenAfter(stream: Stream, taken: seq<Packet>, base: int, pk: Packet)
    requires Before(taken, base + WIDTH) && Explains(stream, stream, taken)
    requires Newest(pk) < base + WIDTH && Agrees(stream, stream, pk)
    ensures Before(taken + [pk], base + WIDTH) && Explains(stream, stream, taken + [pk])
  {
  }

  /** A symbol already held says nothing new. */
  lemma KnownTracks(st: State, stream: Stream, taken: seq<Packet>, base: int, id: int)
    requires Tracks(st, stream, taken, base) && base <= id < base + WIDTH && Known(st, Wrap(id))
    ensures Tracks(st, stream, taken + [SourcePacket(id)], base)
  {
    hide Holds, Led, Mixed, Apart, Long;
    var pk := SourcePacket(id);
    WindowAt(stream, base, id);
    SameIsReflexive(stream(id));
    var s := Slot(id);
    var v := st.cells[s].vector;
    assert Same(v, Window(stream, base)[s]);
    forall xs: seq<Vector> | |xs| == WIDTH && Consistent(st, xs)
      ensures Says(stream, pk, xs)
    {
      assert Same(v, xs[s]);
      SameTransfers(v, stream(id), xs[s]);
    }
    ExactAfter(st, st, stream, taken, base, pk);
    TakenAfter(stream, taken, base, pk);
  }

  lemma SameTransfers(v: Vector, a: Vector, b: Vector)
    requires Same(v, a) && Same(v, b)
    ensures Same(a, b)
  {
    forall p: nat
      ensures At(a, p) == At(b, p)
    {
      assert At(v, p) == At(a, p);
      assert At(v, p) == At(b, p);
    }
  }

  /** No held equation is led by this symbol. */
  ghost predicate NotAPivot(st: State, esi: Id) {
    forall j :: 0 <= j < |st.rows| ==> st.rows[j].pivot != esi
  }

  lemma NotAPivotSlot(st: State, esi: Id)
    requires Echelon(st) && InWindow(st.lo, esi) && NotAPivot(st, esi)
    ensures forall j :: 0 <= j < |st.rows| ==> Slot(st.rows[j].pivot) != Slot(esi)
  {
    forall j | 0 <= j < |st.rows|
      ensures Slot(st.rows[j].pivot) != Slot(esi)
    {
      assert Led(st.lo, st.rows[j]);
      InWindowSlot(st.lo, esi);
    }
  }

  /** A new source symbol: nothing led by it is held, and it becomes known. */
  lemma LearnTracks(st: State, stream: Stream, taken: seq<Packet>, base: int, id: int)
    requires Tracks(st, stream, taken, base) && base <= id < base + WIDTH
    requires !Known(st, Wrap(id)) && NotAPivot(st, Wrap(id))
    ensures var h := Harvest(Substitute(st, Wrap(id), stream(id)), []);
            Tracks(h.0, stream, taken + [SourcePacket(id)], base) && Right(h.1, Window(stream, base))
  {
    hide Consistent, Long, Led, Mixed, Apart, Substitute, HarvestPass, Harvest, Same, Exact;
    var pk, esi, w := SourcePacket(id), Wrap(id), Window(stream, base);
    WindowAt(stream, base, id);
    NotAPivotSlot(st, esi);
    InWindowSlot(st.lo, esi);
    var sub := Substitute(st, esi, stream(id));
    SubstituteEchelon(st, esi, stream(id));
    SubstituteFrame(st, esi, stream(id));
    HarvestReduces(sub, []);
    var h := HarvestPass(sub, 0, [], false);
    HarvestFrame(sub, 0, [], false);
    SameIsReflexive(stream(id));
    SubstituteConsistent(st, esi, stream(id), w);
    HarvestPassConsistent(sub, 0, [], false, w);
    forall xs: seq<Vector> | |xs| == WIDTH
      ensures Consistent(h.state, xs) <==> Consistent(st, xs) && Says(stream, pk, xs)
    {
      SubstituteConsistent(st, esi, stream(id), xs);
      HarvestPassConsistent(sub, 0, [], false, xs);
    }
    ExactAfter(st, h.state, stream, taken, base, pk);
    TakenAfter(stream, taken, base, pk);
  }

  /** Learning symbols moves no end of the window. */
  ghost predicate SameWindow(a: State, b: State) {
    a.lo == b.lo && a.high == b.high && a.origin == b.origin && a.started == b.started
  }

  lemma SubstituteFrame(st: State, esi: Id, v: Vector)
    requires Sized(st)
    ensures SameWindow(st, Substitute(st, esi, v))
  {
  }

  lemma {:induction false} HarvestFrame(st: State, i: nat, out: seq<Symbol>, progress: bool)
    requires Sized(st) && i <= |st.rows|
    ensures SameWindow(st, HarvestPass(st, i, out, progress).state)
    decreases |st.rows| - i
  {
    if i < |st.rows| {
      var row := st.rows[i];
      var esi, rest := Leading(st.lo, row.coef), WithoutRow(st, i);
      if Count(st.lo, row.coef) == 0 {
        HarvestFrame(rest, i, out, progress);
      } else if Count(st.lo, row.coef) > 1 {
        HarvestFrame(st, i + 1, out, progress);
      } else {
        HarvestFrame(Substitute(rest, esi, row.data), i,
                     if Known(rest, esi) then out else out + [Symbol(esi, row.data)], true);
      }
    }
  }

  lemma InsertFrame(st: State, row: Row)
    requires Reduced(st) && |row.coef| == WIDTH
    ensures SameWindow(st, Insert(st, row).0)
  {
    hide Reduce, Harvest, HarvestPass, Normalise, Led, Mixed, Apart;
    ReduceClears(st, row);
    var reduced := Reduce(st, row);
    if Count(st.lo, reduced.coef) > 0 {
      NormaliseLeads(st, reduced);
      var unit := Normalise(st.lo, reduced);
      AppendEchelon(st, unit);
      var full := st.(rows := ClearAll(st.rows, unit) + [unit]);
      HarvestReduces(full, []);
      HarvestFrame(full, 0, [], false);
    }
  }

  /** A repair whose whole span is in the window. */
  lemma RepairTracks(st: State, stream: Stream, taken: seq<Packet>, base: int, pk: Packet)
    requires Tracks(st, stream, taken, base) && pk.RepairPacket? && Genuine(stream, pk)
    requires base <= pk.first && Newest(pk) < base + WIDTH
    ensures var h := Insert(st, RowOf(pk));
            Tracks(h.0, stream, taken + [pk], base) && Right(h.1, Window(stream, base))
  {
    hide Consistent, Long, Led, Mixed, Apart, Insert, Holds, Exact, Satisfies, LongEnough;
    var row, w := RowOf(pk), Window(stream, base);
    SpreadHolds(stream, base, pk);
    SpreadLong(stream, base, pk);
    InsertReduces(st, row);
    InsertFrame(st, row);
    InsertConsistent(st, row, w, w);
    var h := Insert(st, row);
    forall xs: seq<Vector> | |xs| == WIDTH
      ensures Consistent(h.0, xs) <==> Consistent(st, xs) && Says(stream, pk, xs)
    {
      InsertConsistent(st, row, w, xs);
    }
    ExactAfter(st, h.0, stream, taken, base, pk);
    TakenAfter(stream, taken, base, pk);
  }

  // ---------- identifiers of what is recovered ----------

  /** Every symbol reported is one of the window's. */
  predicate Within(lo: Id, out: seq<Symbol>) {
    forall k :: 0 <= k < |out| ==> InWindow(lo, out[k].esi)
  }

  lemma LeadingInWindow(lo: Id, coef: seq<Byte>)
    requires |coef| == WIDTH && Count(lo, coef) > 0
    ensures InWindow(lo, Leading(lo, coef))
  {
    LeadingFacts(lo, coef);
    InWindowSlot(lo, Leading(lo, coef));
  }

  lemma {:induction false} HarvestPassWithin(st: State, i: nat, out: seq<Symbol>, progress: bool)
    requires Sized(st) && i <= |st.rows| && Within(st.lo, out)
    ensures Within(st.lo, HarvestPass(st, i, out, progress).recovered)
    decreases |st.rows| - i
  {
    hide Count, Leading, InWindow;
    if i < |st.rows| {
      var row := st.rows[i];
      var esi, rest := Leading(st.lo, row.coef), WithoutRow(st, i);
      if Count(st.lo, row.coef) == 0 {
        HarvestPassWithin(rest, i, out, progress);
      } else if Count(st.lo, row.coef) > 1 {
        HarvestPassWithin(st, i + 1, out, progress);
      } else {
        LeadingInWindow(st.lo, row.coef);
        SubstituteFrame(rest, esi, row.data);
        HarvestPassWithin(Substitute(rest, esi, row.data), i,
                          if Known(rest, esi) then out else out + [Symbol(esi, row.data)], true);
      }
    }
  }

  lemma {:induction false} HarvestWithin(st: State, out: seq<Symbol>)
    requires Sized(st) && Within(st.lo, out)
    ensures Within(st.lo, Harvest(st, out).1)
    decreases |st.rows|
  {
    hide HarvestPass, InWindow;
    var pass := HarvestPass(st, 0, out, false);
    HarvestPassWithin(st, 0, out, false);
    HarvestFrame(st, 0, out, false);
    if pass.progress {
      HarvestWithin(pass.state, pass.recovered);
    }
  }

  // ---------- runs ----------

  /** A symbol reported as recovered, by its true identifier. */
  datatype Report = Report(id: int, esi: Id, vector: Vector)

  /** The decoder, where its window is in the stream, the packets it took in, and what it has reported. */
  datatype Config = Config(st: State, base: int, taken: seq<Packet>, reports: seq<Report>)

  function Start(): Config {
    Config(Initial(), 0, [], [])
  }

  ghost function Deliver(stream: Stream, st: State, pk: Packet): (o: Outcome)
    requires Sized(st)
    ensures Sized(o.state)
  {
    match pk
    case SourcePacket(id) => Source(st, Wrap(id), stream(id))
    case RepairPacket(first, coefs, vector) => TakeRepair(st, Repair(Wrap(first), coefs, vector))
  }

  predicate Admitted(c: Config, pk: Packet) {
    && (pk.RepairPacket? ==> pk.vector != [])
    && (c.st.started ==> Newest(pk) >= c.base)
  }

  function BaseAfter(c: Config, pk: Packet): int {
    if Admitted(c, pk) then NewBase(c.st, c.base, Newest(pk)) else c.base
  }

  function Reports(base: int, out: seq<Symbol>): (r: seq<Report>)
    ensures |r| == |out|
    ensures forall k :: 0 <= k < |r| ==> r[k] == Report(IdAt(base, Slot(out[k].esi)), out[k].esi, out[k].vector)
  {
    seq(|out|, k requires 0 <= k < |out| => Report(IdAt(base, Slot(out[k].esi)), out[k].esi, out[k].vector))
  }

  ghost function Step(stream: Stream, c: Config, pk: Packet): Config
    requires Sized(c.st)
  {
    var o, base := Deliver(stream, c.st, pk), BaseAfter(c, pk);
    Config(o.state, base,
           if Admitted(c, pk) && base <= Oldest(pk) then c.taken + [pk] else c.taken,
           c.reports + Reports(base, o.recovered))
  }

  /**
   What the channel and the sender owe the decoder for one arrival: the packet is
   genuine, its identifiers are within 2^31 of the window, and a source symbol is
   not the pivot of an equation still held.
   */
  ghost predicate Admissible(stream: Stream, c: Config, pk: Packet) {
    && Genuine(stream, pk)
    && (c.st.started ==> -(HALF as int) <= Oldest(pk) - c.base && Newest(pk) - c.base < HALF)
    && (pk.SourcePacket? ==> NotAPivot(c.st, Wrap(pk.id)))
  }

  /** Everything reported so far is the sender's symbol, padded with zeros. */
  ghost predicate AllRight(stream: Stream, reports: seq<Report>) {
    forall k :: 0 <= k < |reports| ==>
      Padded(reports[k].vector, stream(reports[k].id)) && reports[k].esi == Wrap(reports[k].id)
  }

  ghost predicate Faithful(stream: Stream, c: Config) {
    && Good(c.st)
    && (if c.st.started then Tracks(c.st, stream, c.taken, c.base) else c.taken == [])
    && AllRight(stream, c.reports)
  }

  lemma ReportsRight(stream: Stream, base: int, out: seq<Symbol>)
    requires Right(out, Window(stream, base)) && Within(Wrap(base), out)
    ensures AllRight(stream, Reports(base, out))
  {
    forall k | 0 <= k < |out|
      ensures out[k].esi == Wrap(IdAt(base, Slot(out[k].esi)))
    {
      InWindowSlot(Wrap(base), out[k].esi);
      IdOfIdAt(base, Slot(out[k].esi));
    }
  }

  lemma {:induction false} EvictManyRows(st: State, n: nat)
    requires Sized(st)
    ensures forall x :: x in EvictMany(st, n).rows ==> x in st.rows
    decreases n
  {
    hide Without;
    if n > 0 {
      EvictManyRows(Evict(st), n - 1);
    }
  }

  lemma AdmitNotAPivot(st: State, esi: Id)
    requires Sized(st) && NotAPivot(st, esi)
    ensures NotAPivot(Admit(st, esi).state, esi)
  {
    hide EvictMany, Behind, Wrap;
    var a := Admit(st, esi);
    EvictManyRows(st, Walked(st, esi));
    forall j | 0 <= j < |a.state.rows|
      ensures a.state.rows[j].pivot != esi
    {
      assert a.state.rows[j] in st.rows;
    }
  }

  lemma WitnessTracks(st: State, esi: Id, stream: Stream, taken: seq<Packet>, base: int)
    requires Tracks(st, stream, taken, base)
    ensures Tracks(Witness(st, esi), stream, taken, base)
  {
    hide Sound, Exact, Led, Mixed, Apart;
    var w := Witness(st, esi);
    TracksElsewhere(st, w, stream, taken, base);
    ReducedElsewhere(st, w);
  }

  lemma SourceStep(stream: Stream, c: Config, id: int)
    requires Faithful(stream, c) && Admissible(stream, c, SourcePacket(id))
    ensures Faithful(stream, Step(stream, c, SourcePacket(id)))
  {
    hide Tracks, Substitute, Harvest, Admit, Padded;
    var pk, esi, base := SourcePacket(id), Wrap(id), BaseAfter(c, SourcePacket(id));
    var a := Admit(c.st, esi);
    AdmitTracks(c.st, stream, c.taken, c.base, id);
    AdmitNotAPivot(c.st, esi);
    if a.ok {
      var w := Witness(a.state, esi);
      WitnessTracks(a.state, esi, stream, c.taken, base);
      TracksFacts(w, stream, c.taken, base);
      assert NotAPivot(w, esi);
      if Known(w, esi) {
        KnownTracks(w, stream, c.taken, base, id);
        TracksFacts(w, stream, c.taken + [pk], base);
      } else {
        LearnTracks(w, stream, c.taken, base, id);
        var sub := Substitute(w, esi, stream(id));
        SubstituteFrame(w, esi, stream(id));
        HarvestWithin(sub, []);
        var h := Harvest(sub, []);
        TracksFacts(h.0, stream, c.taken + [pk], base);
        ReportsRight(stream, base, h.1);
      }
    }
  }

  lemma TracksFacts(st: State, stream: Stream, taken: seq<Packet>, base: int)
    requires Tracks(st, stream, taken, base)
    ensures Good(st) && st.started && st.lo == Wrap(base)
  {
  }

  lemma RepairStep(stream: Stream, c: Config, pk: Packet)
    requires Faithful(stream, c) && Admissible(stream, c, pk) && pk.RepairPacket?
    ensures Faithful(stream, Step(stream, c, pk))
  {
    hide Tracks, Insert, Admit, Padded, Satisfies, Spread;
    if pk.vector != [] {
      var base := BaseAfter(c, pk);
      var last := Newest(pk);
      WrapPlus(pk.first, |pk.coefs| - 1);
      var a := Admit(c.st, Wrap(last));
      AdmitTracks(c.st, stream, c.taken, c.base, last);
      if a.ok {
        var w := Witness(a.state, Wrap(pk.first));
        WitnessTracks(a.state, Wrap(pk.first), stream, c.taken, base);
        TracksFacts(w, stream, c.taken, base);
        FirstInWindow(c, pk);
        if base <= pk.first {
          RepairTracks(w, stream, c.taken, base, pk);
          var h := Insert(w, RowOf(pk));
          InsertWithin(w, RowOf(pk));
          TracksFacts(h.0, stream, c.taken + [pk], base);
          ReportsRight(stream, base, h.1);
        }
      }
    }
  }

  /** The sign test of a repair's oldest symbol agrees with its true position. */
  lemma FirstInWindow(c: Config, pk: Packet)
    requires pk.RepairPacket? && 0 < |pk.coefs| <= MAX_REPAIR_WINDOW && Admitted(c, pk)
    requires c.st.started ==> -(HALF as int) <= pk.first - c.base && Newest(pk) - c.base < HALF
    ensures Behind(Wrap(pk.first), Wrap(BaseAfter(c, pk))) <==> pk.first < BaseAfter(c, pk)
    ensures Newest(pk) < BaseAfter(c, pk) + WIDTH
  {
    BehindIsLess(pk.first, BaseAfter(c, pk));
  }

  lemma InsertWithin(st: State, row: Row)
    requires Sized(st) && |row.coef| == WIDTH
    ensures Within(st.lo, Insert(st, row).1)
  {
    hide Reduce, Harvest, Normalise, InWindow;
    var reduced := Reduce(st, row);
    if Count(st.lo, reduced.coef) > 0 {
      var unit := Normalise(st.lo, reduced);
      HarvestWithin(st.(rows := ClearAll(st.rows, unit) + [unit]), []);
    }
  }

  ghost function Run(stream: Stream, packets: seq<Packet>): (c: Config)
    ensures Sized(c.st)
  {
    if packets == [] then Start() else
      Step(stream, Run(stream, packets[..|packets| - 1]), packets[|packets| - 1])
  }

  ghost predicate AdmissibleRun(stream: Stream, packets: seq<Packet>) {
    packets == [] ||
    var n := |packets| - 1;
    AdmissibleRun(stream, packets[..n]) && Admissible(stream, Run(stream, packets[..n]), packets[n])
  }

  lemma {:induction false} RunFaithful(stream: Stream, packets: seq<Packet>)
    requires AdmissibleRun(stream, packets)
    ensures Faithful(stream, Run(stream, packets))
  {
    hide Faithful, Admissible;
    if packets == [] {
      StartFaithful(stream);
    } else {
      var n := |packets| - 1;
      RunFaithful(stream, packets[..n]);
      match packets[n]
      case SourcePacket(id) => SourceStep(stream, Run(stream, packets[..n]), id);
      case RepairPacket(_, _, _) => RepairStep(stream, Run(stream, packets[..n]), packets[n]);
    }
  }

  lemma StartFaithful(stream: Stream)
    ensures Faithful(stream, Start())
  {
  }

  /**
   Decoder soundness. Through any interleaving of losses, repairs and window
   slides, every recovered vector is the sender's vector followed only by zeros,
   and every equation still held is true of the sender's stream.
   */
  lemma DecoderSoundness(stream: Stream, packets: seq<Packet>)
    requires AdmissibleRun(stream, packets)
    ensures AllRight(stream, Run(stream, packets).reports)
    ensures var c := Run(stream, packets); c.st.started ==> Sound(c.st, stream, c.base)
  {
    RunFaithful(stream, packets);
  }

  /**
   Decoder completeness. After any such run, each symbol of the window that is
   still unknown has another value, in some stream that agrees with every packet
   the decoder took in: whatever the packets determine has been recovered.
   */
  lemma DecoderCompleteness(stream: Stream, packets: seq<Packet>, id: int) returns (other: Stream)
    requires AdmissibleRun(stream, packets)
    requires var c := Run(stream, packets); c.st.started && c.base <= id < c.base + WIDTH && !Known(c.st, Wrap(id))
    ensures Explains(other, stream, Run(stream, packets).taken) && !Same(other(id), stream(id))
  {
    hide Consistent, Explains, Run;
    RunFaithful(stream, packets);
    var c := Run(stream, packets);
    var w := Window(stream, c.base);
    WindowAt(stream, c.base, id);
    InWindowSlot(c.st.lo, Wrap(id));
    var xs := Undetermined(c.st, w, Slot(id));
    ConsistentSize(c.st, xs);
    assert Explained(stream, c.taken, c.base, xs);
    other :| Explains(other, stream, c.taken) && Fits(other, c.base, xs);
    IdAtSlot(c.base, id);
    if Same(other(id), stream(id)) {
      SameTransfers(other(id), xs[Slot(id)], stream(id));
    }
  }
}
