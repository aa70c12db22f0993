/**
 What becomes of every symbol, whatever order packets arrive in and whether or
 not the decoder's equations are still in reduced form.
 */
module SymbolFates {
  import opened GaloisField
  import opened LinearSystem
  import opened SymbolIds
  import opened DecoderModel
  import opened DecoderInvariant
  import opened DecoderRuns

  // ---------- slots the equations leave alone ----------

  ghost predicate Avoids(coef: seq<Byte>, slots: set<nat>) {
    forall i :: 0 <= i < |coef| && i in slots ==> coef[i] == 0
  }

  ghost predicate AllAvoid(rows: seq<Row>, slots: set<nat>) {
    forall j :: 0 <= j < |rows| ==> Avoids(rows[j].coef, slots)
  }

  lemma ClearWithAvoids(r: Row, other: Row, slots: set<nat>)
    requires |r.coef| == |other.coef| == WIDTH && Avoids(r.coef, slots) && Avoids(other.coef, slots)
    ensures Avoids(ClearWith(r, other).coef, slots)
  {
    hide ClearWith;
    forall i | 0 <= i < WIDTH && i in slots
      ensures ClearWith(r, other).coef[i] == 0
    {
      ClearWithZero(r, other, i);
    }
  }

  lemma {:induction false} ReduceByRowsAvoids(rows: seq<Row>, row: Row, j: nat, slots: set<nat>)
    requires |row.coef| == WIDTH && j <= |rows| && (forall x :: x in rows ==> |x.coef| == WIDTH)
    requires AllAvoid(rows, slots) && Avoids(row.coef, slots)
    ensures Avoids(ReduceByRows(rows, row, j).coef, slots)
    decreases |rows| - j
  {
    hide ClearWith, Avoids;
    if j < |rows| {
      ClearWithAvoids(row, rows[j], slots);
      ReduceByRowsAvoids(rows, ClearWith(row, rows[j]), j + 1, slots);
    }
  }

  lemma NormaliseAvoids(lo: Id, row: Row, slots: set<nat>)
    requires |row.coef| == WIDTH && Avoids(row.coef, slots)
    ensures Avoids(Normalise(lo, row).coef, slots)
  {
    hide Mul, Inverse, Leading;
    MulLaws(Inverse(row.coef[Slot(Leading(lo, row.coef))]), 0, 0);
  }

  /** The equations an insertion leaves, before anything is read off, avoid what all of them avoided. */
  lemma AppendAvoids(st: State, row: Row, slots: set<nat>)
    requires Sized(st) && |row.coef| == WIDTH && AllAvoid(st.rows, slots)
    requires Avoids(ReduceKnown(st, row, 0).coef, slots)
    ensures var unit := Normalise(st.lo, Reduce(st, row)); AllAvoid(ClearAll(st.rows, unit) + [unit], slots)
  {
    hide Normalise, ClearWith, ReduceKnown, ReduceByRows, Avoids;
    ReduceByRowsAvoids(st.rows, ReduceKnown(st, row, 0), 0, slots);
    NormaliseAvoids(st.lo, Reduce(st, row), slots);
    var unit := Normalise(st.lo, Reduce(st, row));
    forall j | 0 <= j < |st.rows|
      ensures Avoids(ClearAll(st.rows, unit)[j].coef, slots)
    {
      ClearWithAvoids(st.rows[j], unit, slots);
    }
  }

  // ---------- the tally ----------

  /** The slots of symbols older than anything known to exist. */
  ghost function Early(base: int, origin: int): set<nat> {
    set i: nat | i < WIDTH && IdAt(base, i) < origin
  }

  ghost function HeldSlots(st: State): set<nat>
    requires Sized(st)
  {
    set i: nat | i < WIDTH && st.cells[i].Held?
  }

  /** How often the tally must hold an identifier. */
  ghost function Due(st: State, base: int, origin: int, id: int): nat
    requires Sized(st)
  {
    if id < origin || id >= base + WIDTH then 0
    else if id < base || st.cells[Slot(id)].Held? then 1
    else 0
  }

  /**
   The tally of everything accepted, recovered or lost holds each identifier that
   has left the window once, and of those in the window exactly the known ones.
   */
  ghost predicate Fated(st: State, base: int, origin: int, tally: multiset<int>) {
    && Framed(st) && st.lo == Wrap(base) && st.origin == Wrap(origin)
    && base + WIDTH - HALF <= origin < base + WIDTH
    && (forall i :: 0 <= i < WIDTH && st.cells[i].Held? ==> origin <= IdAt(base, i))
    && AllAvoid(st.rows, Early(base, origin))
    && forall id :: tally[id] == Due(st, base, origin, id)
  }

  lemma EvictFated(st: State, base: int, origin: int, tally: multiset<int>)
    requires Fated(st, base, origin, tally) && base + 1 + WIDTH - HALF <= origin
    ensures origin <= base + WIDTH
    ensures Fated(Evict(st), base + 1, origin,
                  if LostOnLeaving(st, st.lo) then tally + multiset{base} else tally)
    ensures LostOnLeaving(st, st.lo) <==> origin <= base && !st.cells[Slot(base)].Held?
  {
    hide Without, AllAvoid, IdOf;
    var r, s := Evict(st), Slot(base);
    var tally' := if LostOnLeaving(st, st.lo) then tally + multiset{base} else tally;
    SlotOfWrap(base);
    SlotZero(st.lo);
    EvictFramed(st);
    WrapPlus(base, 1);
    BehindIsLess(base, origin);
    IdAtSlot(base, base);
    forall i | 0 <= i < WIDTH && r.cells[i].Held?
      ensures origin <= IdAt(base + 1, i)
    {
      IdAtNext(base, i);
    }
    EvictAvoids(st, base, origin);
    forall id
      ensures tally'[id] == Due(r, base + 1, origin, id)
    {
      if id == base + WIDTH {
        SlotShift(base, 1);
      } else if id != base {
        EvictDue(st, base, origin, id);
      }
    }
  }

  lemma EvictDue(st: State, base: int, origin: int, id: int)
    requires Framed(st) && st.lo == Wrap(base) && id != base && id != base + WIDTH
    ensures Due(Evict(st), base + 1, origin, id) == Due(st, base, origin, id)
  {
    hide Without;
    SlotOfWrap(base);
    if base < id < base + WIDTH && Slot(id) == Slot(base) {
      SlotUnique(id, base);
    }
  }

  lemma EvictAvoids(st: State, base: int, origin: int)
    requires Sized(st) && AllAvoid(st.rows, Early(base, origin)) && st.lo == Wrap(base)
    ensures AllAvoid(Evict(st).rows, Early(base + 1, origin))
  {
    hide Without;
    var r := Evict(st);
    SlotOfWrap(base);
    forall j | 0 <= j < |r.rows|
      ensures Avoids(r.rows[j].coef, Early(base + 1, origin))
    {
      assert r.rows[j] in st.rows;
      var k :| 0 <= k < |st.rows| && st.rows[k] == r.rows[j];
      forall i | 0 <= i < WIDTH && i in Early(base + 1, origin)
        ensures r.rows[j].coef[i] == 0
      {
        IdAtNext(base, i);
        if i != Slot(base) {
          assert i in Early(base, origin);
        }
      }
    }
  }

  /** The true identifiers that evicting the n oldest reports. */
  ghost function LostIds(st: State, base: int, n: nat): seq<int>
    requires Sized(st)
    decreases n
  {
    if n == 0 then [] else
      (if LostOnLeaving(st, st.lo) then [base] else []) + LostIds(Evict(st), base + 1, n - 1)
  }

  lemma LostIdsStep(st: State, base: int, n: nat)
    requires Sized(st) && n > 0
    ensures multiset(LostIds(st, base, n))
         == (if LostOnLeaving(st, st.lo) then multiset{base} else multiset{})
             + multiset(LostIds(Evict(st), base + 1, n - 1))
  {
    hide Evict, LostOnLeaving;
    var first := if LostOnLeaving(st, st.lo) then [base] else [];
    assert LostIds(st, base, n) == first + LostIds(Evict(st), base + 1, n - 1);
  }

  lemma {:induction false} EvictManyFated(st: State, base: int, origin: int, tally: multiset<int>, n: nat)
    requires Fated(st, base, origin, tally) && base + n + WIDTH - HALF <= origin
    ensures Fated(EvictMany(st, n), base + n, origin, tally + multiset(LostIds(st, base, n)))
    decreases n
  {
    hide Fated, Evict, LostOnLeaving, LostIds;
    FatedFacts(st, base, origin, tally);
    if n > 0 {
      EvictFated(st, base, origin, tally);
      var tally' := if LostOnLeaving(st, st.lo) then tally + multiset{base} else tally;
      EvictManyFated(Evict(st), base + 1, origin, tally', n - 1);
      LostIdsStep(st, base, n);
      assert tally + multiset(LostIds(st, base, n)) == tally' + multiset(LostIds(Evict(st), base + 1, n - 1));
    } else {
      NothingLost(st, base);
      assert tally + multiset([]) == tally;
    }
  }

  lemma FatedFacts(st: State, base: int, origin: int, tally: multiset<int>)
    requires Fated(st, base, origin, tally)
    ensures Sized(st) && Framed(st) && st.lo == Wrap(base) && base + WIDTH - HALF <= origin < base + WIDTH
  {
  }

  // ---------- learning symbols ----------

  function IdsOf(base: int, out: seq<Symbol>): (ids: seq<int>)
    ensures |ids| == |out| && forall k :: 0 <= k < |ids| ==> ids[k] == IdAt(base, Slot(out[k].esi))
  {
    seq(|out|, k requires 0 <= k < |out| => IdAt(base, Slot(out[k].esi)))
  }

  lemma SubstituteFated(st: State, base: int, origin: int, tally: multiset<int>, esi: Id, v: Vector)
    requires Fated(st, base, origin, tally) && InWindow(st.lo, esi) && !Known(st, esi)
    requires origin <= IdAt(base, Slot(esi))
    ensures Fated(Substitute(st, esi, v), base, origin, tally + multiset{IdAt(base, Slot(esi))})
  {
    hide IdOf;
    var r, s := Substitute(st, esi, v), Slot(esi);
    var id := IdAt(base, s);
    InWindowSlot(st.lo, esi);
    SubstituteFramed(st, esi, v);
    forall j | 0 <= j < |r.rows|
      ensures Avoids(r.rows[j].coef, Early(base, origin))
    {
      assert r.rows[j] == Resolve(st.rows[j], s, v);
      assert Avoids(st.rows[j].coef, Early(base, origin));
    }
    forall other
      ensures (tally + multiset{id})[other] == Due(r, base, origin, other)
    {
      if other != id && base <= other < base + WIDTH {
        if Slot(other) == s {
          SlotUnique(other, id);
        }
      }
    }
  }

  lemma WithoutRowFated(st: State, base: int, origin: int, tally: multiset<int>, i: nat)
    requires Fated(st, base, origin, tally) && i < |st.rows|
    ensures Fated(WithoutRow(st, i), base, origin, tally)
  {
    var r := WithoutRow(st, i);
    forall j | 0 <= j < |r.rows|
      ensures r.rows[j] == st.rows[if j < i then j else j + 1]
    {
    }
  }

  /** The symbol an equation leads with is unknown and not too old. */
  lemma LeadingIsDue(st: State, base: int, origin: int, tally: multiset<int>, i: nat)
    requires Fated(st, base, origin, tally) && i < |st.rows| && Count(st.lo, st.rows[i].coef) > 0
    ensures var esi := Leading(st.lo, st.rows[i].coef);
            InWindow(st.lo, esi) && !Known(WithoutRow(st, i), esi) && origin <= IdAt(base, Slot(esi))
  {
    hide Count, Leading;
    var row := st.rows[i];
    LeadingFacts(st.lo, row.coef);
    var esi := Leading(st.lo, row.coef);
    InWindowSlot(st.lo, esi);
    assert Avoids(row.coef, Early(base, origin));
    assert Slot(esi) !in Early(base, origin);
  }

  lemma {:induction false} HarvestPassFated(
    st: State, i: nat, out: seq<Symbol>, progress: bool, base: int, origin: int, others: multiset<int>)
    requires Fated(st, base, origin, others + multiset(IdsOf(base, out))) && i <= |st.rows|
    ensures var h := HarvestPass(st, i, out, progress);
            Fated(h.state, base, origin, others + multiset(IdsOf(base, h.recovered)))
    decreases |st.rows| - i
  {
    hide Fated, Count, Leading, Substitute, Known;
    var tally := others + multiset(IdsOf(base, out));
    FatedFacts(st, base, origin, tally);
    if i < |st.rows| {
      var row := st.rows[i];
      var esi, rest := Leading(st.lo, row.coef), WithoutRow(st, i);
      WithoutRowFated(st, base, origin, tally, i);
      if Count(st.lo, row.coef) == 0 {
        HarvestPassFated(rest, i, out, progress, base, origin, others);
      } else if Count(st.lo, row.coef) > 1 {
        HarvestPassFated(st, i + 1, out, progress, base, origin, others);
      } else {
        LeadingIsDue(st, base, origin, tally, i);
        SubstituteFated(rest, base, origin, tally, esi, row.data);
        var out' := out + [Symbol(esi, row.data)];
        assert IdsOf(base, out') == IdsOf(base, out) + [IdAt(base, Slot(esi))];
        assert tally + multiset{IdAt(base, Slot(esi))} == others + multiset(IdsOf(base, out'));
        HarvestPassFated(Substitute(rest, esi, row.data), i, out', true, base, origin, others);
      }
    }
  }

  lemma {:induction false} HarvestFated(st: State, out: seq<Symbol>, base: int, origin: int, others: multiset<int>)
    requires Fated(st, base, origin, others + multiset(IdsOf(base, out)))
    ensures var h := Harvest(st, out); Fated(h.0, base, origin, others + multiset(IdsOf(base, h.1)))
    decreases |st.rows|
  {
    hide Fated, HarvestPass;
    FatedFacts(st, base, origin, others + multiset(IdsOf(base, out)));
    HarvestPassFated(st, 0, out, false, base, origin, others);
    var pass := HarvestPass(st, 0, out, false);
    if pass.progress {
      HarvestFated(pass.state, pass.recovered, base, origin, others);
    }
  }

  /** An equation about no symbol older than the origin. */
  lemma InsertFated(st: State, row: Row, base: int, origin: int, tally: multiset<int>)
    requires Fated(st, base, origin, tally) && |row.coef| == WIDTH && Avoids(row.coef, Early(base, origin))
    ensures var h := Insert(st, row); Fated(h.0, base, origin, tally + multiset(IdsOf(base, h.1)))
  {
    hide Harvest, Reduce, Normalise, Count, ReduceKnown, ClearAll;
    assert IdsOf(base, []) == [];
    assert tally + multiset([]) == tally;
    var reduced := Reduce(st, row);
    if Count(st.lo, reduced.coef) > 0 {
      var unit := Normalise(st.lo, reduced);
      var full := st.(rows := ClearAll(st.rows, unit) + [unit]);
      ReduceKnownCoef(st, row, 0);
      assert forall i :: 0 <= i < WIDTH ==> Offset(st.lo, i) >= 0;
      AppendAvoids(st, row, Early(base, origin));
      assert AllAvoid(st.rows, HeldSlots(st));
      AppendAvoids(st, row, HeldSlots(st));
      assert Fated(full, base, origin, tally) by { FullFated(st, full, base, origin, tally); }
      HarvestFated(full, [], base, origin, tally);
    }
  }

  lemma FullFated(st: State, full: State, base: int, origin: int, tally: multiset<int>)
    requires Fated(st, base, origin, tally) && full == st.(rows := full.rows) && Sized(full)
    requires AllAvoid(full.rows, Early(base, origin)) && AllAvoid(full.rows, HeldSlots(st))
    ensures Fated(full, base, origin, tally)
  {
    forall j, i | 0 <= j < |full.rows| && 0 <= i < WIDTH && full.cells[i].Held?
      ensures full.rows[j].coef[i] == 0
    {
      assert Avoids(full.rows[j].coef, HeldSlots(st));
      assert i in HeldSlots(st);
    }
  }

  // ---------- arrivals ----------

  /** What the wire delivers: any bytes under any identifier. */
  datatype Arrival = SourceSymbol(id: int, vector: Vector) | RepairSymbol(first: int, coefs: seq<Byte>, vector: Vector)

  function Last(a: Arrival): int {
    match a
    case SourceSymbol(id, _) => id
    case RepairSymbol(first, coefs, _) => first + |coefs| - 1
  }

  function First(a: Arrival): int {
    match a
    case SourceSymbol(id, _) => id
    case RepairSymbol(first, _, _) => first
  }

  /** The decoder, its true position and origin, and everything it has said about symbols. */
  datatype Fates = Fates(
    st: State, base: int, origin: int, accepted: seq<int>, recovered: seq<int>, lost: seq<int>)

  function Tally(f: Fates): multiset<int> {
    multiset(f.accepted) + multiset(f.recovered) + multiset(f.lost)
  }

  function NoFates(): Fates {
    Fates(Initial(), 0, 0, [], [], [])
  }

  function Receive(st: State, a: Arrival): (o: Outcome)
    requires Sized(st)
    ensures Sized(o.state)
  {
    match a
    case SourceSymbol(id, v) => Source(st, Wrap(id), v)
    case RepairSymbol(first, coefs, v) => TakeRepair(st, Repair(Wrap(first), coefs, v))
  }

  /** The arrival is looked at rather than dropped as empty, oversized or already behind the window. */
  predicate Seen(f: Fates, a: Arrival) {
    && (a.RepairSymbol? ==> 0 < |a.coefs| <= MAX_REPAIR_WINDOW && a.vector != [])
    && (f.st.started ==> Last(a) >= f.base)
  }

  function OriginAfter(f: Fates, a: Arrival, base: int): int {
    var origin := if f.st.started then f.origin else Last(a);
    if First(a) < origin && base <= First(a) then First(a) else origin
  }

  ghost function FateStep(f: Fates, a: Arrival): Fates
    requires Sized(f.st)
  {
    var o := Receive(f.st, a);
    if !Seen(f, a) then f.(st := o.state) else
      var base := NewBase(f.st, f.base, Last(a));
      var walked := if f.st.started && base > f.base then base - f.base else 0;
      var accepted :=
        a.SourceSymbol? && !Known(Witness(Admit(f.st, Wrap(a.id)).state, Wrap(a.id)), Wrap(a.id));
      Fates(o.state, base, OriginAfter(f, a, base),
            if accepted then f.accepted + [First(a)] else f.accepted,
            f.recovered + IdsOf(base, o.recovered),
            f.lost + LostIds(f.st, f.base, walked))
  }

  /** Within 2^31 symbols of the window and of the origin; otherwise as late or as far ahead as it likes. */
  predicate Orderly(f: Fates, a: Arrival) {
    f.st.started ==>
      && -(HALF as int) <= First(a) - f.base
      && Last(a) - f.base < HALF
      && Last(a) + 1 - f.origin <= HALF
  }

  /** Not more than one window width past the newest. */
  predicate Close(f: Fates, a: Arrival) {
    f.st.started ==> Last(a) < f.base + 2 * WIDTH
  }

  ghost predicate Accounted(f: Fates) {
    if f.st.started then Aligned(f.st) && Fated(f.st, f.base, f.origin, Tally(f))
    else Empty(f.st) && Tally(f) == multiset{}
  }

  lemma AccountedSized(f: Fates)
    requires Accounted(f)
    ensures Sized(f.st)
  {
  }

  lemma FirstAdmission(st: State, id: int)
    requires Empty(st) && !st.started
    ensures var a := Admit(st, Wrap(id));
            a.ok && a.lost == [] && Aligned(a.state) && Fated(a.state, id + 1 - WIDTH, id, multiset{})
  {
    AlignedAt(Wrap(id));
    WrapPlus(id, 1 - WIDTH);
    var a := Admit(st, Wrap(id));
    assert a.state.rows == [];
  }

  /** Nothing is held and no equation mentions anything. */
  ghost predicate Blank(st: State) {
    Sized(st) && forall i :: 0 <= i < WIDTH ==> st.cells[i] == Vacant && forall r :: r in st.rows ==> r.coef[i] == 0
  }

  lemma {:induction false} BlankStays(st: State, n: nat)
    requires Blank(st)
    ensures EvictMany(st, n).cells == st.cells && EvictMany(st, n).rows == st.rows
    decreases n
  {
    hide Without;
    if n > 0 {
      assert st.cells[Slot(st.lo)] == Vacant;
      WithoutNothing(st.rows, Slot(st.lo));
      BlankStays(Evict(st), n - 1);
    }
  }

  lemma {:induction false} EvictManyMore(st: State, n: nat, m: nat)
    requires Sized(st)
    ensures EvictMany(st, n + m) == EvictMany(EvictMany(st, n), m)
    decreases n
  {
    hide Evict;
    if n > 0 {
      EvictManyMore(Evict(st), n - 1, m);
    }
  }

  /** Walking further than a whole window changes nothing more than where the window is. */
  lemma PastTheWindow(st: State, n: nat)
    requires Framed(st) && n >= WIDTH
    ensures EvictMany(st, n).cells == EvictMany(st, WIDTH).cells && EvictMany(st, n).rows == EvictMany(st, WIDTH).rows
  {
    hide EvictMany, Framed;
    FramedSized(st);
    NothingEmptied(st);
    EvictManyEmpties(st, WIDTH, 0);
    EvictManyMore(st, WIDTH, n - WIDTH);
    EmptiedBlank(EvictMany(st, WIDTH));
    BlankStays(EvictMany(st, WIDTH), n - WIDTH);
  }

  lemma EmptiedBlank(st: State)
    requires Sized(st) && Emptied(st, WIDTH)
    ensures Blank(st)
  {
    forall i | 0 <= i < WIDTH
      ensures st.cells[i] == Vacant && forall r :: r in st.rows ==> r.coef[i] == 0
    {
      assert WIDTH - WIDTH <= Offset(st.lo, i);
    }
  }

  lemma FramedSized(st: State)
    requires Framed(st)
    ensures Sized(st)
  {
  }

  lemma NothingEmptied(st: State)
    requires Sized(st)
    ensures Emptied(st, 0)
  {
    forall i | 0 <= i < WIDTH
      ensures Offset(st.lo, i) < WIDTH
    {
      OffsetInverse(st.lo, i);
    }
  }

  lemma LaterAdmission(f: Fates, id: int)
    requires f.st.started && Accounted(f) && f.base <= id && id - f.base < HALF && id + 1 - f.origin <= HALF
    ensures var a := Admit(f.st, Wrap(id));
            var base := NewBase(f.st, f.base, id);
            && a.ok && Aligned(a.state)
            && Fated(a.state, base, f.origin, Tally(f) + multiset(LostIds(f.st, f.base, base - f.base)))
  {
    hide EvictMany, LostOf, LostIds, Behind, Wrap, Fated;
    var st := f.st;
    FatedFacts(st, f.base, f.origin, Tally(f));
    var a, base := Admit(st, Wrap(id)), NewBase(st, f.base, id);
    AdmitOrder(st, f.base, id);
    if id >= f.base + WIDTH {
      var n, walked := base - f.base, Walked(st, Wrap(id));
      AdmitDistance(st, f.base, id);
      EvictManyLo(st, n);
      EvictManyLo(st, walked);
      SlideEnds(st.lo, Wrap(id), walked);
      AlignedAt(Wrap(id));
      WrapPlus(f.base, n);
      WrapPlus(id, 1 - WIDTH);
      if n > walked {
        PastTheWindow(st, n);
      }
      EvictManyFated(st, f.base, f.origin, Tally(f), n);
      FatedElsewhere(EvictMany(st, n), a.state, base, f.origin, Tally(f) + multiset(LostIds(st, f.base, n)));
    } else {
      NothingLost(st, f.base);
      assert Tally(f) + multiset([]) == Tally(f);
    }
  }

  lemma NothingLost(st: State, base: int)
    requires Sized(st)
    ensures LostIds(st, base, 0) == []
  {
  }

  lemma FatedElsewhere(st: State, other: State, base: int, origin: int, tally: multiset<int>)
    requires Fated(st, base, origin, tally)
    requires other.cells == st.cells && other.rows == st.rows && other.lo == st.lo && other.origin == st.origin
    ensures Fated(other, base, origin, tally)
  {
    assert forall id :: Due(other, base, origin, id) == Due(st, base, origin, id);
  }

  /** Hearing of an older symbol moves the origin back over symbols nothing has been said about. */
  lemma WitnessFated(st: State, base: int, origin: int, tally: multiset<int>, id: int)
    requires Aligned(st) && Fated(st, base, origin, tally) && -(HALF as int) <= id - base && id < base + WIDTH
    ensures var w := Witness(st, Wrap(id));
            Aligned(w) && Fated(w, base, if id < origin && base <= id then id else origin, tally)
  {
    BehindIsLess(id, base);
    if base <= id {
      BehindIsLess(id, origin);
      if id < origin {
        var w := Witness(st, Wrap(id));
        forall j | 0 <= j < |w.rows|
          ensures Avoids(w.rows[j].coef, Early(base, id))
        {
          assert Avoids(st.rows[j].coef, Early(base, origin));
          assert Early(base, id) <= Early(base, origin);
        }
        forall k
          ensures tally[k] == Due(w, base, id, k)
        {
          if id <= k < origin {
            IdAtSlot(base, k);
          }
        }
      }
    }
  }

  lemma AdmittedAndWitnessed(f: Fates, a: Arrival)
    requires Accounted(f) && Orderly(f, a) && Seen(f, a)
    ensures var base := NewBase(f.st, f.base, Last(a));
            var walked := if f.st.started && base > f.base then base - f.base else 0;
            var ad := Admit(f.st, Wrap(Last(a)));
            var w := Witness(ad.state, Wrap(First(a)));
            && ad.ok && w.started && Aligned(w)
            && Fated(w, base, OriginAfter(f, a, base), Tally(f) + multiset(LostIds(f.st, f.base, walked)))
            && (Behind(Wrap(First(a)), w.lo) <==> First(a) < base)
  {
    hide Admit, LostIds, Fated, Behind, Wrap;
    AccountedSized(f);
    var id, base := Last(a), NewBase(f.st, f.base, Last(a));
    var walked := if f.st.started && base > f.base then base - f.base else 0;
    var ad := Admit(f.st, Wrap(id));
    var tally := Tally(f) + multiset(LostIds(f.st, f.base, walked));
    var origin := if f.st.started then f.origin else id;
    if f.st.started {
      LaterAdmission(f, id);
    } else {
      FirstAdmission(f.st, id);
      NothingLost(f.st, f.base);
      assert tally == multiset{};
    }
    WitnessFated(ad.state, base, origin, tally, First(a));
    FatedFacts(ad.state, base, origin, tally);
    WitnessStarted(ad.state, Wrap(First(a)));
    BehindIsLess(First(a), base);
  }

  lemma WitnessStarted(st: State, esi: Id)
    ensures Witness(st, esi).started == st.started && Witness(st, esi).lo == st.lo
  {
  }

  lemma SpreadAvoids(base: int, first: int, coefs: seq<Byte>, origin: int)
    requires origin <= first && base <= first && first + |coefs| <= base + WIDTH && |coefs| <= WIDTH
    ensures Avoids(Spread(Wrap(first), coefs), Early(base, origin))
  {
    hide Spread;
    SpreadOfWrap(first, coefs);
    forall i | 0 <= i < WIDTH && i in Early(base, origin)
      ensures CoefAt(first, coefs, i) == 0
    {
      var k := Slot(i - first);
      if k < |coefs| {
        SlotBack(first, i);
        IdAtSlot(base, first + k);
      }
    }
  }

  /** The decoder once the arrival has been admitted and witnessed, and what has been said by then. */
  ghost function Witnessed(f: Fates, a: Arrival): State
    requires Sized(f.st)
  {
    Witness(Admit(f.st, Wrap(Last(a))).state, Wrap(First(a)))
  }

  ghost function TallyOnEntry(f: Fates, a: Arrival): multiset<int>
    requires Sized(f.st)
  {
    var base := NewBase(f.st, f.base, Last(a));
    Tally(f) + multiset(LostIds(f.st, f.base, if f.st.started && base > f.base then base - f.base else 0))
  }

  lemma TallyGrows(f: Fates, next: Fates, accepted: seq<int>, recovered: seq<int>, lost: seq<int>)
    requires next.accepted == f.accepted + accepted && next.recovered == f.recovered + recovered
    requires next.lost == f.lost + lost
    ensures Tally(next) == Tally(f) + multiset(lost) + multiset(accepted) + multiset(recovered)
  {
  }

  lemma SourceStepAccounted(f: Fates, a: Arrival)
    requires Accounted(f) && Orderly(f, a) && Seen(f, a) && a.SourceSymbol?
    ensures Accounted(FateStep(f, a))
  {
    hide Admit, LostIds, Fated, Behind, Wrap, Harvest, Substitute, Known, Witness;
    AccountedSized(f);
    AdmittedAndWitnessed(f, a);
    var base := NewBase(f.st, f.base, a.id);
    var origin, w, tally := OriginAfter(f, a, base), Witnessed(f, a), TallyOnEntry(f, a);
    FatedFacts(w, base, origin, tally);
    var next := FateStep(f, a);
    var lost := LostIds(f.st, f.base, if f.st.started && base > f.base then base - f.base else 0);
    SourceFate(w, base, origin, tally, a.id, a.vector);
    if Known(w, Wrap(a.id)) {
      assert next.recovered == f.recovered + [] && next.accepted == f.accepted + [];
      TallyGrows(f, next, [], [], lost);
      assert Tally(next) == tally;
    } else {
      var h := Harvest(Substitute(w, Wrap(a.id), a.vector), []);
      TallyGrows(f, next, [a.id], IdsOf(base, h.1), lost);
    }
  }

  lemma RepairStepAccounted(f: Fates, a: Arrival)
    requires Accounted(f) && Orderly(f, a) && Seen(f, a) && a.RepairSymbol?
    ensures Accounted(FateStep(f, a))
  {
    hide Admit, LostIds, Fated, Behind, Wrap, Insert, Known, Witness, Spread;
    AccountedSized(f);
    AdmittedAndWitnessed(f, a);
    var base := NewBase(f.st, f.base, Last(a));
    var origin, w, tally := OriginAfter(f, a, base), Witnessed(f, a), TallyOnEntry(f, a);
    FatedFacts(w, base, origin, tally);
    var next := FateStep(f, a);
    WrapPlus(a.first, |a.coefs| - 1);
    var lost := LostIds(f.st, f.base, if f.st.started && base > f.base then base - f.base else 0);
    assert next.accepted == f.accepted + [];
    if base <= a.first {
      SpreadAvoids(base, a.first, a.coefs, origin);
      var row := Row(0, Spread(Wrap(a.first), a.coefs), a.vector);
      InsertFated(w, row, base, origin, tally);
      InsertKeepsWindow(w, row);
      TallyGrows(f, next, [], IdsOf(base, Insert(w, row).1), lost);
      assert Tally(next) == tally + multiset(IdsOf(base, Insert(w, row).1));
    } else {
      assert next.recovered == f.recovered + [];
      TallyGrows(f, next, [], [], lost);
      assert Tally(next) == tally;
    }
  }

  lemma FateStepAccounted(f: Fates, a: Arrival)
    requires Accounted(f) && Orderly(f, a)
    ensures Accounted(FateStep(f, a))
  {
    hide Receive, Fated;
    AccountedSized(f);
    if !Seen(f, a) {
      UnseenChangesNothing(f, a);
    } else if a.SourceSymbol? {
      SourceStepAccounted(f, a);
    } else {
      RepairStepAccounted(f, a);
    }
  }

  /** An arrival that is not looked at changes nothing and reports nothing. */
  lemma UnseenChangesNothing(f: Fates, a: Arrival)
    requires Accounted(f) && Orderly(f, a) && !Seen(f, a)
    ensures Sized(f.st) && FateStep(f, a).st == f.st
    ensures Receive(f.st, a).recovered == [] && Receive(f.st, a).lost == []
  {
    hide EvictMany, LostOf, Fated, Harvest, Substitute, Insert, Witness, Wrap;
    AccountedSized(f);
    if f.st.started && Last(a) < f.base {
      FatedFacts(f.st, f.base, f.origin, Tally(f));
      if a.SourceSymbol? || 0 < |a.coefs| <= MAX_REPAIR_WINDOW {
        BehindIsLess(Last(a), f.base);
        if a.RepairSymbol? {
          WrapPlus(a.first, |a.coefs| - 1);
        }
      }
    }
  }

  lemma SourceFate(w: State, base: int, origin: int, tally: multiset<int>, id: int, v: Vector)
    requires Aligned(w) && Fated(w, base, origin, tally) && base <= id < base + WIDTH && origin <= id
    ensures !Known(w, Wrap(id)) ==>
              var h := Harvest(Substitute(w, Wrap(id), v), []);
              Aligned(h.0) && Fated(h.0, base, origin, tally + multiset{id} + multiset(IdsOf(base, h.1)))
  {
    hide Fated, Harvest, Substitute, Known, Wrap;
    var esi := Wrap(id);
    FatedFacts(w, base, origin, tally);
    if !Known(w, esi) {
      WindowAt(_ => [], base, id);
      IdAtSlot(base, id);
      SubstituteFated(w, base, origin, tally, esi, v);
      SubstituteFrame(w, esi, v);
      var sub := Substitute(w, esi, v);
      assert IdsOf(base, []) == [];
      assert tally + multiset{id} + multiset([]) == tally + multiset{id};
      HarvestFated(sub, [], base, origin, tally + multiset{id});
      HarvestKeepsWindow(sub, []);
    }
  }

  lemma {:induction false} HarvestKeepsWindow(st: State, out: seq<Symbol>)
    requires Sized(st)
    ensures SameWindow(st, Harvest(st, out).0)
    decreases |st.rows|
  {
    hide HarvestPass;
    HarvestFrame(st, 0, out, false);
    var pass := HarvestPass(st, 0, out, false);
    if pass.progress {
      HarvestKeepsWindow(pass.state, pass.recovered);
    }
  }

  lemma InsertKeepsWindow(st: State, row: Row)
    requires Sized(st) && |row.coef| == WIDTH
    ensures SameWindow(st, Insert(st, row).0)
  {
    hide Harvest, Reduce, Normalise, Count;
    var reduced := Reduce(st, row);
    if Count(st.lo, reduced.coef) > 0 {
      var unit := Normalise(st.lo, reduced);
      HarvestKeepsWindow(st.(rows := ClearAll(st.rows, unit) + [unit]), []);
    }
  }

  ghost function FateRun(arrivals: seq<Arrival>): (f: Fates)
    ensures Sized(f.st)
  {
    if arrivals == [] then NoFates() else
      FateStep(FateRun(arrivals[..|arrivals| - 1]), arrivals[|arrivals| - 1])
  }

  ghost predicate OrderlyRun(arrivals: seq<Arrival>) {
    arrivals == [] ||
    var n := |arrivals| - 1;
    OrderlyRun(arrivals[..n]) && Orderly(FateRun(arrivals[..n]), arrivals[n])
  }

  lemma {:induction false} FateRunAccounted(arrivals: seq<Arrival>)
    requires OrderlyRun(arrivals)
    ensures Accounted(FateRun(arrivals))
  {
    hide Accounted, FateStep;
    if arrivals == [] {
      assert Accounted(NoFates()) by { NoFatesAccounted(); }
    } else {
      var n := |arrivals| - 1;
      FateRunAccounted(arrivals[..n]);
      FateStepAccounted(FateRun(arrivals[..n]), arrivals[n]);
    }
  }

  lemma NoFatesAccounted()
    ensures Accounted(NoFates())
  {
  }

  /**
   Symbol fates. However the packets were reordered, each identifier from the
   origin on that has left the window was exactly one of accepted as a source,
   reported once as recovered, or lost once; one still in the window was accepted
   or recovered once if it is known, and none of these otherwise.
   */
  lemma EverySymbolHasOneFate(arrivals: seq<Arrival>, id: int)
    requires OrderlyRun(arrivals) && FateRun(arrivals).st.started
    ensures var f := FateRun(arrivals);
            var said := multiset(f.accepted)[id] + multiset(f.recovered)[id] + multiset(f.lost)[id];
            && (f.origin <= id < f.base ==> said == 1)
            && (f.origin <= id && f.base <= id < f.base + WIDTH ==> said == if Known(f.st, Wrap(id)) then 1 else 0)
            && (id < f.origin || f.base + WIDTH <= id ==> said == 0)
  {
    hide FateRun, IdOf;
    FateRunAccounted(arrivals);
    var f := FateRun(arrivals);
    assert Tally(f)[id] == Due(f.st, f.base, f.origin, id);
    if f.base <= id < f.base + WIDTH {
      WindowAt(_ => [], f.base, id);
      InWindowSlot(f.st.lo, Wrap(id));
      KnownIsHeld(f.st, Wrap(id));
    }
  }

  function WrapAll(ids: seq<int>): (r: seq<Id>)
    ensures |r| == |ids| && forall k :: 0 <= k < |r| ==> r[k] == Wrap(ids[k])
  {
    seq(|ids|, k requires 0 <= k < |ids| => Wrap(ids[k]))
  }

  lemma WrapAllJoin(a: seq<int>, b: seq<int>)
    ensures WrapAll(a + b) == WrapAll(a) + WrapAll(b)
  {
    hide Wrap;
  }

  lemma {:induction false} LostOfLostIds(st: State, base: int, n: nat)
    requires Sized(st) && st.lo == Wrap(base)
    ensures LostOf(st, n) == WrapAll(LostIds(st, base, n))
    decreases n
  {
    hide LostOnLeaving, Evict, Wrap;
    if n > 0 {
      WrapPlus(base, 1);
      LostOfLostIds(Evict(st), base + 1, n - 1);
      var first := if LostOnLeaving(st, st.lo) then [base] else [];
      WrapAllJoin(first, LostIds(Evict(st), base + 1, n - 1));
    }
  }

  lemma {:induction false} LostIdsMore(st: State, base: int, n: nat, m: nat)
    requires Sized(st)
    ensures LostIds(st, base, n + m) == LostIds(st, base, n) + LostIds(EvictMany(st, n), base + n, m)
    decreases n
  {
    hide LostOnLeaving, Evict;
    if n > 0 {
      LostIdsMore(Evict(st), base + 1, n - 1, m);
    }
  }

  /** The identifiers from one up to another. */
  function Range(from: int, to: int): (ids: seq<int>)
    requires from <= to
    ensures |ids| == to - from && forall k :: 0 <= k < |ids| ==> ids[k] == from + k
  {
    seq(to - from, k => from + k)
  }

  /** How far the window moves. */
  function Moved(f: Fates, a: Arrival): nat {
    var base := NewBase(f.st, f.base, Last(a));
    if f.st.started && base > f.base then base - f.base else 0
  }

  /** The losses reported for the arrival: what was in the old window. */
  ghost function Reported(f: Fates, a: Arrival): seq<int>
    requires Sized(f.st)
  {
    LostIds(f.st, f.base, if Moved(f, a) < WIDTH then Moved(f, a) else WIDTH)
  }

  /** The identifiers that leave without ever having been in the window. */
  function Silent(f: Fates, a: Arrival): seq<int> {
    if Moved(f, a) <= WIDTH then [] else Range(f.base + WIDTH, f.base + Moved(f, a))
  }

  /** A window that holds nothing loses every identifier it passes. */
  lemma {:induction false} BlankLosesAll(st: State, base: int, origin: int, n: nat)
    requires Blank(st) && st.lo == Wrap(base) && st.origin == Wrap(origin) && origin <= base
             && base + n - origin <= HALF
    ensures LostIds(st, base, n) == Range(base, base + n)
    decreases n
  {
    hide Without, Wrap, Behind;
    if n > 0 {
      BehindIsLess(base, origin);
      assert st.cells[Slot(st.lo)] == Vacant;
      WithoutNothing(st.rows, Slot(st.lo));
      WrapPlus(base, 1);
      BlankLosesAll(Evict(st), base + 1, origin, n - 1);
      assert [base] + Range(base + 1, base + n) == Range(base, base + n);
    }
  }

  /** What is walked past beyond the old window. */
  lemma SilentExact(f: Fates, a: Arrival)
    requires Accounted(f) && Orderly(f, a) && Seen(f, a)
    ensures Sized(f.st) && LostIds(f.st, f.base, Moved(f, a)) == Reported(f, a) + Silent(f, a)
    ensures Silent(f, a) == [] <==> Close(f, a)
  {
    hide Fated, EvictMany, LostIds, Wrap, Framed, Blank;
    AccountedSized(f);
    var n := Moved(f, a);
    if n <= WIDTH {
      assert Reported(f, a) + [] == LostIds(f.st, f.base, n);
    } else {
      FatedFacts(f.st, f.base, f.origin, Tally(f));
      FatedOrigin(f.st, f.base, f.origin, Tally(f));
      LostIdsMore(f.st, f.base, WIDTH, n - WIDTH);
      NothingEmptied(f.st);
      EvictManyEmpties(f.st, WIDTH, 0);
      EmptiedBlank(EvictMany(f.st, WIDTH));
      EvictManyLo(f.st, WIDTH);
      WrapPlus(f.base, WIDTH);
      BlankLosesAll(EvictMany(f.st, WIDTH), f.base + WIDTH, f.origin, n - WIDTH);
    }
  }

  lemma FatedOrigin(st: State, base: int, origin: int, tally: multiset<int>)
    requires Fated(st, base, origin, tally)
    ensures st.origin == Wrap(origin)
  {
  }

  /**
   The losses an arrival reports on the wire are the unknown symbols of the old window
   that it walks out. Those that leave without ever having been in the window are not
   reported; there are some exactly when the arrival is more than a window width past
   the newest, and then they are all identifiers between the two windows.
   */
  lemma LossesAreReported(f: Fates, a: Arrival)
    requires Accounted(f) && Orderly(f, a) && Seen(f, a)
    ensures Sized(f.st) && FateStep(f, a).lost == f.lost + (Reported(f, a) + Silent(f, a))
    ensures Receive(f.st, a).lost == WrapAll(Reported(f, a))
    ensures Silent(f, a) == [] <==> Close(f, a)
    ensures forall k :: 0 <= k < |Reported(f, a)| ==> Reported(f, a)[k] < FateStep(f, a).base
  {
    hide Fated, EvictMany, LostOf, LostIds, Wrap, Behind, Receive, FateStep, Admit;
    AccountedSized(f);
    SilentExact(f, a);
    LostIdsRange(f.st, f.base, if Moved(f, a) < WIDTH then Moved(f, a) else WIDTH);
    ReceiveLost(f, a);
    AdmitLost(f, a);
    LostSoFar(f, a);
  }

  /** Symbol 0 arrives, then symbol 2000: symbols 1 to 1488 are lost and none of them is reported. */
  lemma SilentLosses(v: Vector)
    ensures var f, a := FateRun([SourceSymbol(0, v)]), SourceSymbol(2000, v);
            && OrderlyRun([SourceSymbol(0, v), a])
            && Receive(f.st, a).lost == [] && FateStep(f, a).lost == Range(1, 1489)
  {
    hide FateStep, Receive, Accounted, LostIds;
    var zero, a := SourceSymbol(0, v), SourceSymbol(2000, v);
    var f := FateRun([zero]);
    assert [zero][..0] == [] && FateRun([]) == NoFates();
    NoFatesAccounted();
    FateStepAccounted(NoFates(), zero);
    FirstSource(v);
    assert [zero, a][..1] == [zero];
    assert OrderlyRun([]) && OrderlyRun([zero]);
    assert OrderlyRun([zero, a]);
    LossesAreReported(f, a);
    FateStepAccounted(f, a);
    NoneReported(f, a);
  }

  lemma FirstSource(v: Vector)
    ensures Sized(NoFates().st)
    ensures var f := FateStep(NoFates(), SourceSymbol(0, v));
            f.st.started && f.base == 1 - WIDTH && f.origin == 0 && f.accepted == [0] && f.lost == []
  {
    hide Harvest, Substitute, LostIds;
    var zero := SourceSymbol(0, v);
    WrapSmall(0);
    NothingLost(NoFates().st, 0);
    var w := Witness(Admit(NoFates().st, 0).state, 0);
    assert !Known(w, 0);
    HarvestKeepsWindow(Substitute(w, 0, v), []);
    SubstituteFrame(w, 0, v);
  }

  /** Nothing of the old window was missing: its one symbol had arrived. */
  lemma NoneReported(f: Fates, a: Arrival)
    requires Accounted(f) && f.st.started && Orderly(f, a) && Seen(f, a) && Sized(f.st)
    requires f.base == 1 - WIDTH && f.origin == 0 && f.accepted == [0] && f.lost == [] && Moved(f, a) >= WIDTH
    ensures Reported(f, a) == []
  {
    hide Fated, EvictMany, LostIds;
    var ids := Reported(f, a);
    LostIdsRange(f.st, f.base, WIDTH);
    assert Fated(f.st, f.base, f.origin, Tally(f));
    FatedFacts(f.st, f.base, f.origin, Tally(f));
    EvictManyFated(f.st, f.base, f.origin, Tally(f), WIDTH);
    var tally := Tally(f) + multiset(ids);
    FatedTally(EvictMany(f.st, WIDTH), f.base + WIDTH, f.origin, tally);
    assert multiset(f.accepted)[0] == 1;
    forall x
      ensures x !in ids
    {
      assert x in ids ==> multiset(ids)[x] >= 1;
      assert tally[x] <= 1 && (x < 0 ==> tally[x] == 0);
      assert x > 0 ==> x !in ids;
    }
    var some := SomeMember(ids);
  }

  lemma SomeMember(ids: seq<int>) returns (x: int)
    ensures ids == [] || x in ids
  {
    x := if ids == [] then 0 else ids[0];
  }

  lemma FatedTally(st: State, base: int, origin: int, tally: multiset<int>)
    requires Fated(st, base, origin, tally)
    ensures forall id :: tally[id] <= 1 && (id < origin ==> tally[id] == 0)
  {
    forall id
      ensures tally[id] <= 1 && (id < origin ==> tally[id] == 0)
    {
      assert tally[id] == Due(st, base, origin, id);
    }
  }

  // ---------- what a whole run reports ----------

  /** The losses reported on the wire over a run. */
  ghost function WireLosses(arrivals: seq<Arrival>): seq<Id> {
    if arrivals == [] then [] else
      var n := |arrivals| - 1;
      WireLosses(arrivals[..n]) + Receive(FateRun(arrivals[..n]).st, arrivals[n]).lost
  }

  /** No arrival that was looked at jumped more than a window width. */
  ghost predicate AllClose(arrivals: seq<Arrival>) {
    arrivals == [] ||
    var n := |arrivals| - 1;
    var f := FateRun(arrivals[..n]);
    AllClose(arrivals[..n]) && (Seen(f, arrivals[n]) ==> Close(f, arrivals[n]))
  }

  /** Over a run, every loss was reported exactly when no arrival jumped past a whole window. */
  lemma {:induction false} RunLossesAreReported(arrivals: seq<Arrival>)
    requires OrderlyRun(arrivals)
    ensures |WireLosses(arrivals)| <= |FateRun(arrivals).lost|
    ensures AllClose(arrivals) ==> WireLosses(arrivals) == WrapAll(FateRun(arrivals).lost)
    ensures !AllClose(arrivals) ==> |WireLosses(arrivals)| < |FateRun(arrivals).lost|
  {
    hide FateStep, Receive, Accounted, Orderly, Seen, Close, LostIds;
    if arrivals != [] {
      var n := |arrivals| - 1;
      var f, a := FateRun(arrivals[..n]), arrivals[n];
      RunLossesAreReported(arrivals[..n]);
      FateRunAccounted(arrivals[..n]);
      if Seen(f, a) {
        LossesAreReported(f, a);
        WrapAllJoin(f.lost, Reported(f, a));
      } else {
        UnseenChangesNothing(f, a);
        UnseenLoses(f, a);
      }
    }
  }

  lemma UnseenLoses(f: Fates, a: Arrival)
    requires Sized(f.st) && !Seen(f, a)
    ensures FateStep(f, a).lost == f.lost
  {
    hide Receive;
  }

  lemma LostSoFar(f: Fates, a: Arrival)
    requires Sized(f.st) && Seen(f, a)
    ensures var base := NewBase(f.st, f.base, Last(a));
            var n := if f.st.started && base > f.base then base - f.base else 0;
            FateStep(f, a).lost == f.lost + LostIds(f.st, f.base, n) && FateStep(f, a).base == base
  {
    hide Receive, LostIds, Admit;
  }

  /** An arrival reports what admitting it walked out. */
  lemma ReceiveLost(f: Fates, a: Arrival)
    requires Accounted(f) && Orderly(f, a) && Seen(f, a)
    ensures Sized(f.st) && Receive(f.st, a).lost == Admit(f.st, Wrap(Last(a))).lost
  {
    hide Fated, Harvest, Substitute, Insert, Witness, Wrap, Behind, Admit;
    AccountedSized(f);
    if a.RepairSymbol? {
      WrapPlus(a.first, |a.coefs| - 1);
    }
  }

  lemma AdmitLost(f: Fates, a: Arrival)
    requires Accounted(f) && Orderly(f, a) && Seen(f, a)
    ensures var base := NewBase(f.st, f.base, Last(a));
            var n := if f.st.started && base > f.base then base - f.base else 0;
            Sized(f.st) && Admit(f.st, Wrap(Last(a))).lost
                == WrapAll(LostIds(f.st, f.base, if n < WIDTH then n else WIDTH))
  {
    hide Fated, EvictMany, LostOf, LostIds, Wrap, Behind;
    AccountedSized(f);
    NothingLost(f.st, f.base);
    if f.st.started {
      var base := NewBase(f.st, f.base, Last(a));
      var n := if base > f.base then base - f.base else 0;
      FatedFacts(f.st, f.base, f.origin, Tally(f));
      AdmitOrder(f.st, f.base, Last(a));
      LostOfLostIds(f.st, f.base, if n < WIDTH then n else WIDTH);
      if Last(a) >= f.base + WIDTH {
        AdmitDistance(f.st, f.base, Last(a));
      }
    }
  }

  lemma {:induction false} LostIdsRange(st: State, base: int, n: nat)
    requires Sized(st)
    ensures forall k :: 0 <= k < |LostIds(st, base, n)| ==> base <= LostIds(st, base, n)[k] < base + n
    decreases n
  {
    hide LostOnLeaving, Evict;
    if n > 0 {
      LostIdsRange(Evict(st), base + 1, n - 1);
    }
  }

  // ---------- 2^31 identifiers past the origin ----------

  /** Where an arrival in or ahead of the window leaves the origin and the window's start. */
  lemma OriginAfterAdmission(f: Fates, id: int)
    requires Accounted(f) && f.st.started && f.base <= id < f.base + HALF
    ensures Sized(f.st)
    ensures var w := Witness(Admit(f.st, Wrap(id)).state, Wrap(id));
            && Admit(f.st, Wrap(id)).ok && Sized(w) && w.lo == Wrap(NewBase(f.st, f.base, id)) && Aligned(w)
            && w.origin == if id < f.origin || f.origin + HALF <= id then Wrap(id) else f.st.origin
  {
    hide EvictMany, LostOf, Fated, Wrap;
    AccountedSized(f);
    FatedFacts(f.st, f.base, f.origin, Tally(f));
    FatedOrigin(f.st, f.base, f.origin, Tally(f));
    AdmitOrder(f.st, f.base, id);
    BehindWraps(id, f.origin);
    AlignedAt(Wrap(id));
    WrapPlus(id, 1 - WIDTH);
    if id >= f.base + WIDTH {
      var n := Walked(f.st, Wrap(id));
      AdmitDistance(f.st, f.base, id);
      EvictManyLo(f.st, n);
      SlideEnds(f.st.lo, Wrap(id), n);
    }
    BehindIsLess(id, NewBase(f.st, f.base, id));
  }

  /** The sign test over a whole turn: it also calls behind what is 2^31 or more ahead. */
  lemma BehindWraps(x: int, y: int)
    requires -(HALF as int) <= x - y < MODULUS
    ensures Behind(Wrap(x), Wrap(y)) <==> x < y || y + HALF <= x
  {
    WrapMinus(x, y);
    if x < y {
      WrapShift(x - y, 1);
      WrapSmall(x - y + MODULUS);
    } else {
      WrapSmall(x - y);
    }
  }

  /** A window whose newest identifier is its origin loses everything before it unreported. */
  lemma {:induction false} NothingReportedBefore(st: State, base: int, origin: int, n: nat)
    requires Sized(st) && st.lo == Wrap(base) && st.origin == Wrap(origin) && base + n <= origin < base + HALF
    ensures LostOf(st, n) == []
    decreases n
  {
    hide Evict, Wrap, Behind;
    if n > 0 {
      BehindIsLess(base, origin);
      WrapPlus(base, 1);
      EvictKeepsOrigin(st);
      NothingReportedBefore(Evict(st), base + 1, origin, n - 1);
    }
  }

  lemma EvictKeepsOrigin(st: State)
    requires Sized(st)
    ensures Evict(st).origin == st.origin
  {
  }

  /**
   A source symbol in or ahead of the window moves the origin exactly when it is older
   than the origin, or 2^31 identifiers or more past it. In the second case it becomes
   both the newest symbol and the origin, and no symbol still missing from the window it
   leaves is reported when it is walked out.
   */
  lemma OriginMovesForward(f: Fates, id: int, v: Vector)
    requires Accounted(f) && f.st.started && f.base <= id < f.base + HALF
    ensures Sized(f.st)
    ensures var o := Source(f.st, Wrap(id), v).state;
            && o.origin == (if id < f.origin || f.origin + HALF <= id then Wrap(id) else f.st.origin)
            && (f.origin + HALF <= id ==>
                  o.lo == Wrap(id + 1 - WIDTH) && Aligned(o) && forall n: nat :: n < WIDTH ==> LostOf(o, n) == [])
  {
    hide Admit, Witness, Fated, Wrap, Harvest, Substitute, LostOf, Known;
    OriginAfterAdmission(f, id);
    FatedFacts(f.st, f.base, f.origin, Tally(f));
    var w := Witness(Admit(f.st, Wrap(id)).state, Wrap(id));
    SubstituteFrame(w, Wrap(id), v);
    HarvestKeepsWindow(Substitute(w, Wrap(id), v), []);
    var o := Source(f.st, Wrap(id), v).state;
    assert SameWindow(w, o);
    if f.origin + HALF <= id {
      forall n: nat | n < WIDTH
        ensures LostOf(o, n) == []
      {
        NothingReportedBefore(o, id + 1 - WIDTH, id, n);
      }
    }
  }

  lemma {:induction false} EvictManyAlone(st: State, n: nat)
    requires Sized(st) && st.rows == []
    ensures EvictMany(st, n).rows == [] && forall x: Id :: Known(EvictMany(st, n), x) ==> Known(st, x)
    decreases n
  {
    if n > 0 {
      EvictManyAlone(Evict(st), n - 1);
    }
  }

  /** With no equation held, a source symbol makes nothing known but itself. */
  lemma SourceAlone(st: State, esi: Id, v: Vector)
    requires Sized(st) && st.rows == []
    ensures var o := Source(st, esi, v).state;
            o.rows == [] && forall x: Id :: Known(o, x) ==> x == esi || Known(st, x)
  {
    hide EvictMany, LostOf, Slot;
    EvictManyAlone(st, Walked(st, esi));
    var w := Witness(Admit(st, esi).state, esi);
    assert w.rows == [];
    var sub := Substitute(w, esi, v);
    assert sub.rows == [];
    assert HarvestPass(sub, 0, [], false) == Harvested(sub, [], false);
  }

  /**
   Symbols 0, 2^31 - 512 and 2^31 arrive: the window then ends at the last of them, none
   of the 511 symbols before it in the window is known, and when symbol 2^31 + 511 walks
   them all out not one is reported.
   */
  lemma SilentPastTheTurn(v: Vector)
    ensures var before := [SourceSymbol(0, v), SourceSymbol(HALF - WIDTH, v)];
            var o := Receive(FateRun(before).st, SourceSymbol(HALF, v)).state;
            && OrderlyRun(before) && Receive(o, SourceSymbol(HALF + WIDTH - 1, v)).lost == []
            && forall x :: HALF - WIDTH < x < HALF ==> !Known(o, Wrap(x))
  {
    hide FateStep, Accounted, Known, Source, Wrap, LostOf;
    var zero, far := SourceSymbol(0, v), SourceSymbol(HALF - WIDTH, v);
    var f0 := FateRun([zero]);
    assert [zero][..0] == [] && FateRun([]) == NoFates();
    NoFatesAccounted();
    FateStepAccounted(NoFates(), zero);
    FirstSource(v);
    assert [zero, far][..1] == [zero];
    assert OrderlyRun([]) && OrderlyRun([zero]) && OrderlyRun([zero, far]);
    FateStepAccounted(f0, far);
    FarSource(f0, far);
    var f := FateRun([zero, far]);
    assert f == FateStep(f0, far);
    OriginMovesForward(f, HALF, v);
    var o := Receive(f.st, SourceSymbol(HALF, v)).state;
    LostInTheNextWindow(o, HALF + 1 - WIDTH, v);
    StepState(NoFates(), zero);
    SourceAlone(Initial(), Wrap(0), v);
    SourceAlone(f0.st, Wrap(HALF - WIDTH), v);
    SourceAlone(f.st, Wrap(HALF), v);
    forall x | HALF - WIDTH < x < HALF
      ensures !Known(o, Wrap(x))
    {
      WrapSmall(x);
      WrapSmall(0);
      WrapSmall(HALF - WIDTH);
      WrapSmall(HALF);
      NothingKnownYet(Wrap(x));
    }
  }

  lemma StepState(f: Fates, a: Arrival)
    requires Sized(f.st) && a.SourceSymbol?
    ensures FateStep(f, a).st == Source(f.st, Wrap(a.id), a.vector).state
  {
    hide Source, Admit, Witness, Known, LostIds;
  }

  lemma NothingKnownYet(x: Id)
    ensures !Known(Initial(), x)
  {
  }

  /** A source far ahead becomes the newest; the origin stays. */
  lemma FarSource(f: Fates, a: Arrival)
    requires Accounted(f) && f.st.started && a.SourceSymbol? && Orderly(f, a) && a.id >= f.base + WIDTH
             && f.origin <= a.id
    ensures Sized(f.st)
    ensures var g := FateStep(f, a);
            && g.st.started && g.st == Source(f.st, Wrap(a.id), a.vector).state && g.base == a.id + 1 - WIDTH
               && g.origin == f.origin
  {
    hide Admit, LostIds, Fated, Behind, Wrap, Harvest, Substitute, Known, Witness, LostOf;
    AccountedSized(f);
    AdmittedAndWitnessed(f, a);
    var w := Witnessed(f, a);
    FatedFacts(w, a.id + 1 - WIDTH, f.origin, TallyOnEntry(f, a));
    SubstituteFrame(w, Wrap(a.id), a.vector);
    HarvestKeepsWindow(Substitute(w, Wrap(a.id), a.vector), []);
  }

  lemma LostInTheNextWindow(st: State, base: int, v: Vector)
    requires Sized(st) && Aligned(st) && st.lo == Wrap(base) && forall n: nat :: n < WIDTH ==> LostOf(st, n) == []
    ensures Source(st, Wrap(base + 2 * WIDTH - 2), v).lost == []
  {
    hide EvictMany, LostOf, Harvest, Substitute, Witness, Known, Wrap;
    AdmitOrder(st, base, base + 2 * WIDTH - 2);
    AdmitDistance(st, base, base + 2 * WIDTH - 2);
  }
}
