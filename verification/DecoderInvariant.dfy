/**
 What every operation of the decoder keeps: the window is framed by its
 identifiers, and the equations are in reduced row echelon form, each led by a
 unit pivot that no other equation mentions.
 */
module DecoderInvariant {
  import opened GaloisField
  import opened LinearSystem
  import opened SymbolIds
  import opened DecoderModel

  /** How far slot i is from the old end of the window. */
  function Offset(lo: Id, i: nat): nat {
    Slot(i - lo)
  }

  /** The identifier that occupies slot i. */
  function IdOf(lo: Id, i: nat): Id {
    Wrap(lo + Offset(lo, i))
  }

  /** The window is exactly its full width. */
  ghost predicate Aligned(st: State) {
    st.started && st.high == Wrap(st.lo + WIDTH)
  }

  /** Every held symbol sits in its own slot, and no equation mentions one. */
  ghost predicate Framed(st: State) {
    && Sized(st)
    && (forall i :: 0 <= i < WIDTH && st.cells[i].Held? ==> st.cells[i].esi == IdOf(st.lo, i))
    && (forall j, i :: 0 <= j < |st.rows| && 0 <= i < WIDTH && st.cells[i].Held? ==> st.rows[j].coef[i] == 0)
  }

  /** The row is led by its pivot, with coefficient one. */
  ghost predicate Led(lo: Id, r: Row) {
    && |r.coef| == WIDTH
    && r.pivot == IdOf(lo, Slot(r.pivot))
    && r.coef[Slot(r.pivot)] == 1
    && ZeroBelow(lo, r.coef, Offset(lo, Slot(r.pivot)))
  }

  /** No row mentions another's pivot. */
  ghost predicate Apart(rows: seq<Row>)
    requires forall r :: r in rows ==> |r.coef| == WIDTH
  {
    forall j, k :: 0 <= j < |rows| && 0 <= k < |rows| && j != k ==> rows[k].coef[Slot(rows[j].pivot)] == 0
  }

  ghost predicate Echelon(st: State) {
    && Framed(st)
    && (forall j :: 0 <= j < |st.rows| ==> Led(st.lo, st.rows[j]))
    && Apart(st.rows)
  }

  /** The row still has an unknown besides its pivot. */
  ghost predicate Mixed(r: Row)
    requires |r.coef| == WIDTH
  {
    exists i :: 0 <= i < WIDTH && i != Slot(r.pivot) && r.coef[i] != 0
  }

  /** The form the system is in between calls: reduced, with nothing left to read off. */
  ghost predicate Reduced(st: State) {
    Echelon(st) && forall j :: 0 <= j < |st.rows| ==> Mixed(st.rows[j])
  }

  // ---------- offsets ----------

  lemma OffsetInverse(lo: Id, i: nat)
    requires i < WIDTH
    ensures Slot(lo + Offset(lo, i)) == i && Offset(lo, i) < WIDTH
  {
    SlotInverse(lo, i);
  }

  lemma SlotOffset(lo: Id, k: nat)
    requires k < WIDTH
    ensures Offset(lo, Slot(lo + k)) == k
  {
    OffsetInverse(lo, Slot(lo + k));
    SlotUnique(lo + Offset(lo, Slot(lo + k)), lo + k);
  }

  lemma SlotOfId(lo: Id, i: nat)
    requires i < WIDTH
    ensures Slot(IdOf(lo, i)) == i
  {
    OffsetInverse(lo, i);
    SlotOfWrap(lo + Offset(lo, i));
  }

  // ---------- the leading symbol ----------

  /** Every slot from offset k of the window on is empty of coefficients. */
  ghost predicate ZeroFrom(lo: Id, coef: seq<Byte>, k: nat)
    requires |coef| == WIDTH
  {
    forall i :: 0 <= i < WIDTH && k <= Offset(lo, i) ==> coef[i] == 0
  }

  ghost predicate ZeroBelow(lo: Id, coef: seq<Byte>, k: nat)
    requires |coef| == WIDTH
  {
    forall i :: 0 <= i < WIDTH && Offset(lo, i) < k ==> coef[i] == 0
  }

  lemma ZeroFromStep(lo: Id, coef: seq<Byte>, k: nat)
    requires |coef| == WIDTH && k < WIDTH
    ensures ZeroFrom(lo, coef, k) <==> coef[Slot(lo + k)] == 0 && ZeroFrom(lo, coef, k + 1)
    ensures ZeroBelow(lo, coef, k + 1) <==> coef[Slot(lo + k)] == 0 && ZeroBelow(lo, coef, k)
  {
    SlotOffset(lo, k);
    forall i | 0 <= i < WIDTH && Offset(lo, i) == k
      ensures i == Slot(lo + k)
    {
      OffsetInverse(lo, i);
    }
  }

  lemma {:induction false} CountFacts(lo: Id, coef: seq<Byte>, k: nat)
    requires |coef| == WIDTH && k <= WIDTH
    ensures CountFrom(lo, coef, k) == 0 <==> ZeroFrom(lo, coef, k)
    ensures CountFrom(lo, coef, k) == 0 <==> OffsetFrom(lo, coef, k) == WIDTH
    decreases WIDTH - k
  {
    if k < WIDTH {
      CountFacts(lo, coef, k + 1);
      ZeroFromStep(lo, coef, k);
    }
  }

  lemma {:induction false} OffsetFacts(lo: Id, coef: seq<Byte>, k: nat)
    requires |coef| == WIDTH && k <= WIDTH && ZeroBelow(lo, coef, k)
    ensures var o := OffsetFrom(lo, coef, k);
            && ZeroBelow(lo, coef, o)
            && (o < WIDTH ==> coef[Slot(lo + o)] != 0 && CountFrom(lo, coef, k) == 1 + CountFrom(lo, coef, o + 1))
    decreases WIDTH - k
  {
    hide Slot;
    if k < WIDTH && coef[Slot(lo + k)] == 0 {
      ZeroFromStep(lo, coef, k);
      OffsetFacts(lo, coef, k + 1);
    }
  }

  /** What the count and the leading identifier say about the coefficients. */
  lemma LeadingFacts(lo: Id, coef: seq<Byte>)
    requires |coef| == WIDTH
    ensures Count(lo, coef) == 0 <==> forall i :: 0 <= i < WIDTH ==> coef[i] == 0
    ensures Count(lo, coef) > 0 ==>
              var i := Slot(Leading(lo, coef));
              && coef[i] != 0 && Leading(lo, coef) == IdOf(lo, i)
              && ZeroBelow(lo, coef, Offset(lo, i))
              && (Count(lo, coef) == 1 <==> forall m :: 0 <= m < WIDTH && m != i ==> coef[m] == 0)
  {
    hide Slot, CountFrom, OffsetFrom;
    CountFacts(lo, coef, 0);
    OffsetFacts(lo, coef, 0);
    var o := OffsetFrom(lo, coef, 0);
    if o < WIDTH {
      LeadingSlot(lo, o);
      CountFacts(lo, coef, o + 1);
      OnlyLeading(lo, coef, o);
    }
  }

  lemma LeadingSlot(lo: Id, o: nat)
    requires o < WIDTH
    ensures Slot(Wrap(lo + o)) == Slot(lo + o) && Offset(lo, Slot(lo + o)) == o
  {
    SlotOfWrap(lo + o);
    SlotOffset(lo, o);
  }

  lemma OnlyLeading(lo: Id, coef: seq<Byte>, o: nat)
    requires |coef| == WIDTH && o < WIDTH && ZeroBelow(lo, coef, o)
    ensures ZeroFrom(lo, coef, o + 1) <==> forall m :: 0 <= m < WIDTH && m != Slot(lo + o) ==> coef[m] == 0
  {
    SlotOffset(lo, o);
    forall m | 0 <= m < WIDTH && m != Slot(lo + o)
      ensures Offset(lo, m) != o
    {
      OffsetInverse(lo, m);
    }
  }

  // ---------- knowing a symbol ----------

  /** An identifier of the window is known exactly when its slot is held. */
  lemma KnownIsHeld(st: State, esi: Id)
    requires Framed(st) && esi == IdOf(st.lo, Slot(esi))
    ensures Known(st, esi) <==> st.cells[Slot(esi)].Held?
  {
  }

  lemma SubstituteFramed(st: State, esi: Id, v: Vector)
    requires Framed(st) && esi == IdOf(st.lo, Slot(esi))
    ensures Framed(Substitute(st, esi, v))
  {
    var r := Substitute(st, esi, v);
    forall j, i | 0 <= j < |r.rows| && 0 <= i < WIDTH && r.cells[i].Held?
      ensures r.rows[j].coef[i] == 0
    {
      if !Known(st, esi) {
        assert r.rows[j] == Resolve(st.rows[j], Slot(esi), v);
      }
    }
  }

  /** A symbol no equation is led by can become known without disturbing the form. */
  lemma SubstituteEchelon(st: State, esi: Id, v: Vector)
    requires Echelon(st) && esi == IdOf(st.lo, Slot(esi))
    requires forall j :: 0 <= j < |st.rows| ==> Slot(st.rows[j].pivot) != Slot(esi)
    ensures Echelon(Substitute(st, esi, v))
  {
    SubstituteFramed(st, esi, v);
    if !Known(st, esi) {
      var r, s := Substitute(st, esi, v), Slot(esi);
      forall j | 0 <= j < |r.rows|
        ensures Led(st.lo, r.rows[j]) && r.rows[j].pivot == st.rows[j].pivot
      {
        assert r.rows[j] == Resolve(st.rows[j], s, v);
        assert Led(st.lo, st.rows[j]);
      }
      forall j, k | 0 <= j < |r.rows| && 0 <= k < |r.rows| && j != k
        ensures r.rows[k].coef[Slot(r.rows[j].pivot)] == 0
      {
        assert r.rows[k] == Resolve(st.rows[k], s, v);
        assert st.rows[k].coef[Slot(st.rows[j].pivot)] == 0;
      }
    }
  }

  /** A row of the reduced form that mentions one symbol mentions its pivot. */
  lemma SingleIsPivot(lo: Id, r: Row)
    requires Led(lo, r)
    ensures Count(lo, r.coef) > 0
    ensures Count(lo, r.coef) == 1 <==> !Mixed(r)
    ensures Leading(lo, r.coef) == r.pivot
  {
    hide Slot, Offset, IdOf, Led, Count, Leading;
    LedFacts(lo, r);
    LeadingFacts(lo, r.coef);
    var i, p := Slot(Leading(lo, r.coef)), Slot(r.pivot);
    assert Count(lo, r.coef) > 0;
    if i != p {
      OffsetsDiffer(lo, i, p);
    }
  }

  /** Taking a row that is down to its pivot: the other rows stay as they are. */
  function TakeSingle(st: State, i: nat): State
    requires Sized(st) && i < |st.rows|
  {
    var row := st.rows[i];
    WithoutRow(st, i).(cells := st.cells[Slot(row.pivot) := Held(row.pivot, row.data)])
  }

  lemma WithoutRowEchelon(st: State, i: nat)
    requires Echelon(st) && i < |st.rows|
    ensures Echelon(WithoutRow(st, i))
  {
    var r := WithoutRow(st, i);
    forall j | 0 <= j < |r.rows|
      ensures r.rows[j] == st.rows[if j < i then j else j + 1]
    {
    }
  }

  lemma HarvestOne(st: State, i: nat)
    requires Echelon(st) && i < |st.rows| && Count(st.lo, st.rows[i].coef) == 1
    ensures var row := st.rows[i]; var rest := WithoutRow(st, i);
            && Leading(st.lo, row.coef) == row.pivot && !Known(rest, row.pivot)
            && Substitute(rest, row.pivot, row.data) == TakeSingle(st, i)
            && Echelon(TakeSingle(st, i))
  {
    var row, rest := st.rows[i], WithoutRow(st, i);
    var p := Slot(row.pivot);
    assert Led(st.lo, row);
    SingleIsPivot(st.lo, row);
    WithoutRowEchelon(st, i);
    assert !st.cells[p].Held?;
    forall j | 0 <= j < |rest.rows|
      ensures Slot(rest.rows[j].pivot) != p && Resolve(rest.rows[j], p, row.data) == rest.rows[j]
    {
      var k := if j < i then j else j + 1;
      assert rest.rows[j] == st.rows[k];
      assert st.rows[k].coef[p] == 0;
    }
    assert ResolveAll(rest.rows, p, row.data) == rest.rows;
    SubstituteEchelon(rest, row.pivot, row.data);
  }

  /** Harvesting the reduced form takes exactly the rows that are down to their pivot. */
  lemma {:induction false} HarvestPassReduces(st: State, i: nat, out: seq<Symbol>, progress: bool)
    requires Echelon(st) && i <= |st.rows|
    requires forall j :: 0 <= j < i ==> Mixed(st.rows[j])
    ensures Reduced(HarvestPass(st, i, out, progress).state)
    decreases |st.rows| - i
  {
    hide Led, Mixed, Count, Leading, Substitute;
    if i < |st.rows| {
      assert Led(st.lo, st.rows[i]);
      SingleIsPivot(st.lo, st.rows[i]);
      if Count(st.lo, st.rows[i].coef) > 1 {
        HarvestPassReduces(st, i + 1, out, progress);
      } else {
        HarvestOne(st, i);
        var row := st.rows[i];
        HarvestPassReduces(TakeSingle(st, i), i, out + [Symbol(row.pivot, row.data)], true);
      }
    }
  }

  /** Scanning a system with nothing to read off changes nothing. */
  lemma {:induction false} HarvestPassIdle(st: State, i: nat, out: seq<Symbol>, progress: bool)
    requires Reduced(st) && i <= |st.rows|
    ensures HarvestPass(st, i, out, progress) == Harvested(st, out, progress)
    decreases |st.rows| - i
  {
    if i < |st.rows| {
      assert Led(st.lo, st.rows[i]);
      SingleIsPivot(st.lo, st.rows[i]);
      HarvestPassIdle(st, i + 1, out, progress);
    }
  }

  lemma HarvestReduces(st: State, out: seq<Symbol>)
    requires Echelon(st)
    ensures var pass := HarvestPass(st, 0, out, false);
            Harvest(st, out) == (pass.state, pass.recovered) && Reduced(pass.state)
  {
    HarvestPassReduces(st, 0, out, false);
    var pass := HarvestPass(st, 0, out, false);
    if pass.progress {
      HarvestPassIdle(pass.state, 0, pass.recovered, false);
    }
  }

  // ---------- adding an equation ----------

  lemma {:induction false} ReduceKnownCoef(st: State, row: Row, k: nat)
    requires Sized(st) && |row.coef| == WIDTH && k <= WIDTH
    ensures var r := ReduceKnown(st, row, k);
            forall i :: 0 <= i < WIDTH ==>
              r.coef[i] == if st.cells[i].Held? && k <= Offset(st.lo, i) then 0 else row.coef[i]
    decreases WIDTH - k
  {
    if k < WIDTH {
      var s := Slot(st.lo + k);
      var next := if st.cells[s].Held? then Resolve(row, s, st.cells[s].vector) else row;
      ReduceKnownCoef(st, next, k + 1);
      SlotOffset(st.lo, k);
      forall i | 0 <= i < WIDTH && Offset(st.lo, i) == k
        ensures i == s
      {
        OffsetInverse(st.lo, i);
      }
    } else {
      forall i | 0 <= i < WIDTH
        ensures Offset(st.lo, i) < k
      {
        OffsetInverse(st.lo, i);
      }
    }
  }

  /** The equation mentions neither a held symbol nor the pivot of one of the first n rows. */
  ghost predicate Cleared(st: State, coef: seq<Byte>, n: nat)
    requires Sized(st) && |coef| == WIDTH && n <= |st.rows|
  {
    && (forall i :: 0 <= i < WIDTH && st.cells[i].Held? ==> coef[i] == 0)
    && (forall j :: 0 <= j < n ==> coef[Slot(st.rows[j].pivot)] == 0)
  }

  lemma ClearWithStep(st: State, row: Row, j: nat)
    requires Echelon(st) && |row.coef| == WIDTH && j < |st.rows| && Cleared(st, row.coef, j)
    ensures Cleared(st, ClearWith(row, st.rows[j]).coef, j + 1)
  {
    hide AddScaled;
    var s := st.rows[j];
    var p := Slot(s.pivot);
    var c := row.coef[p];
    assert Led(st.lo, s);
    forall i | 0 <= i < WIDTH && s.coef[i] == 0
      ensures AddScaled(c, s.coef, row.coef)[i] == row.coef[i]
    {
      AddScaledAt(c, s.coef, row.coef, i);
    }
    AddScaledAt(c, s.coef, row.coef, p);
  }

  lemma {:induction false} ReduceByRowsClears(st: State, row: Row, j: nat)
    requires Echelon(st) && |row.coef| == WIDTH && j <= |st.rows| && Cleared(st, row.coef, j)
    ensures Cleared(st, ReduceByRows(st.rows, row, j).coef, |st.rows|)
    decreases |st.rows| - j
  {
    if j < |st.rows| {
      ClearWithStep(st, row, j);
      ReduceByRowsClears(st, ClearWith(row, st.rows[j]), j + 1);
    }
  }

  lemma ReduceClears(st: State, row: Row)
    requires Echelon(st) && |row.coef| == WIDTH
    ensures Cleared(st, Reduce(st, row).coef, |st.rows|)
  {
    ReduceKnownCoef(st, row, 0);
    ReduceByRowsClears(st, ReduceKnown(st, row, 0), 0);
  }

  lemma NormaliseLeads(st: State, row: Row)
    requires Echelon(st) && |row.coef| == WIDTH && Cleared(st, row.coef, |st.rows|)
    requires Count(st.lo, row.coef) > 0
    ensures var unit := Normalise(st.lo, row); Led(st.lo, unit) && Cleared(st, unit.coef, |st.rows|)
  {
    hide Mul, Inverse;
    LeadingFacts(st.lo, row.coef);
    var p := Slot(Leading(st.lo, row.coef));
    InverseLaw(row.coef[p]);
    var f := Inverse(row.coef[p]);
    MulLaws(row.coef[p], f, 0);
    MulLaws(f, 0, 0);
    MulLaws(row.coef[p], 0, 0);
    assert Mul(f, row.coef[p]) == 1;
    assert Scale(f, row.coef)[p] == 1;
  }

  lemma OffsetsDiffer(lo: Id, p: nat, q: nat)
    requires p < WIDTH && q < WIDTH && p != q
    ensures Offset(lo, p) != Offset(lo, q)
  {
    hide Slot, Offset;
    OffsetInverse(lo, p);
    OffsetInverse(lo, q);
  }

  /** A row is zero before the symbol that leads it. */
  lemma LedFacts(lo: Id, r: Row)
    requires Led(lo, r)
    ensures |r.coef| == WIDTH && r.pivot == IdOf(lo, Slot(r.pivot)) && r.coef[Slot(r.pivot)] == 1
    ensures forall i :: 0 <= i < WIDTH && r.coef[i] != 0 ==> Offset(lo, Slot(r.pivot)) <= Offset(lo, i)
  {
    hide Slot, Offset, IdOf;
  }

  lemma LedIf(lo: Id, r: Row)
    requires |r.coef| == WIDTH && r.pivot == IdOf(lo, Slot(r.pivot)) && r.coef[Slot(r.pivot)] == 1
    requires forall i :: 0 <= i < WIDTH && r.coef[i] != 0 ==> Offset(lo, Slot(r.pivot)) <= Offset(lo, i)
    ensures Led(lo, r)
  {
    hide Slot, Offset, IdOf;
  }

  /** Clearing a new pivot from a held row keeps the row led by its own. */
  lemma ClearWithLed(lo: Id, r: Row, unit: Row)
    requires Led(lo, r) && Led(lo, unit) && unit.coef[Slot(r.pivot)] == 0
    ensures Led(lo, ClearWith(r, unit))
    ensures ClearWith(r, unit).coef[Slot(unit.pivot)] == 0
  {
    hide AddScaled, Slot, Offset, IdOf, Led, Add, Mul;
    LedFacts(lo, r);
    LedFacts(lo, unit);
    var p, q := Slot(unit.pivot), Slot(r.pivot);
    var c, e := r.coef[p], ClearWith(r, unit);
    if c != 0 {
      OffsetsDiffer(lo, p, q);
      forall i | 0 <= i < WIDTH && unit.coef[i] == 0
        ensures e.coef[i] == r.coef[i]
      {
        AddScaledAt(c, unit.coef, r.coef, i);
      }
      AddScaledAt(c, unit.coef, r.coef, p);
      forall i | 0 <= i < WIDTH && e.coef[i] != 0
        ensures Offset(lo, q) <= Offset(lo, i)
      {
        assert unit.coef[i] != 0 || r.coef[i] != 0;
      }
      LedIf(lo, e);
    }
  }

  /** Slots that both rows leave alone stay zero. */
  lemma ClearWithZero(r: Row, unit: Row, i: nat)
    requires |r.coef| == |unit.coef| == WIDTH && i < WIDTH && r.coef[i] == 0 && unit.coef[i] == 0
    ensures ClearWith(r, unit).coef[i] == 0
  {
    hide AddScaled;
    AddScaledAt(r.coef[Slot(unit.pivot)], unit.coef, r.coef, i);
  }

  lemma AppendEchelon(st: State, unit: Row)
    requires Echelon(st) && Led(st.lo, unit) && Cleared(st, unit.coef, |st.rows|)
    ensures Echelon(st.(rows := ClearAll(st.rows, unit) + [unit]))
  {
    hide ClearWith;
    var rows := ClearAll(st.rows, unit) + [unit];
    forall j | 0 <= j < |st.rows|
      ensures rows[j] == ClearWith(st.rows[j], unit) && rows[j].pivot == st.rows[j].pivot
      ensures Led(st.lo, rows[j]) && rows[j].coef[Slot(unit.pivot)] == 0
    {
      ClearWithLed(st.lo, st.rows[j], unit);
    }
    forall j, i | 0 <= j < |rows| && 0 <= i < WIDTH && st.cells[i].Held?
      ensures rows[j].coef[i] == 0
    {
      if j < |st.rows| {
        ClearWithZero(st.rows[j], unit, i);
      }
    }
    forall j, k | 0 <= j < |rows| && 0 <= k < |rows| && j != k
      ensures rows[k].coef[Slot(rows[j].pivot)] == 0
    {
      if j < |st.rows| && k < |st.rows| {
        ClearWithZero(st.rows[k], unit, Slot(st.rows[j].pivot));
      }
    }
  }

  /** Adding an equation keeps the reduced form. */
  lemma InsertReduces(st: State, row: Row)
    requires Reduced(st) && |row.coef| == WIDTH
    ensures Reduced(Insert(st, row).0)
  {
    hide Reduce, Harvest, Normalise;
    ReduceClears(st, row);
    var reduced := Reduce(st, row);
    if Count(st.lo, reduced.coef) > 0 {
      NormaliseLeads(st, reduced);
      var unit := Normalise(st.lo, reduced);
      AppendEchelon(st, unit);
      HarvestReduces(st.(rows := ClearAll(st.rows, unit) + [unit]), []);
    }
  }

  // ---------- sliding the window ----------

  /** The identifier lies in the window that starts at lo. */
  predicate InWindow(lo: Id, esi: Id) {
    Wrap(esi - lo) < WIDTH
  }

  lemma InWindowSlot(lo: Id, esi: Id)
    ensures InWindow(lo, esi) <==> esi == IdOf(lo, Slot(esi))
    ensures InWindow(lo, esi) ==> Offset(lo, Slot(esi)) == Wrap(esi - lo)
  {
    hide Slot;
    var k := Wrap(esi - lo);
    IdFromDistance(lo, esi);
    if k < WIDTH {
      LeadingSlot(lo, k);
    }
    if esi == IdOf(lo, Slot(esi)) {
      var o := Offset(lo, Slot(esi));
      OffsetInverse(lo, Slot(esi));
      DistanceFromId(lo, o);
    }
  }

  lemma IdFromDistance(lo: Id, esi: Id)
    ensures Wrap(lo + Wrap(esi - lo)) == esi
  {
    WrapPlus(esi - lo, lo);
    WrapSmall(esi);
  }

  lemma DistanceFromId(lo: Id, o: nat)
    requires o < WIDTH
    ensures Wrap(Wrap(lo + o) - lo) == o
  {
    WrapPlus(lo + o, -(lo as int));
    WrapSmall(o);
  }

  lemma OffsetNext(lo: Id, i: nat)
    requires i < WIDTH
    ensures Offset(Wrap(lo + 1), i) == if i == Slot(lo) then WIDTH - 1 else Offset(lo, i) - 1
    ensures IdOf(Wrap(lo + 1), i) == if i == Slot(lo) then Wrap(lo + WIDTH) else IdOf(lo, i)
  {
    var next, o := Wrap(lo + 1), Offset(lo, i);
    OffsetInverse(lo, i);
    if i == Slot(lo) {
      SlotUnique(lo + o, lo);
    }
    assert i != Slot(lo) ==> o > 0;
    var k: nat := if i == Slot(lo) then WIDTH - 1 else o - 1;
    assert Slot(lo + 1 + k) == i by {
      if i == Slot(lo) {
        SlotShift(lo, 1);
      }
    }
    WrapPlus(lo + 1, k);
    SlotOfWrap(next + k);
    SlotOfWrap(lo + 1 + k);
    SlotOffset(next, k);
  }

  lemma {:induction false} WithoutApart(rows: seq<Row>, index: nat)
    requires index < WIDTH && (forall x :: x in rows ==> |x.coef| == WIDTH) && Apart(rows)
    ensures Apart(Without(rows, index))
  {
    if rows != [] {
      var n := |rows| - 1;
      WithoutApart(rows[..n], index);
      var rest, last := Without(rows[..n], index), rows[n];
      forall x | x in rest
        ensures x.coef[Slot(last.pivot)] == 0 && last.coef[Slot(x.pivot)] == 0
      {
        assert x in rows[..n];
        var j :| 0 <= j < n && rows[j] == x;
      }
    }
  }

  /** A row that survives the oldest identifier's eviction is led by the same pivot in the new window. */
  lemma LedNext(lo: Id, r: Row)
    requires Led(lo, r) && r.coef[Slot(lo)] == 0
    ensures Led(Wrap(lo + 1), r)
  {
    var p := Slot(r.pivot);
    OffsetNext(lo, p);
    forall i | 0 <= i < WIDTH && Offset(Wrap(lo + 1), i) < Offset(Wrap(lo + 1), p)
      ensures r.coef[i] == 0
    {
      OffsetNext(lo, i);
      OffsetInverse(Wrap(lo + 1), p);
    }
  }

  lemma SlotZero(lo: Id)
    ensures IdOf(lo, Slot(lo)) == lo && Offset(lo, Slot(lo)) == 0
  {
    InWindowSlot(lo, lo);
  }

  lemma EvictFramed(st: State)
    requires Framed(st)
    ensures Framed(Evict(st)) && !Evict(st).cells[Slot(st.lo)].Held?
  {
    hide Without, IdOf;
    var r := Evict(st);
    SlotZero(st.lo);
    forall i | 0 <= i < WIDTH && r.cells[i].Held?
      ensures i != Slot(st.lo) && r.cells[i].esi == IdOf(r.lo, i)
    {
      OffsetNext(st.lo, i);
    }
    forall j, i | 0 <= j < |r.rows| && 0 <= i < WIDTH && r.cells[i].Held?
      ensures r.rows[j].coef[i] == 0
    {
      assert r.rows[j] in st.rows;
    }
  }

  lemma EvictReduced(st: State)
    requires Reduced(st)
    ensures Reduced(Evict(st))
  {
    hide Slot, Led, Mixed, Apart, Without, Wrap;
    var r := Evict(st);
    EvictFramed(st);
    WithoutApart(st.rows, Slot(st.lo));
    forall j | 0 <= j < |r.rows|
      ensures Led(r.lo, r.rows[j]) && Mixed(r.rows[j])
    {
      assert r.rows[j] in st.rows;
      var k :| 0 <= k < |st.rows| && st.rows[k] == r.rows[j];
      LedNext(st.lo, st.rows[k]);
    }
  }

  /** In the reduced form only the row led by the oldest identifier can mention it. */
  lemma OnlyItsPivotMentionsOldest(st: State, k: nat)
    requires Echelon(st) && k < |st.rows| && st.rows[k].coef[Slot(st.lo)] != 0
    ensures st.rows[k].pivot == st.lo
  {
    hide Slot, Offset, IdOf, Led, Framed;
    var r := st.rows[k];
    assert Led(st.lo, r);
    LedFacts(st.lo, r);
    SlotZero(st.lo);
    assert Offset(st.lo, Slot(r.pivot)) == 0;
    if Slot(r.pivot) != Slot(st.lo) {
      OffsetsDiffer(st.lo, Slot(r.pivot), Slot(st.lo));
    }
  }

  lemma {:induction false} WithoutDropsOne(rows: seq<Row>, index: nat)
    requires index < WIDTH && (forall x :: x in rows ==> |x.coef| == WIDTH) && Apart(rows)
    requires forall x :: x in rows && x.coef[index] != 0 ==> Slot(x.pivot) == index
    ensures |Without(rows, index)| >= |rows| - 1
  {
    hide Slot;
    if rows != [] {
      var n := |rows| - 1;
      var before := rows[..n];
      assert rows[n] in rows;
      forall x | x in before
        ensures x in rows
      {
      }
      if rows[n].coef[index] == 0 {
        assert Apart(before);
        WithoutDropsOne(before, index);
      } else {
        OthersAvoid(rows, index);
        WithoutNothing(before, index);
      }
    }
  }

  /** If the last row leads with the slot, no other mentions it. */
  lemma OthersAvoid(rows: seq<Row>, index: nat)
    requires rows != [] && index < WIDTH && (forall x :: x in rows ==> |x.coef| == WIDTH) && Apart(rows)
    requires Slot(rows[|rows| - 1].pivot) == index
    ensures forall x :: x in rows[..|rows| - 1] ==> |x.coef| == WIDTH && x.coef[index] == 0
  {
    hide Slot;
    var n := |rows| - 1;
    forall x | x in rows[..n]
      ensures |x.coef| == WIDTH && x.coef[index] == 0
    {
      var j :| 0 <= j < n && rows[j] == x;
      assert rows[j].coef[Slot(rows[n].pivot)] == 0;
      assert rows[j] in rows;
    }
  }

  lemma {:induction false} WithoutNothing(rows: seq<Row>, index: nat)
    requires index < WIDTH && forall x :: x in rows ==> |x.coef| == WIDTH && x.coef[index] == 0
    ensures Without(rows, index) == rows
  {
    if rows != [] {
      var n := |rows| - 1;
      WithoutNothing(rows[..n], index);
      assert rows == rows[..n] + [rows[n]];
    }
  }

  /** Evicting an identifier drops at most one equation. */
  lemma EvictDropsAtMostOne(st: State)
    requires Reduced(st)
    ensures |Evict(st).rows| >= |st.rows| - 1
  {
    forall x | x in st.rows && x.coef[Slot(st.lo)] != 0
      ensures Slot(x.pivot) == Slot(st.lo)
    {
      var k :| 0 <= k < |st.rows| && st.rows[k] == x;
      OnlyItsPivotMentionsOldest(st, k);
    }
    WithoutDropsOne(st.rows, Slot(st.lo));
  }

  lemma {:induction false} EvictManyLo(st: State, n: nat)
    requires Sized(st)
    ensures var r := EvictMany(st, n);
            r.lo == Wrap(st.lo + n) && r.high == st.high && r.origin == st.origin && r.started == st.started
    decreases n
  {
    hide Without, Wrap;
    if n > 0 {
      EvictManyLo(Evict(st), n - 1);
      WrapPlus(st.lo + 1, n - 1);
    } else {
      WrapSmall(st.lo);
    }
  }

  lemma {:induction false} EvictManyReduced(st: State, n: nat)
    requires Reduced(st)
    ensures Reduced(EvictMany(st, n))
    decreases n
  {
    hide Evict, Led, Apart, Mixed;
    if n > 0 {
      EvictReduced(st);
      EvictManyReduced(Evict(st), n - 1);
    }
  }

  /** The k newest slots hold nothing and no equation mentions them. */
  ghost predicate Emptied(st: State, k: nat)
    requires Sized(st)
  {
    forall i :: 0 <= i < WIDTH && WIDTH - k <= Offset(st.lo, i) ==>
      st.cells[i] == Vacant && forall r :: r in st.rows ==> r.coef[i] == 0
  }

  lemma EvictEmpties(st: State, k: nat)
    requires Framed(st) && k < WIDTH && Emptied(st, k)
    ensures Emptied(Evict(st), k + 1)
  {
    EvictFramed(st);
    var r := Evict(st);
    forall i | 0 <= i < WIDTH && WIDTH - (k + 1) <= Offset(r.lo, i)
      ensures r.cells[i] == Vacant && forall x :: x in r.rows ==> x.coef[i] == 0
    {
      OffsetNext(st.lo, i);
    }
  }

  lemma {:induction false} EvictManyEmpties(st: State, n: nat, k: nat)
    requires Framed(st) && n + k <= WIDTH && Emptied(st, k)
    ensures Framed(EvictMany(st, n)) && Emptied(EvictMany(st, n), n + k)
    decreases n
  {
    hide Evict, IdOf;
    if n > 0 {
      EvictFramed(st);
      EvictEmpties(st, k);
      EvictManyEmpties(Evict(st), n - 1, k + 1);
    }
  }

  /** Walking a whole window out leaves nothing behind. */
  lemma EvictWholeWindow(st: State)
    requires Reduced(st)
    ensures var r := EvictMany(st, WIDTH);
            r.rows == [] && forall i :: 0 <= i < WIDTH ==> r.cells[i] == Vacant
  {
    hide EvictMany;
    var r := EvictMany(st, WIDTH);
    EvictManyEmpties(st, WIDTH, 0) by {
      forall i | 0 <= i < WIDTH
        ensures Offset(st.lo, i) < WIDTH
      {
        OffsetInverse(st.lo, i);
      }
    }
    EvictManyReduced(st, WIDTH);
    assert r.rows != [] ==> Led(r.lo, r.rows[0]);
  }

  // ---------- whole operations ----------

  ghost predicate Empty(st: State) {
    Sized(st) && st.rows == [] && forall i :: 0 <= i < WIDTH ==> st.cells[i] == Vacant
  }

  /** The invariant between calls. */
  ghost predicate Good(st: State) {
    if st.started then Aligned(st) && Reduced(st) else Empty(st)
  }

  lemma EmptyReduced(st: State)
    requires Empty(st)
    ensures Reduced(st)
  {
  }

  lemma AlignedAt(esi: Id)
    ensures Wrap(esi + 1) == Wrap(Wrap(esi + 1 - WIDTH) + WIDTH)
    ensures InWindow(Wrap(esi + 1 - WIDTH), esi)
  {
    WrapPlus(esi + 1 - WIDTH, WIDTH);
    WrapMinus(esi, esi + 1 - WIDTH);
    WrapSmall(esi);
    WrapSmall(WIDTH - 1);
  }

  /** The sign tests of the window's two ends, as distances from the old end. */
  lemma WindowTests(st: State, esi: Id)
    requires Aligned(st)
    ensures var d := Wrap(esi - st.lo);
            && (Behind(esi, st.lo) <==> d >= HALF)
            && (d < HALF ==> (Behind(esi, st.high) <==> d < WIDTH))
            && (d < HALF ==> Wrap(esi + 1 - st.lo) == d + 1)
  {
    var d := Wrap(esi - st.lo);
    WrapPlus(esi - st.lo, 1);
    if d < HALF {
      WrapSmall(d + 1);
      WrapMinus(esi, st.lo + WIDTH);
      WrapPlus(esi - st.lo, -(WIDTH as int));
      WrapSmall(esi);
      if d < WIDTH {
        WrapShift(d - WIDTH, 1);
        WrapSmall(d - WIDTH + MODULUS);
      } else {
        WrapSmall(d - WIDTH);
      }
    }
  }

  /** Where the window ends up when it slides to bring esi in. */
  lemma SlideEnds(lo: Id, esi: Id, n: nat)
    requires var d := Wrap(esi - lo); WIDTH <= d < HALF && n == if d + 1 - WIDTH < WIDTH then d + 1 - WIDTH else WIDTH
    ensures Wrap(esi + 1 - Wrap(lo + n)) == Wrap(esi - lo) + 1 - n
    ensures Wrap(esi - lo) + 1 - n == WIDTH ==> Wrap(lo + n) == Wrap(esi + 1 - WIDTH)
  {
    hide Wrap;
    var d := Wrap(esi - lo);
    WrapMinus(esi + 1, lo + n);
    WrapPlus(esi + 1, -(Wrap(lo + n) as int));
    WrapPlus(esi - lo, 1 - n);
    WrapSmall(d + 1 - n);
    if d + 1 - n == WIDTH {
      IdFromDistance(lo, esi);
      WrapPlus(lo + d, 1 - WIDTH);
    }
  }

  lemma AdmitGood(st: State, esi: Id)
    requires Good(st)
    ensures var a := Admit(st, esi);
            Good(a.state) && (a.ok ==> a.state.started && InWindow(a.state.lo, esi))
  {
    hide EvictMany, LostOf, Wrap, Behind, Led, Apart, Mixed;
    if !st.started {
      AlignedAt(esi);
      EmptyReduced(Admit(st, esi).state);
    } else {
      WindowTests(st, esi);
      var d := Wrap(esi - st.lo);
      if WIDTH <= d < HALF {
        var n := Walked(st, esi);
        var slid := EvictMany(st, n);
        EvictManyLo(st, n);
        EvictManyReduced(st, n);
        SlideEnds(st.lo, esi, n);
        AlignedAt(esi);
        if n == WIDTH {
          EvictWholeWindow(st);
          EmptyReduced(Admit(st, esi).state);
        } else {
          ReducedElsewhere(slid, Admit(st, esi).state);
        }
      }
    }
  }

  /** The form does not depend on the window's upper end or its origin. */
  lemma ReducedElsewhere(st: State, other: State)
    requires Reduced(st) && other.cells == st.cells && other.rows == st.rows && other.lo == st.lo
    ensures Reduced(other)
  {
  }
}
