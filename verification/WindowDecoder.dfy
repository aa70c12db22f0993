/**
 The decoder as it runs: fields updated in place, one loop per scan of the window
 or of the equations. Every method is proved to take the state where the function
 of the same step in DecoderModel takes it.
 */
module WindowDecoder {
  import opened GaloisField
  import opened LinearSystem
  import opened SymbolIds
  import opened Coefficients
  import opened DecoderModel
  import opened DecoderInvariant
  import opened DecoderRuns

  /** Walking the window from its old end, the sign test against its new end counts WIDTH identifiers. */
  lemma WalkGuard(lo: Id, high: Id, k: nat)
    requires high == Wrap(lo + WIDTH) && k <= WIDTH
    ensures Behind(Wrap(lo + k), high) <==> k < WIDTH
  {
    BehindIsLess(lo + k, lo + WIDTH);
  }

  lemma WalkStep(lo: Id, k: nat)
    ensures Wrap(Wrap(lo + k) + 1) == Wrap(lo + k + 1) && Slot(Wrap(lo + k)) == Slot(lo + k)
  {
    WrapPlus(lo + k, 1);
    SlotOfWrap(lo + k);
  }

  lemma WithoutStep(rows: seq<Row>, index: nat, i: nat)
    requires index < WIDTH && (forall x :: x in rows ==> |x.coef| == WIDTH) && i < |rows|
    ensures Without(rows[..i + 1], index)
         == Without(rows[..i], index) + if rows[i].coef[index] == 0 then [rows[i]] else []
  {
    assert rows[..i + 1][..i] == rows[..i];
  }

  class Decoder {
    var cells: seq<Cell>
    var rows: seq<Row>
    var lo: Id
    var high: Id
    var origin: Id
    var started: bool

    ghost function Model(): State
      reads this
    {
      State(cells, rows, lo, high, origin, started)
    }

    ghost predicate Valid()
      reads this
    {
      Sized(Model()) && (started ==> Aligned(Model()))
    }

    constructor ()
      ensures Valid() && Model() == Initial()
    {
      cells := seq(WIDTH, _ => Vacant);
      rows, lo, high, origin, started := [], 0, 0, 0, false;
    }

    /** The oldest identifier an equation still depends on, and how many it depends on altogether. */
    method LeadingOf(coef: seq<Byte>) returns (pivot: Id, count: nat)
      requires Valid() && started && |coef| == WIDTH
      ensures count == Count(lo, coef)
      ensures count > 0 ==> pivot == Leading(lo, coef)
    {
      hide Behind, Slot, CountFrom, OffsetFrom, Sized;
      pivot, count := 0, 0;
      var esi: Id := lo;
      ghost var k := 0;
      WrapSmall(lo);
      while Behind(esi, high)
        invariant k <= WIDTH && esi == Wrap(lo + k)
        invariant count + CountFrom(lo, coef, k) == CountFrom(lo, coef, 0)
        invariant if count == 0 then OffsetFrom(lo, coef, k) == OffsetFrom(lo, coef, 0)
                  else pivot == Wrap(lo + OffsetFrom(lo, coef, 0))
        decreases WIDTH - k
      {
        WalkGuard(lo, high, k);
        WalkStep(lo, k);
        LeadingStep(lo, coef, k);
        if coef[Slot(esi)] != 0 {
          if count == 0 {
            pivot := esi;
          }
          count := count + 1;
        }
        esi := Wrap(esi + 1);
        k := k + 1;
      }
      WalkGuard(lo, high, k);
      LeadingEnd(lo, coef);
    }

    /** Records a symbol as known and removes it from every equation that was waiting on it. */
    method SubstituteSymbol(esi: Id, v: Vector) returns (recorded: bool)
      requires Valid()
      modifies this`cells, this`rows
      ensures Valid() && Model() == Substitute(old(Model()), esi, v)
      ensures recorded == !Known(old(Model()), esi)
    {
      hide ResolveAll, Slot;
      var index := Slot(esi);
      recorded := !(cells[index].Held? && cells[index].esi == esi);
      if !recorded {
        return;
      }
      cells := cells[index := Held(esi, v)];
      rows := ResolveRows(rows, index, v);
    }

    /** Takes every equation that has come down to one unknown, until nothing more falls out. */
    method HarvestRows(already: seq<Symbol>) returns (out: seq<Symbol>)
      requires Valid() && started
      modifies this`cells, this`rows
      ensures Valid() && (Model(), out) == Harvest(old(Model()), already)
    {
      out := already;
      var progress := true;
      while progress
        invariant Valid() && started
        invariant Harvest(old(Model()), already) == if progress then Harvest(Model(), out) else (Model(), out)
        decreases |rows|, progress
      {
        hide Sized, Aligned;
        progress, out := HarvestOnce(out);
      }
    }

    /** One scan of the equations. */
    method HarvestOnce(already: seq<Symbol>) returns (progress: bool, out: seq<Symbol>)
      requires Valid() && started
      modifies this`cells, this`rows
      ensures Valid() && Harvested(Model(), out, progress) == HarvestPass(old(Model()), 0, already, false)
    {
      hide HarvestPass, Sized, Aligned;
      progress, out := false, already;
      var i: nat := 0;
      while i < |rows|
        invariant Valid() && started && i <= |rows|
        invariant HarvestPass(Model(), i, out, progress) == HarvestPass(old(Model()), 0, already, false)
        decreases |rows| - i
      {
        i, progress, out := HarvestAt(i, progress, out);
      }
      HarvestPassEnd(Model(), out, progress);
    }

    /** Looks at one equation of the scan. */
    method HarvestAt(i: nat, before: bool, already: seq<Symbol>) returns (next: nat, progress: bool, out: seq<Symbol>)
      requires Valid() && started && i < |rows|
      modifies this`cells, this`rows
      ensures Valid() && next <= |rows| && |rows| - next < old(|rows|) - i
      ensures HarvestPass(Model(), next, out, progress) == HarvestPass(old(Model()), i, already, before)
    {
      hide Count, Leading, Known, Substitute, Sized, HarvestPass, Aligned;
      next, progress, out := i, before, already;
      ghost var st := Model();
      SizedAt(st, i);
      HarvestPassStep(st, i, already, before);
      var r := rows[i];
      var esi, count := LeadingOf(r.coef);
      if count > 1 {
        next := i + 1;
        return;
      }
      rows := rows[..i] + rows[i + 1..];
      WithoutRowKeeps(st, i, Model());
      if count == 1 {
        SubstituteFrame(Model(), esi, r.data);
        var recorded := SubstituteSymbol(esi, r.data);
        if recorded {
          out := out + [Symbol(esi, r.data)];
        }
        progress := true;
      }
    }

    /** Moves every known symbol of an equation to its constant side. */
    method WithoutKnown(row: Row) returns (r: Row)
      requires Valid() && started && |row.coef| == WIDTH
      ensures r == ReduceKnown(Model(), row, 0)
    {
      hide Behind, Slot, AddScaled, Extend, ReduceKnown, Wrap, Sized;
      SizedCells(Model());
      r := row;
      var esi: Id := lo;
      ghost var k := 0;
      WrapSmall(lo);
      while Behind(esi, high)
        invariant k <= WIDTH && esi == Wrap(lo + k) && |r.coef| == WIDTH
        invariant ReduceKnown(Model(), r, k) == ReduceKnown(Model(), row, 0)
        decreases WIDTH - k
      {
        WalkGuard(lo, high, k);
        WalkStep(lo, k);
        ReduceKnownStep(Model(), r, k);
        var index := Slot(esi);
        if r.coef[index] != 0 && cells[index].Held? {
          var v := cells[index].vector;
          r := r.(data := AddScaled(r.coef[index], v, Extend(r.data, |v|)), coef := r.coef[index := 0]);
        }
        esi := Wrap(esi + 1);
        k := k + 1;
      }
      WalkGuard(lo, high, k);
      ReduceKnownEnd(Model(), r);
    }

    /** Adds one equation to the system. */
    method InsertRow(row: Row) returns (out: seq<Symbol>)
      requires Valid() && started && |row.coef| == WIDTH
      modifies this`cells, this`rows
      ensures Valid() && (Model(), out) == Insert(old(Model()), row)
    {
      hide ReduceByRows, ReduceKnown, Harvest, Inverse, Scale, Count, Leading, ClearAll, Sized, Aligned;
      var known := WithoutKnown(row);
      var r := WithoutPivots(known);
      assert r == Reduce(old(Model()), row);
      var pivot, count := LeadingOf(r.coef);
      if count == 0 {
        return [];
      }
      var f := Inverse(r.coef[Slot(pivot)]);
      var unit := Row(pivot, r.coef, r.data);
      if f != 1 {
        unit := Row(pivot, Scale(f, r.coef), Scale(f, r.data));
      }
      assert unit == Normalise(lo, r);
      var cleared := ClearRows(rows, unit) by { SizedRows(Model()); }
      ClearedSized(Model(), unit);
      rows := cleared + [unit];
      out := HarvestRows([]);
    }

    /** Reduces an equation by the pivots of those already held. */
    method WithoutPivots(row: Row) returns (r: Row)
      requires Valid() && |row.coef| == WIDTH
      ensures r == ReduceByRows(rows, row, 0)
    {
      r := row;
      var j := 0;
      while j < |rows|
        invariant j <= |rows| && |r.coef| == WIDTH
        invariant ReduceByRows(rows, r, j) == ReduceByRows(rows, row, 0)
      {
        hide Eliminate;
        var c := r.coef[Slot(rows[j].pivot)];
        if c != 0 {
          r := Eliminate(r, c, rows[j]);
        }
        j := j + 1;
      }
    }

    /** Drops the oldest identifier and everything that depended on it. */
    method EvictOldest(lost: seq<Id>) returns (out: seq<Id>)
      requires Sized(Model())
      modifies this`cells, this`rows, this`lo
      ensures Sized(Model()) && Model() == Evict(old(Model()))
      ensures out == lost + if LostOnLeaving(old(Model()), old(lo)) then [old(lo)] else []
    {
      hide Without, Behind, Wrap, Slot;
      var index := Slot(lo);
      var held := cells[index].Held? && cells[index].esi == lo;
      out := lost;
      if !held && !Behind(lo, origin) {
        out := out + [lo];
      }
      if held {
        cells := cells[index := Vacant];
      }
      rows := KeepWithout(rows, index);
      lo := Wrap(lo + 1);
    }

    /** Brings esi into the window, reporting whatever falls off the back; false if it is already behind. */
    method AdmitSymbol(esi: Id) returns (ok: bool, lost: seq<Id>)
      requires Valid()
      modifies this
      ensures Valid() && Admission(Model(), lost, ok) == Admit(old(Model()), esi)
      ensures ok ==> started
    {
      hide EvictMany, LostOf, Sized, Walked;
      lost := [];
      if !started {
        AlignedAt(esi);
        started, origin, high := true, esi, Wrap(esi + 1);
        WrapPlus(esi + 1, -(WIDTH as int));
        lo := Wrap(high - WIDTH);
        SizedElsewhere(old(Model()), Model());
        return true, lost;
      }
      if Behind(esi, lo) {
        return false, lost;
      }
      if !Behind(esi, high) {
        lost := SlideTo(esi);
      }
      return true, lost;
    }

    /** Slides the window forward to end just past esi. */
    method SlideTo(esi: Id) returns (lost: seq<Id>)
      requires Valid() && started && !Behind(esi, lo) && !Behind(esi, high)
      modifies this
      ensures Valid() && started && Admission(Model(), lost, true) == Admit(old(Model()), esi)
    {
      hide EvictMany, LostOf, Walked, Behind, Sized, Admit, Wrap;
      ghost var st, n := Model(), Walked(Model(), esi);
      WindowTests(st, esi);
      WalkEnds(st.lo, esi);
      WalkedIs(st, esi);
      AdmitIsSlide(st, esi);
      high := Wrap(esi + 1);
      SizedElsewhere(st, Model());
      EvictManyLo(st, n);
      EvictManyEnds(st, st.high, high, n);
      lost := EvictBehind();
      WrapPlus(esi + 1, -(lo as int));
      if Wrap(high - lo) > WIDTH {
        lo := Wrap(high - WIDTH);
        SizedElsewhere(EvictMany(st, n), Model());
      }
      SlideEnds(st.lo, esi, n);
      AlignedAt(esi);
      WrapPlus(esi + 1, -(WIDTH as int));
    }

    /** Walks identifiers out of the back of the window, a whole window of them at most. */
    method EvictBehind() returns (lost: seq<Id>)
      requires Sized(Model()) && WIDTH < Wrap(high - lo) <= HALF
      modifies this`cells, this`rows, this`lo
      ensures Sized(Model())
      ensures var gap := Wrap(old(high - lo)); var n := if gap - WIDTH < WIDTH then gap - WIDTH else WIDTH;
              Model() == EvictMany(old(Model()), n) && lost == LostOf(old(Model()), n)
    {
      hide Behind, Evict, LostOnLeaving, EvictMany, LostOf, Sized, Wrap;
      ghost var st, gap := Model(), Wrap(high - lo);
      ghost var n, k := if gap - WIDTH < WIDTH then gap - WIDTH else WIDTH, 0;
      lost := [];
      var walked := Wrap(lo + WIDTH);
      WrapSmall(lo);
      while Wrap(high - lo) > WIDTH && Behind(lo, walked)
        invariant k <= n && lo == Wrap(st.lo + k) && Sized(Model())
        invariant EvictMany(Model(), n - k) == EvictMany(st, n)
        invariant lost + LostOf(Model(), n - k) == LostOf(st, n)
        decreases n - k
      {
        GapOnWalk(st.lo, high, k);
        WalkGuard(st.lo, walked, k);
        EvictManyStep(Model(), n - k);
        lost := EvictOldest(lost);
        WrapPlus(st.lo + k, 1);
        k := k + 1;
      }
      GapOnWalk(st.lo, high, k);
      WalkGuard(st.lo, walked, k);
      EvictManyNone(Model());
    }

    /** Records that an identifier is known to exist. */
    method WitnessSymbol(esi: Id)
      requires Valid()
      modifies this`origin
      ensures Valid() && Model() == Witness(old(Model()), esi)
    {
      if started && Behind(esi, origin) && !Behind(esi, lo) {
        origin := esi;
      }
    }

    /** A source symbol arrives intact. */
    method TakeSource(esi: Id, v: Vector) returns (recovered: seq<Symbol>, lost: seq<Id>)
      requires Valid()
      modifies this
      ensures Valid() && Outcome(Model(), recovered, lost) == Source(old(Model()), esi, v)
    {
      hide Harvest, Substitute, Admit;
      recovered := [];
      var ok;
      ok, lost := AdmitSymbol(esi);
      if !ok {
        return;
      }
      WitnessSymbol(esi);
      if cells[Slot(esi)].Held? && cells[Slot(esi)].esi == esi {
        return;
      }
      SubstituteFrame(Model(), esi, v);
      var _ := SubstituteSymbol(esi, v);
      recovered := HarvestRows([]);
    }

    /** A repair symbol arrives, naming its window by its first identifier and its count. */
    method TakeRepairSymbol(rid: Id, first: Id, count: nat, vector: Vector)
      returns (recovered: seq<Symbol>, lost: seq<Id>)
      requires Valid()
      modifies this
      ensures Valid() && Outcome(Model(), recovered, lost)
           == TakeRepair(old(Model()), Repair(first, WindowCoefficients(rid, count), vector))
    {
      hide Insert, Admit, WindowCoefficient;
      recovered, lost := [], [];
      if count == 0 || |vector| == 0 || count > MAX_REPAIR_WINDOW {
        return;
      }
      var ok;
      ok, lost := AdmitSymbol(Wrap(first + count - 1));
      if !ok {
        return;
      }
      WitnessSymbol(first);
      if Behind(first, lo) {
        return;
      }
      var coef := LayOut(rid, first, count);
      recovered := InsertRow(Row(0, coef, vector));
    }
  }

  /** Moves a known symbol to the constant side of every equation that mentions it. */
  method ResolveRows(rows: seq<Row>, index: nat, v: Vector) returns (resolved: seq<Row>)
    requires index < WIDTH && forall x :: x in rows ==> |x.coef| == WIDTH
    ensures resolved == ResolveAll(rows, index, v)
  {
    hide AddScaled, Extend;
    resolved := rows;
    var i := 0;
    while i < |resolved|
      invariant i <= |resolved| == |rows|
      invariant forall j :: 0 <= j < i ==> resolved[j] == Resolve(rows[j], index, v)
      invariant forall j :: i <= j < |rows| ==> resolved[j] == rows[j]
    {
      var r := resolved[i];
      assert r in rows;
      var c := r.coef[index];
      if c != 0 {
        resolved := resolved[i := r.(coef := r.coef[index := 0], data := AddScaled(c, v, Extend(r.data, |v|)))];
      }
      i := i + 1;
    }
  }

  /** Clears a new pivot from the equations already held. */
  method ClearRows(rows: seq<Row>, unit: Row) returns (cleared: seq<Row>)
    requires |unit.coef| == WIDTH && forall x :: x in rows ==> |x.coef| == WIDTH
    ensures cleared == ClearAll(rows, unit)
  {
    hide Eliminate, Slot;
    cleared := rows;
    var i := 0;
    while i < |cleared|
      invariant i <= |cleared| == |rows|
      invariant forall j :: 0 <= j < i ==> cleared[j] == ClearWith(rows[j], unit)
      invariant forall j :: i <= j < |rows| ==> cleared[j] == rows[j]
    {
      assert cleared[i] in rows;
      var c := cleared[i].coef[Slot(unit.pivot)];
      if c != 0 {
        cleared := cleared[i := Eliminate(cleared[i], c, unit)];
      }
      i := i + 1;
    }
  }

  /** The equations that do not mention a slot. */
  method KeepWithout(rows: seq<Row>, index: nat) returns (kept: seq<Row>)
    requires index < WIDTH && forall x :: x in rows ==> |x.coef| == WIDTH
    ensures kept == Without(rows, index)
  {
    hide Without;
    kept := [];
    assert kept == Without(rows[..0], index) by { WithoutNothing([], index); }
    var i := 0;
    while i < |rows|
      invariant i <= |rows| && kept == Without(rows[..i], index)
    {
      WithoutStep(rows, index, i);
      if rows[i].coef[index] == 0 {
        kept := kept + [rows[i]];
      }
      i := i + 1;
    }
    assert rows[..i] == rows;
  }

  /** A repair's coefficients, each at its symbol's slot. */
  method LayOut(rid: Id, first: Id, count: nat) returns (coef: seq<Byte>)
    requires count <= MAX_REPAIR_WINDOW
    ensures coef == Spread(first, WindowCoefficients(rid, count))
  {
    hide WindowCoefficient;
    ghost var coefs := WindowCoefficients(rid, count);
    coef := seq(WIDTH, _ => 0);
    assert coefs[..0] == [];
    assert coef == Spread(first, coefs[..0]);
    var i := 0;
    while i < count
      invariant i <= count && coef == Spread(first, coefs[..i])
    {
      SpreadStep(first, coefs, i);
      SlotOfWrap(first + i);
      ghost var s := Slot(first + i);
      assert Spread(first, coefs[..i + 1]) == coef[s := coefs[i]];
      coef := coef[Slot(Wrap(first + i)) := WindowCoefficient(rid, i)];
      i := i + 1;
    }
    assert coefs[..i] == coefs;
  }

  lemma LeadingStep(lo: Id, coef: seq<Byte>, k: nat)
    requires |coef| == WIDTH && k < WIDTH
    ensures CountFrom(lo, coef, k) == (if coef[Slot(lo + k)] == 0 then 0 else 1) + CountFrom(lo, coef, k + 1)
    ensures OffsetFrom(lo, coef, k) == if coef[Slot(lo + k)] != 0 then k else OffsetFrom(lo, coef, k + 1)
  {
  }

  lemma LeadingEnd(lo: Id, coef: seq<Byte>)
    requires |coef| == WIDTH
    ensures CountFrom(lo, coef, WIDTH) == 0
  {
  }

  lemma ReduceKnownStep(st: State, row: Row, k: nat)
    requires Sized(st) && |row.coef| == WIDTH && k < WIDTH
    ensures var i := Slot(st.lo + k);
            ReduceKnown(st, row, k)
                == ReduceKnown(st, if st.cells[i].Held? then Resolve(row, i, st.cells[i].vector) else row, k + 1)
  {
  }

  lemma ReduceKnownEnd(st: State, row: Row)
    requires Sized(st) && |row.coef| == WIDTH
    ensures ReduceKnown(st, row, WIDTH) == row
  {
  }

  lemma SizedCells(st: State)
    requires Sized(st)
    ensures |st.cells| == WIDTH
  {
  }

  lemma SizedAt(st: State, i: nat)
    requires Sized(st) && i < |st.rows|
    ensures |st.rows[i].coef| == WIDTH && |st.cells| == WIDTH
  {
  }

  lemma WithoutRowKeeps(st: State, i: nat, next: State)
    requires Sized(st) && i < |st.rows| && next == st.(rows := st.rows[..i] + st.rows[i + 1..])
    ensures next == WithoutRow(st, i) && Sized(next) && (Aligned(st) ==> Aligned(next))
  {
  }

  lemma HarvestPassStep(st: State, i: nat, out: seq<Symbol>, progress: bool)
    requires Sized(st) && i < |st.rows|
    ensures var row, rest := st.rows[i], WithoutRow(st, i);
            var count, esi := Count(st.lo, row.coef), Leading(st.lo, row.coef);
            HarvestPass(st, i, out, progress) ==
            if count == 0 then HarvestPass(rest, i, out, progress)
            else if count > 1 then HarvestPass(st, i + 1, out, progress)
            else HarvestPass(Substitute(rest, esi, row.data), i,
                             if Known(rest, esi) then out else out + [Symbol(esi, row.data)], true)
  {
    hide Count, Leading, Known, Substitute;
  }

  lemma HarvestPassEnd(st: State, out: seq<Symbol>, progress: bool)
    requires Sized(st)
    ensures HarvestPass(st, |st.rows|, out, progress) == Harvested(st, out, progress)
  {
  }

  lemma EvictManyStep(st: State, n: nat)
    requires Sized(st) && n > 0
    ensures EvictMany(st, n) == EvictMany(Evict(st), n - 1)
    ensures LostOf(st, n) == (if LostOnLeaving(st, st.lo) then [st.lo] else []) + LostOf(Evict(st), n - 1)
  {
  }

  lemma SizedRows(st: State)
    requires Sized(st)
    ensures forall x :: x in st.rows ==> |x.coef| == WIDTH
  {
  }

  lemma ClearedSized(st: State, unit: Row)
    requires Sized(st) && |unit.coef| == WIDTH
    ensures var next := st.(rows := ClearAll(st.rows, unit) + [unit]); Sized(next) && (Aligned(st) ==> Aligned(next))
  {
  }

  lemma GapOnWalk(lo: Id, high: Id, k: nat)
    requires k <= Wrap(high - lo)
    ensures Wrap(high - Wrap(lo + k)) == Wrap(high - lo) - k
  {
    WrapMinus(high, lo + k);
    WrapSmall(high);
    WrapPlus(high - lo, -(k as int));
    WrapSmall(Wrap(high - lo) - k);
  }

  lemma EvictManyNone(st: State)
    requires Sized(st)
    ensures EvictMany(st, 0) == st && LostOf(st, 0) == []
  {
  }

  lemma WalkedIs(st: State, esi: Id)
    requires WIDTH <= Wrap(esi - st.lo) < HALF && Wrap(esi + 1 - st.lo) == Wrap(esi - st.lo) + 1
    ensures var d := Wrap(esi - st.lo); Walked(st, esi) == if d + 1 - WIDTH < WIDTH then d + 1 - WIDTH else WIDTH
  {
  }

  lemma AdmitIsSlide(st: State, esi: Id)
    requires Sized(st) && st.started && !Behind(esi, st.lo) && !Behind(esi, st.high)
    ensures var n := Walked(st, esi);
            var slid := EvictMany(st, n);
            var lo := if Wrap(esi + 1 - slid.lo) > WIDTH then Wrap(esi + 1 - WIDTH) else slid.lo;
            Admit(st, esi) == Admission(slid.(high := Wrap(esi + 1), lo := lo), LostOf(st, n), true)
  {
    hide Walked, EvictMany, LostOf, Behind;
  }

  lemma WalkEnds(lo: Id, esi: Id)
    requires WIDTH <= Wrap(esi - lo) < HALF
    ensures Wrap(Wrap(esi + 1) - lo) == Wrap(esi - lo) + 1 == Wrap(esi + 1 - lo)
  {
    WrapMinus(esi + 1, lo);
    WrapSmall(lo);
    WrapPlus(esi - lo, 1);
    WrapSmall(Wrap(esi - lo) + 1);
  }

  lemma SizedElsewhere(st: State, other: State)
    requires other.cells == st.cells && other.rows == st.rows && Sized(st)
    ensures Sized(other)
  {
  }

  /** Eviction does not look at the window's upper end. */
  lemma {:induction false} EvictManyEnds(st: State, was: Id, now: Id, n: nat)
    requires Sized(st) && st.high == was
    ensures EvictMany(st.(high := now), n) == EvictMany(st, n).(high := now)
    ensures LostOf(st.(high := now), n) == LostOf(st, n)
    decreases n
  {
    hide Without;
    if n > 0 {
      EvictManyEnds(Evict(st), was, now, n - 1);
    }
  }
}
