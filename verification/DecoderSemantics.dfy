/**
 What the decoder's state means: the set of assignments of symbols to slots that
 its held symbols and equations allow. Each operation is shown to transform that
 set exactly, so nothing a true equation says is ever lost or invented.
 */
module DecoderSemantics {
  import opened GaloisField
  import opened LinearSystem
  import opened SymbolIds
  import opened DecoderModel
  import opened DecoderInvariant

  ghost predicate CellsAgree(cells: seq<Cell>, xs: seq<Vector>)
    requires |cells| == |xs|
  {
    forall i :: 0 <= i < |cells| && cells[i].Held? ==> Same(cells[i].vector, xs[i])
  }

  ghost predicate RowsHold(rows: seq<Row>, xs: seq<Vector>) {
    forall j :: 0 <= j < |rows| ==> Holds(rows[j], xs)
  }

  /** The assignment xs of symbols to slots satisfies everything the decoder holds. */
  ghost predicate Consistent(st: State, xs: seq<Vector>) {
    |st.cells| == |xs| == WIDTH && CellsAgree(st.cells, xs) && RowsHold(st.rows, xs)
  }

  /** Every constant term is at least as long as each symbol its equation mentions. */
  ghost predicate LongEnough(r: Row, xs: seq<Vector>) {
    |r.coef| == |xs| && forall i :: 0 <= i < |xs| && r.coef[i] != 0 ==> |xs[i]| <= |r.data|
  }

  ghost predicate Long(st: State, xs: seq<Vector>) {
    && |st.cells| == |xs|
    && (forall i :: 0 <= i < |xs| && st.cells[i].Held? ==> |xs[i]| <= |st.cells[i].vector|)
    && (forall j :: 0 <= j < |st.rows| ==> LongEnough(st.rows[j], xs))
  }

  /** Every reported symbol is the assigned one followed only by zeros. */
  ghost predicate Right(out: seq<Symbol>, xs: seq<Vector>)
    requires |xs| == WIDTH
  {
    forall k :: 0 <= k < |out| ==> Padded(out[k].vector, xs[Slot(out[k].esi)])
  }

  // ---------- substitution and harvest ----------

  lemma ResolveLong(r: Row, index: nat, v: Vector, xs: seq<Vector>)
    requires index < |r.coef| && LongEnough(r, xs)
    ensures LongEnough(Resolve(r, index, v), xs)
  {
    hide AddScaled;
  }

  /** Learning a symbol adds exactly the constraint that it has that value. */
  lemma SubstituteConsistent(st: State, esi: Id, v: Vector, xs: seq<Vector>)
    requires Framed(st) && InWindow(st.lo, esi) && !Known(st, esi) && |xs| == WIDTH
    ensures Consistent(Substitute(st, esi, v), xs) <==> Consistent(st, xs) && Same(v, xs[Slot(esi)])
    ensures Long(st, xs) && |xs[Slot(esi)]| <= |v| ==> Long(Substitute(st, esi, v), xs)
  {
    hide Holds, Same, Resolve, IdOf;
    InWindowSlot(st.lo, esi);
    var s, r := Slot(esi), Substitute(st, esi, v);
    assert !st.cells[s].Held?;
    assert r.cells[s].vector == v;
    if Same(v, xs[s]) {
      forall j | 0 <= j < |st.rows|
        ensures Holds(r.rows[j], xs) <==> Holds(st.rows[j], xs)
      {
        ResolveHolds(st.rows[j], s, v, xs);
      }
    }
    forall j | 0 <= j < |st.rows| && LongEnough(st.rows[j], xs)
      ensures LongEnough(r.rows[j], xs)
    {
      ResolveLong(st.rows[j], s, v, xs);
    }
  }

  /** A row down to its unit pivot says what the pivot is. */
  lemma SingleHolds(lo: Id, r: Row, xs: seq<Vector>)
    requires Led(lo, r) && !Mixed(r) && |xs| == WIDTH
    ensures Holds(r, xs) <==> Same(r.data, xs[Slot(r.pivot)])
  {
    hide Sum, Mul;
    var p := Slot(r.pivot);
    forall q: nat
      ensures Sum(r.coef, xs, q, |xs|) == At(xs[p], q)
    {
      SumOfOne(r.coef, xs, q, p);
      MulLaws(At(xs[p], q), 0, 0);
    }
  }

  lemma TakeSingleConsistent(st: State, i: nat, xs: seq<Vector>)
    requires Echelon(st) && i < |st.rows| && Count(st.lo, st.rows[i].coef) == 1 && |xs| == WIDTH
    ensures Consistent(TakeSingle(st, i), xs) <==> Consistent(st, xs)
    ensures Consistent(st, xs) && Long(st, xs) ==>
              Long(TakeSingle(st, i), xs) && Padded(st.rows[i].data, xs[Slot(st.rows[i].pivot)])
  {
    hide Holds, Same, Count, Padded;
    var row, r := st.rows[i], TakeSingle(st, i);
    var p := Slot(row.pivot);
    assert Led(st.lo, row);
    SingleIsPivot(st.lo, row);
    SingleHolds(st.lo, row, xs);
    assert !st.cells[p].Held?;
    forall j | 0 <= j < |r.rows|
      ensures r.rows[j] == st.rows[if j < i then j else j + 1]
    {
    }
    forall k | 0 <= k < |st.rows| && k != i
      ensures st.rows[k] == r.rows[if k < i then k else k - 1]
    {
    }
    assert r.cells[p].vector == row.data;
    SameAndLongIsPadded(row.data, xs[p]);
    if Consistent(st, xs) && Long(st, xs) {
      assert LongEnough(row, xs);
    }
  }

  /** Harvesting the reduced form changes nothing about what it allows, and reports true symbols. */
  lemma {:induction false} HarvestPassConsistent(st: State, i: nat, out: seq<Symbol>, progress: bool, xs: seq<Vector>)
    requires Echelon(st) && i <= |st.rows| && |xs| == WIDTH
    ensures var h := HarvestPass(st, i, out, progress);
            && (Consistent(h.state, xs) <==> Consistent(st, xs))
            && (Consistent(st, xs) && Long(st, xs) && Right(out, xs) ==> Long(h.state, xs) && Right(h.recovered, xs))
    decreases |st.rows| - i
  {
    hide Consistent, Long, Led, Count, Leading, Substitute, Padded;
    if i < |st.rows| {
      var row := st.rows[i];
      assert Led(st.lo, row);
      SingleIsPivot(st.lo, row);
      if Count(st.lo, row.coef) > 1 {
        HarvestPassConsistent(st, i + 1, out, progress, xs);
      } else {
        HarvestOne(st, i);
        TakeSingleConsistent(st, i, xs);
        HarvestPassConsistent(TakeSingle(st, i), i, out + [Symbol(row.pivot, row.data)], true, xs);
      }
    }
  }

  // ---------- adding an equation ----------

  lemma {:induction false} ReduceKnownHolds(st: State, row: Row, k: nat, xs: seq<Vector>)
    requires Sized(st) && |row.coef| == WIDTH && k <= WIDTH && Consistent(st, xs)
    ensures Holds(ReduceKnown(st, row, k), xs) <==> Holds(row, xs)
    ensures LongEnough(row, xs) ==> LongEnough(ReduceKnown(st, row, k), xs)
    decreases WIDTH - k
  {
    hide Holds, Same, Slot;
    if k < WIDTH {
      var i := Slot(st.lo + k);
      if st.cells[i].Held? {
        var v := st.cells[i].vector;
        ResolveHolds(row, i, v, xs);
        if LongEnough(row, xs) {
          ResolveLong(row, i, v, xs);
        }
        ReduceKnownHolds(st, Resolve(row, i, v), k + 1, xs);
      } else {
        ReduceKnownHolds(st, row, k + 1, xs);
      }
    }
  }

  lemma EliminateLong(r: Row, c: Byte, s: Row, xs: seq<Vector>)
    requires LongEnough(r, xs) && LongEnough(s, xs)
    ensures LongEnough(Eliminate(r, c, s), xs)
  {
    hide AddScaled;
    var e := Eliminate(r, c, s);
    forall i | 0 <= i < |xs| && e.coef[i] != 0
      ensures |xs[i]| <= |e.data|
    {
      AddScaledAt(c, s.coef, r.coef, i);
    }
  }

  lemma ClearWithHolds(r: Row, other: Row, xs: seq<Vector>)
    requires |r.coef| == |other.coef| == |xs| == WIDTH && Holds(other, xs)
    ensures Holds(ClearWith(r, other), xs) <==> Holds(r, xs)
    ensures LongEnough(r, xs) && LongEnough(other, xs) ==> LongEnough(ClearWith(r, other), xs)
  {
    hide Holds, Eliminate;
    var c := r.coef[Slot(other.pivot)];
    EliminateHolds(r, c, other, xs);
    if LongEnough(r, xs) && LongEnough(other, xs) {
      EliminateLong(r, c, other, xs);
    }
  }

  lemma {:induction false} ReduceByRowsHolds(rows: seq<Row>, row: Row, j: nat, xs: seq<Vector>)
    requires |row.coef| == |xs| == WIDTH && j <= |rows| && (forall x :: x in rows ==> |x.coef| == WIDTH)
    requires RowsHold(rows, xs)
    ensures Holds(ReduceByRows(rows, row, j), xs) <==> Holds(row, xs)
    ensures LongEnough(row, xs) && (forall k :: 0 <= k < |rows| ==> LongEnough(rows[k], xs)) ==>
              LongEnough(ReduceByRows(rows, row, j), xs)
    decreases |rows| - j
  {
    hide Holds, ClearWith, LongEnough;
    if j < |rows| {
      ClearWithHolds(row, rows[j], xs);
      ReduceByRowsHolds(rows, ClearWith(row, rows[j]), j + 1, xs);
    }
  }

  lemma ReduceHolds(st: State, row: Row, xs: seq<Vector>)
    requires Sized(st) && |row.coef| == WIDTH && Consistent(st, xs)
    ensures Holds(Reduce(st, row), xs) <==> Holds(row, xs)
    ensures Long(st, xs) && LongEnough(row, xs) ==> LongEnough(Reduce(st, row), xs)
  {
    hide Holds, LongEnough, CellsAgree;
    ReduceKnownHolds(st, row, 0, xs);
    ReduceByRowsHolds(st.rows, ReduceKnown(st, row, 0), 0, xs);
  }

  lemma NormaliseHolds(lo: Id, row: Row, xs: seq<Vector>)
    requires |row.coef| == |xs| == WIDTH && Count(lo, row.coef) > 0
    ensures Holds(Normalise(lo, row), xs) <==> Holds(row, xs)
    ensures LongEnough(row, xs) ==> LongEnough(Normalise(lo, row), xs)
  {
    hide Mul, Sum, Inverse, Count, Leading;
    LeadingFacts(lo, row.coef);
    var p := Slot(Leading(lo, row.coef));
    var f := Inverse(row.coef[p]);
    InverseLaw(row.coef[p]);
    ScaleHolds(row, f, xs);
    MulLaws(f, 0, 0);
  }

  lemma AppendConsistent(st: State, unit: Row, xs: seq<Vector>)
    requires Sized(st) && |unit.coef| == |xs| == WIDTH
    ensures var r := st.(rows := ClearAll(st.rows, unit) + [unit]);
            && (Consistent(r, xs) <==> Consistent(st, xs) && Holds(unit, xs))
            && (Consistent(r, xs) && Long(st, xs) && LongEnough(unit, xs) ==> Long(r, xs))
  {
    hide Holds, ClearWith, LongEnough;
    var rows := ClearAll(st.rows, unit) + [unit];
    assert rows[|st.rows|] == unit;
    if Holds(unit, xs) {
      forall j | 0 <= j < |st.rows|
        ensures Holds(rows[j], xs) <==> Holds(st.rows[j], xs)
        ensures LongEnough(st.rows[j], xs) && LongEnough(unit, xs) ==> LongEnough(rows[j], xs)
      {
        ClearWithHolds(st.rows[j], unit, xs);
      }
    }
  }

  /** An equation with no symbols left is about its constant term alone. */
  lemma EmptyEquation(row: Row, xs: seq<Vector>)
    requires |row.coef| == |xs| && forall i :: 0 <= i < |xs| ==> row.coef[i] == 0
    ensures Holds(row, xs) <==> Same(row.data, [])
  {
    hide Sum;
    forall q: nat
      ensures Sum(row.coef, xs, q, |xs|) == 0
    {
      SumOfZeros(row.coef, xs, q, |xs|);
    }
  }

  /**
   Adding an equation that is true of some consistent assignment adds exactly its
   constraint, and what it lets fall out is right.
   */
  lemma InsertConsistent(st: State, row: Row, truth: seq<Vector>, xs: seq<Vector>)
    requires Reduced(st) && |row.coef| == |xs| == WIDTH
    requires Consistent(st, truth) && Holds(row, truth)
    ensures var h := Insert(st, row);
            && (Consistent(h.0, xs) <==> Consistent(st, xs) && Holds(row, xs))
            && (Consistent(h.0, xs) && Long(st, xs) && LongEnough(row, xs) ==> Long(h.0, xs) && Right(h.1, xs))
  {
    hide Holds, Same, Consistent, Long, LongEnough, Reduce, Harvest, HarvestPass, Normalise, Count, Led, Apart, Mixed;
    var reduced := Reduce(st, row);
    ReduceClears(st, row);
    ReduceHolds(st, row, truth);
    if Consistent(st, xs) {
      ReduceHolds(st, row, xs);
    }
    if Count(st.lo, reduced.coef) == 0 {
      LeadingFacts(st.lo, reduced.coef);
      assert |truth| == WIDTH by {
        assert Sized(st);
        ConsistentSize(st, truth);
      }
      EmptyEquation(reduced, truth);
      EmptyEquation(reduced, xs);
    } else {
      var unit := Normalise(st.lo, reduced);
      NormaliseLeads(st, reduced);
      NormaliseHolds(st.lo, reduced, xs);
      AppendEchelon(st, unit);
      AppendConsistent(st, unit, xs);
      var full := st.(rows := ClearAll(st.rows, unit) + [unit]);
      HarvestReduces(full, []);
      HarvestPassConsistent(full, 0, [], false, xs);
    }
  }

  lemma ConsistentSize(st: State, xs: seq<Vector>)
    requires Consistent(st, xs)
    ensures |xs| == WIDTH
  {
  }

  // ---------- sliding ----------

  /** An equation that does not mention a slot says nothing about its symbol. */
  lemma HoldsElsewhere(r: Row, xs: seq<Vector>, k: nat, v: Vector)
    requires |r.coef| == |xs| && k < |xs| && r.coef[k] == 0
    ensures Holds(r, xs[k := v]) <==> Holds(r, xs)
  {
    hide Sum;
    var ys := xs[k := v];
    forall q: nat
      ensures Sum(r.coef, ys, q, |xs|) == Sum(r.coef, xs, q, |xs|)
    {
      SumAgrees(r.coef, ys, xs, q, |xs|);
    }
  }

  /** The value of the symbol at slot k that makes the equation true. */
  lemma SolveFor(r: Row, xs: seq<Vector>, k: nat, length: nat) returns (v: Vector)
    requires |r.coef| == |xs| && k < |xs| && r.coef[k] == 1
    requires |r.data| <= length && forall i :: 0 <= i < |xs| ==> |xs[i]| <= length
    ensures Holds(r, xs[k := v])
  {
    hide Sum, Add, Mul;
    var cleared := xs[k := []];
    v := seq(length, q requires 0 <= q < length => Add(At(r.data, q), Sum(r.coef, cleared, q, |xs|)));
    forall q: nat
      ensures Sum(r.coef, xs[k := v], q, |xs|) == At(r.data, q)
    {
      var s := Sum(r.coef, cleared, q, |xs|);
      assert cleared[k := v] == xs[k := v];
      SumReplace(r.coef, cleared, q, k, v);
      AddLaws(At(v, q), 0, 0);
      MulLaws(At(v, q), 0, 0);
      assert Sum(r.coef, xs[k := v], q, |xs|) == Add(s, At(v, q));
      if q < length {
        AddLaws(s, At(r.data, q), 0);
        AddCancels(s, At(r.data, q));
      } else {
        BeyondEveryLength(r.coef, cleared, q, |xs|);
        AddLaws(0, 0, 0);
      }
    }
  }

  lemma {:induction false} BeyondEveryLength(coef: seq<Byte>, xs: seq<Vector>, p: nat, n: nat)
    requires n <= |coef| == |xs| && forall i :: 0 <= i < |xs| ==> |xs[i]| <= p
    ensures Sum(coef, xs, p, n) == 0
  {
    hide Add, Mul;
    if n > 0 {
      BeyondEveryLength(coef, xs, p, n - 1);
      MulLaws(coef[n - 1], 0, 0);
      AddLaws(0, 0, 0);
    }
  }

  function Longest(xs: seq<Vector>): (n: nat)
    ensures forall i :: 0 <= i < |xs| ==> |xs[i]| <= n
  {
    if xs == [] then 0 else
      var n := Longest(xs[..|xs| - 1]);
      if n < |xs[|xs| - 1]| then |xs[|xs| - 1]| else n
  }

  lemma EvictForgets(st: State, xs: seq<Vector>, v: Vector)
    requires Framed(st) && |xs| == WIDTH && Consistent(st, xs[Slot(st.lo) := v])
    ensures Consistent(Evict(st), xs)
  {
    hide Holds, Same, Without;
    var s, r := Slot(st.lo), Evict(st);
    EvictFramed(st);
    forall j | 0 <= j < |r.rows|
      ensures Holds(r.rows[j], xs)
    {
      assert r.rows[j] in st.rows;
      var k :| 0 <= k < |st.rows| && st.rows[k] == r.rows[j];
      HoldsElsewhere(st.rows[k], xs, s, v);
    }
    forall i | 0 <= i < WIDTH && r.cells[i].Held?
      ensures Same(r.cells[i].vector, xs[i])
    {
      assert xs[s := v][i] == xs[i];
    }
  }

  /** The row led by the evicted symbol, if there is one, can be met by choosing that symbol. */
  lemma EvictExtends(st: State, xs: seq<Vector>) returns (v: Vector)
    requires Reduced(st) && Consistent(Evict(st), xs)
    ensures Consistent(st, xs[Slot(st.lo) := v])
  {
    hide Holds, Same, Without, Led, Mixed;
    var s, r := Slot(st.lo), Evict(st);
    SlotZero(st.lo);
    v := [];
    if st.cells[s].Held? {
      v := st.cells[s].vector;
      assert Same(v, v) by { SameIsReflexive(v); }
    } else if k :| 0 <= k < |st.rows| && st.rows[k].coef[s] != 0 {
      OnlyItsPivotMentionsOldest(st, k);
      PivotIsOne(st, k);
      var longest := Longest(xs);
      v := SolveFor(st.rows[k], xs, s, if longest < |st.rows[k].data| then |st.rows[k].data| else longest);
    }
    var ys := xs[s := v];
    forall j | 0 <= j < |st.rows|
      ensures Holds(st.rows[j], ys)
    {
      if st.rows[j].coef[s] == 0 {
        assert st.rows[j] in r.rows;
        var m :| 0 <= m < |r.rows| && r.rows[m] == st.rows[j];
        HoldsElsewhere(st.rows[j], xs, s, v);
      } else {
        OnlyItsPivotMentionsOldest(st, j);
      }
    }
    forall i | 0 <= i < WIDTH && st.cells[i].Held?
      ensures Same(st.cells[i].vector, ys[i])
    {
      if i != s {
        assert r.cells[i] == st.cells[i];
      }
    }
  }

  lemma PivotIsOne(st: State, k: nat)
    requires Echelon(st) && k < |st.rows|
    ensures st.rows[k].coef[Slot(st.rows[k].pivot)] == 1
  {
    assert Led(st.lo, st.rows[k]);
  }

  lemma SameIsReflexive(v: Vector)
    ensures Same(v, v)
  {
  }

  /** The assignment with the symbol at slot k replaced is consistent. */
  ghost predicate ConsistentWith(st: State, xs: seq<Vector>, k: nat, v: Vector) {
    k < |xs| && Consistent(st, xs[k := v])
  }

  /**
   Sliding loses no usable information: an assignment of the symbols that stay is
   allowed afterwards exactly when some value of the symbol that leaves was
   allowed together with it.
   */
  lemma EvictConsistent(st: State, xs: seq<Vector>)
    requires Reduced(st) && |xs| == WIDTH
    ensures Consistent(Evict(st), xs) <==> exists v :: ConsistentWith(st, xs, Slot(st.lo), v)
  {
    if Consistent(Evict(st), xs) {
      var v := EvictExtends(st, xs);
      assert ConsistentWith(st, xs, Slot(st.lo), v);
    }
    if v :| ConsistentWith(st, xs, Slot(st.lo), v) {
      EvictForgets(st, xs, v);
    }
  }

  // ---------- nothing determined is left unrecovered ----------

  /** Adds d to a symbol's first byte. */
  function Bump(v: Vector, d: Byte): (r: Vector)
    ensures |r| > 0
  {
    var e := Extend(v, 1);
    e[0 := Add(e[0], d)]
  }

  lemma AtBump(v: Vector, d: Byte, p: nat)
    ensures At(Bump(v, d), p) == if p == 0 then Add(At(v, 0), d) else At(v, p)
  {
    hide Add;
  }

  /** Slot i is the pivot of row j. */
  ghost predicate PivotOf(rows: seq<Row>, j: nat, i: nat) {
    j < |rows| && Slot(rows[j].pivot) == i
  }

  /** How slot i moves when the free slot f moves by one. */
  ghost function Delta(rows: seq<Row>, f: nat, i: nat): Byte
    requires f < WIDTH && forall r :: r in rows ==> |r.coef| == WIDTH
  {
    if i == f then 1
    else if exists j: nat :: PivotOf(rows, j, i) then
      var j: nat :| PivotOf(rows, j, i);
      rows[j].coef[f]
    else 0
  }

  /** A slot no row is led by and that is not known. */
  ghost predicate Free(st: State, f: nat)
    requires Sized(st)
  {
    f < WIDTH && !st.cells[f].Held? && forall j :: 0 <= j < |st.rows| ==> Slot(st.rows[j].pivot) != f
  }

  ghost function Moved(st: State, xs: seq<Vector>, f: nat): (ys: seq<Vector>)
    requires Sized(st) && |xs| == WIDTH && f < WIDTH
    ensures |ys| == WIDTH
  {
    seq(WIDTH, i requires 0 <= i < WIDTH => Bump(xs[i], Delta(st.rows, f, i)))
  }

  lemma DeltaOfPivot(st: State, f: nat, j: nat)
    requires Echelon(st) && Free(st, f) && j < |st.rows|
    ensures Delta(st.rows, f, Slot(st.rows[j].pivot)) == st.rows[j].coef[f]
  {
    var i := Slot(st.rows[j].pivot);
    assert PivotOf(st.rows, j, i);
    forall k: nat | PivotOf(st.rows, k, i)
      ensures k == j
    {
      PivotIsOne(st, k);
      PivotIsOne(st, j);
    }
  }

  /** A slot that a row mentions besides its pivot is no row's pivot. */
  lemma NoOnesPivot(st: State, j: nat, i: nat)
    requires Echelon(st) && j < |st.rows| && i < WIDTH && i != Slot(st.rows[j].pivot) && st.rows[j].coef[i] != 0
    ensures forall k: nat :: !PivotOf(st.rows, k, i)
  {
    forall k: nat
      ensures !PivotOf(st.rows, k, i)
    {
      if k < |st.rows| && k != j {
        assert st.rows[j].coef[Slot(st.rows[k].pivot)] == 0;
      }
    }
  }

  /** A moved assignment still satisfies every held row. */
  lemma MovedRowHolds(st: State, xs: seq<Vector>, f: nat, j: nat)
    requires Echelon(st) && Free(st, f) && j < |st.rows| && |xs| == WIDTH && Holds(st.rows[j], xs)
    ensures Holds(st.rows[j], Moved(st, xs, f))
  {
    hide Sum, Add, Mul, Delta, Bump, Led;
    var ys, row := Moved(st, xs, f), st.rows[j];
    var p := Slot(row.pivot);
    DeltaOfPivot(st, f, j);
    PivotIsOne(st, j);
    var near := xs[f := ys[f]][p := ys[p]];
    forall q: nat
      ensures Sum(row.coef, ys, q, WIDTH) == At(row.data, q)
    {
      forall i | 0 <= i < WIDTH && row.coef[i] != 0
        ensures At(ys[i], q) == At(near[i], q)
      {
        UntouchedByRow(st, xs, f, j, i, q);
      }
      SumAgrees(row.coef, ys, near, q, WIDTH);
      SumReplace(row.coef, xs, q, f, ys[f]);
      SumReplace(row.coef, xs[f := ys[f]], q, p, ys[p]);
      TwoMovesCancel(xs[f], xs[p], row.coef[f], Sum(row.coef, xs, q, WIDTH), q);
      assert Delta(st.rows, f, f) == 1 by { DeltaOfFree(st, f); }
    }
  }

  lemma DeltaOfFree(st: State, f: nat)
    requires Sized(st) && f < WIDTH
    ensures Delta(st.rows, f, f) == 1
  {
  }

  /** A slot the row mentions, other than the free one and its pivot, does not move. */
  lemma UntouchedByRow(st: State, xs: seq<Vector>, f: nat, j: nat, i: nat, q: nat)
    requires Echelon(st) && Free(st, f) && j < |st.rows| && |xs| == WIDTH && i < WIDTH && st.rows[j].coef[i] != 0
    ensures i != f && i != Slot(st.rows[j].pivot) ==> At(Moved(st, xs, f)[i], q) == At(xs[i], q)
  {
    hide Add;
    if i != f && i != Slot(st.rows[j].pivot) {
      NoOnesPivot(st, j, i);
      AtBump(xs[i], 0, q);
      AddLaws(At(xs[i], 0), 0, 0);
    }
  }

  /** The free slot's move and its pivot's answer to it cancel in the row. */
  lemma TwoMovesCancel(x: Vector, y: Vector, c: Byte, s: Byte, q: nat)
    ensures Add(Add(s, Mul(c, Add(At(x, q), At(Bump(x, 1), q)))), Mul(1, Add(At(y, q), At(Bump(y, c), q)))) == s
  {
    hide Add, Mul, Bump;
    AtBump(x, 1, q);
    AtBump(y, c, q);
    if q == 0 {
      AddCancels(At(x, 0), 1);
      AddCancels(At(y, 0), c);
      MulLaws(c, 0, 0);
      AddCancels(s, c);
    } else {
      AddCancels(At(x, q), At(x, q));
      AddCancels(At(y, q), At(y, q));
      MulLaws(c, 0, 0);
      MulLaws(1, 0, 0);
      AddLaws(s, 0, 0);
    }
  }

  lemma MovedConsistent(st: State, xs: seq<Vector>, f: nat)
    requires Echelon(st) && Free(st, f) && Consistent(st, xs)
    ensures Consistent(st, Moved(st, xs, f))
  {
    hide Holds, Led, Delta, Bump, Add;
    var ys := Moved(st, xs, f);
    forall j | 0 <= j < |st.rows|
      ensures Holds(st.rows[j], ys)
    {
      MovedRowHolds(st, xs, f, j);
    }
    forall i | 0 <= i < WIDTH && st.cells[i].Held?
      ensures Same(st.cells[i].vector, ys[i])
    {
      HeldDoesNotMove(st, f, i);
      forall q: nat
        ensures At(ys[i], q) == At(xs[i], q)
      {
        AtBump(xs[i], 0, q);
        AddLaws(At(xs[i], 0), 0, 0);
      }
    }
  }

  lemma HeldDoesNotMove(st: State, f: nat, i: nat)
    requires Echelon(st) && Free(st, f) && i < WIDTH && st.cells[i].Held?
    ensures Delta(st.rows, f, i) == 0
  {
    forall k: nat
      ensures !PivotOf(st.rows, k, i)
    {
      if k < |st.rows| {
        PivotIsOne(st, k);
      }
    }
  }

  /**
   Every unknown symbol of the window has a second value that the held equations
   allow just as well: nothing they determine is left unrecovered.
   */
  lemma Undetermined(st: State, xs: seq<Vector>, u: nat) returns (ys: seq<Vector>)
    requires Reduced(st) && Consistent(st, xs) && u < WIDTH && !st.cells[u].Held?
    ensures Consistent(st, ys) && !Same(ys[u], xs[u])
  {
    hide Consistent, Led, Delta, Bump, Add;
    ConsistentSize(st, xs);
    var f, d: Byte := u, 1;
    if j: nat :| PivotOf(st.rows, j, u) {
      f := FreePartner(st, j);
      DeltaOfPivot(st, f, j);
      d := st.rows[j].coef[f];
    } else {
      assert forall j :: 0 <= j < |st.rows| ==> PivotOf(st.rows, j, Slot(st.rows[j].pivot));
      DeltaOfFree(st, f);
    }
    ys := Moved(st, xs, f);
    MovedConsistent(st, xs, f);
    assert ys[u] == Bump(xs[u], d);
    AtBump(xs[u], d, 0);
    AddCancels(At(xs[u], 0), d);
    AddCancels(At(xs[u], 0), Add(At(xs[u], 0), d));
  }

  /** A row with an unknown besides its pivot mentions a free slot. */
  lemma FreePartner(st: State, j: nat) returns (f: nat)
    requires Reduced(st) && j < |st.rows|
    ensures Free(st, f) && st.rows[j].coef[f] != 0
  {
    assert Mixed(st.rows[j]);
    f :| 0 <= f < WIDTH && f != Slot(st.rows[j].pivot) && st.rows[j].coef[f] != 0;
    NoOnesPivot(st, j, f);
    assert forall k: nat :: k < |st.rows| ==> PivotOf(st.rows, k, Slot(st.rows[k].pivot));
  }
}
