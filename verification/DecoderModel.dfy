/**
 The receiver's linear system as a value, one function per operation of the
 decoder. The WindowDecoder class performs the same steps in place and is proved
 to agree with these functions.
 */
module DecoderModel {
  import opened GaloisField
  import opened LinearSystem
  import opened SymbolIds

  /** A ring slot: a symbol whose value is known, or nothing. */
  datatype Cell = Vacant | Held(esi: Id, vector: Vector)

  /** A source symbol with its identifier. */
  datatype Symbol = Symbol(esi: Id, vector: Vector)

  datatype State = State(
    cells: seq<Cell>, rows: seq<Row>, lo: Id, high: Id, origin: Id, started: bool)

  /** What one arrival produced. */
  datatype Outcome = Outcome(state: State, recovered: seq<Symbol>, lost: seq<Id>)

  predicate Sized(st: State) {
    |st.cells| == WIDTH && forall r :: r in st.rows ==> |r.coef| == WIDTH
  }

  function Initial(): (st: State)
    ensures Sized(st)
  {
    State(seq(WIDTH, _ => Vacant), [], 0, 0, 0, false)
  }

  // ---------- the leading symbol of an equation ----------

  /** How many symbols the equation mentions, from offset k of the window on. */
  function CountFrom(lo: Id, coef: seq<Byte>, k: nat): nat
    requires |coef| == WIDTH && k <= WIDTH
    decreases WIDTH - k
  {
    if k == WIDTH then 0 else (if coef[Slot(lo + k)] == 0 then 0 else 1) + CountFrom(lo, coef, k + 1)
  }

  /** The offset of the oldest symbol it mentions, or WIDTH. */
  function OffsetFrom(lo: Id, coef: seq<Byte>, k: nat): (o: nat)
    requires |coef| == WIDTH && k <= WIDTH
    ensures k <= o <= WIDTH
    decreases WIDTH - k
  {
    if k == WIDTH || coef[Slot(lo + k)] != 0 then k else OffsetFrom(lo, coef, k + 1)
  }

  function Count(lo: Id, coef: seq<Byte>): nat
    requires |coef| == WIDTH
  {
    CountFrom(lo, coef, 0)
  }

  function Leading(lo: Id, coef: seq<Byte>): Id
    requires |coef| == WIDTH
  {
    Wrap(lo + OffsetFrom(lo, coef, 0))
  }

  // ---------- knowing a symbol ----------

  function ResolveAll(rows: seq<Row>, index: nat, v: Vector): (r: seq<Row>)
    requires index < WIDTH && forall r :: r in rows ==> |r.coef| == WIDTH
    ensures |r| == |rows| && forall j :: 0 <= j < |r| ==> r[j] == Resolve(rows[j], index, v)
    ensures forall x :: x in r ==> |x.coef| == WIDTH
  {
    seq(|rows|, j requires 0 <= j < |rows| => Resolve(rows[j], index, v))
  }

  predicate Known(st: State, esi: Id)
    requires Sized(st)
  {
    var cell := st.cells[Slot(esi)];
    cell.Held? && cell.esi == esi
  }

  /** Records a symbol as known and removes it from every equation. */
  function Substitute(st: State, esi: Id, v: Vector): (r: State)
    requires Sized(st)
    ensures Sized(r) && |r.rows| == |st.rows|
  {
    if Known(st, esi) then st else
      st.(cells := st.cells[Slot(esi) := Held(esi, v)], rows := ResolveAll(st.rows, Slot(esi), v))
  }

  function WithoutRow(st: State, i: nat): (r: State)
    requires Sized(st) && i < |st.rows|
    ensures Sized(r) && |r.rows| == |st.rows| - 1
  {
    st.(rows := st.rows[..i] + st.rows[i + 1..])
  }

  datatype Harvested = Harvested(state: State, recovered: seq<Symbol>, progress: bool)

  /** One scan of the equations from index i on, taking each that has come down to one unknown. */
  function HarvestPass(st: State, i: nat, out: seq<Symbol>, progress: bool): (h: Harvested)
    requires Sized(st) && i <= |st.rows|
    ensures Sized(h.state) && |h.state.rows| <= |st.rows|
    ensures h.progress && !progress ==> |h.state.rows| < |st.rows|
    decreases |st.rows| - i
  {
    if i == |st.rows| then Harvested(st, out, progress) else
      var row := st.rows[i];
      var count := Count(st.lo, row.coef);
      if count == 0 then HarvestPass(WithoutRow(st, i), i, out, progress)
      else if count > 1 then HarvestPass(st, i + 1, out, progress)
      else
        var esi, rest := Leading(st.lo, row.coef), WithoutRow(st, i);
        HarvestPass(Substitute(rest, esi, row.data), i,
                    if Known(rest, esi) then out else out + [Symbol(esi, row.data)], true)
  }

  /** Scans until nothing more falls out. */
  function Harvest(st: State, out: seq<Symbol>): (h: (State, seq<Symbol>))
    requires Sized(st)
    ensures Sized(h.0)
    decreases |st.rows|
  {
    var pass := HarvestPass(st, 0, out, false);
    if pass.progress then Harvest(pass.state, pass.recovered) else (pass.state, pass.recovered)
  }

  // ---------- adding an equation ----------

  /** Moves every known symbol to the constant side, from offset k of the window on. */
  function ReduceKnown(st: State, row: Row, k: nat): (r: Row)
    requires Sized(st) && |row.coef| == WIDTH && k <= WIDTH
    ensures |r.coef| == WIDTH
    decreases WIDTH - k
  {
    if k == WIDTH then row else
      var i := Slot(st.lo + k);
      ReduceKnown(st, if st.cells[i].Held? then Resolve(row, i, st.cells[i].vector) else row, k + 1)
  }

  /** Clears one row's pivot from another equation. */
  function ClearWith(r: Row, other: Row): (e: Row)
    requires |r.coef| == |other.coef| == WIDTH
    ensures |e.coef| == WIDTH && e.pivot == r.pivot
  {
    var c := r.coef[Slot(other.pivot)];
    if c == 0 then r else Eliminate(r, c, other)
  }

  function ReduceByRows(rows: seq<Row>, row: Row, j: nat): (r: Row)
    requires |row.coef| == WIDTH && j <= |rows| && forall x :: x in rows ==> |x.coef| == WIDTH
    ensures |r.coef| == WIDTH
    decreases |rows| - j
  {
    if j == |rows| then row else ReduceByRows(rows, ClearWith(row, rows[j]), j + 1)
  }

  function ClearAll(rows: seq<Row>, other: Row): (r: seq<Row>)
    requires |other.coef| == WIDTH && forall x :: x in rows ==> |x.coef| == WIDTH
    ensures |r| == |rows| && forall j :: 0 <= j < |r| ==> r[j] == ClearWith(rows[j], other)
    ensures forall x :: x in r ==> |x.coef| == WIDTH
  {
    seq(|rows|, j requires 0 <= j < |rows| => ClearWith(rows[j], other))
  }

  /** Scales an equation so that its leading coefficient is one. */
  function Normalise(lo: Id, row: Row): (r: Row)
    requires |row.coef| == WIDTH
    ensures |r.coef| == WIDTH
  {
    var pivot := Leading(lo, row.coef);
    var f := Inverse(row.coef[Slot(pivot)]);
    if f == 1 then Row(pivot, row.coef, row.data) else Row(pivot, Scale(f, row.coef), Scale(f, row.data))
  }

  function Reduce(st: State, row: Row): (r: Row)
    requires Sized(st) && |row.coef| == WIDTH
    ensures |r.coef| == WIDTH
  {
    ReduceByRows(st.rows, ReduceKnown(st, row, 0), 0)
  }

  function Insert(st: State, row: Row): (h: (State, seq<Symbol>))
    requires Sized(st) && |row.coef| == WIDTH
    ensures Sized(h.0)
  {
    var reduced := Reduce(st, row);
    if Count(st.lo, reduced.coef) == 0 then (st, []) else
      var unit := Normalise(st.lo, reduced);
      Harvest(st.(rows := ClearAll(st.rows, unit) + [unit]), [])
  }

  // ---------- sliding the window ----------

  function Without(rows: seq<Row>, index: nat): (r: seq<Row>)
    requires index < WIDTH && forall x :: x in rows ==> |x.coef| == WIDTH
    ensures forall x :: x in r <==> x in rows && x.coef[index] == 0
    ensures |r| <= |rows|
  {
    if rows == [] then [] else
      var rest := Without(rows[..|rows| - 1], index);
      var last := rows[|rows| - 1];
      if last.coef[index] == 0 then rest + [last] else rest
  }

  /** A symbol leaving the window unknown is lost, unless it is older than anything known to exist. */
  predicate LostOnLeaving(st: State, esi: Id)
    requires Sized(st)
  {
    !Known(st, esi) && !Behind(esi, st.origin)
  }

  /** Drops the oldest identifier and every equation that mentions it. */
  function Evict(st: State): (r: State)
    requires Sized(st)
    ensures Sized(r) && r.lo == Wrap(st.lo + 1)
  {
    var i := Slot(st.lo);
    st.(cells := if Known(st, st.lo) then st.cells[i := Vacant] else st.cells,
        rows := Without(st.rows, i), lo := Wrap(st.lo + 1))
  }

  function EvictMany(st: State, n: nat): (r: State)
    requires Sized(st)
    ensures Sized(r)
    decreases n
  {
    if n == 0 then st else EvictMany(Evict(st), n - 1)
  }

  /** What evicting the n oldest identifiers reports. */
  function LostOf(st: State, n: nat): seq<Id>
    requires Sized(st)
    decreases n
  {
    if n == 0 then [] else
      (if LostOnLeaving(st, st.lo) then [st.lo] else []) + LostOf(Evict(st), n - 1)
  }

  datatype Admission = Admission(state: State, lost: seq<Id>, ok: bool)

  /** How many identifiers are walked out of the window to bring esi in. */
  function Walked(st: State, esi: Id): nat {
    var gap := Wrap(esi + 1 - st.lo);
    if gap <= WIDTH then 0 else if gap - WIDTH < WIDTH then gap - WIDTH else WIDTH
  }

  /** Brings esi into the window, unless it is already behind it. */
  function Admit(st: State, esi: Id): (a: Admission)
    requires Sized(st)
    ensures Sized(a.state)
  {
    if !st.started then
      Admission(st.(started := true, origin := esi, high := Wrap(esi + 1), lo := Wrap(esi + 1 - WIDTH)), [], true)
    else if Behind(esi, st.lo) then Admission(st, [], false)
    else if Behind(esi, st.high) then Admission(st, [], true)
    else
      var n := Walked(st, esi);
      var slid := EvictMany(st, n);
      Admission(slid.(high := Wrap(esi + 1),
                      lo := if Wrap(esi + 1 - slid.lo) > WIDTH then Wrap(esi + 1 - WIDTH) else slid.lo),
                LostOf(st, n), true)
  }

  /** Records that an identifier is known to exist. */
  function Witness(st: State, esi: Id): State {
    if st.started && Behind(esi, st.origin) && !Behind(esi, st.lo) then st.(origin := esi) else st
  }

  // ---------- arrivals ----------

  /** A source symbol arrives intact. */
  function Source(st: State, esi: Id, v: Vector): (o: Outcome)
    requires Sized(st)
    ensures Sized(o.state)
  {
    var a := Admit(st, esi);
    if !a.ok then Outcome(a.state, [], a.lost) else
      var w := Witness(a.state, esi);
      if Known(w, esi) then Outcome(w, [], a.lost) else
        var h := Harvest(Substitute(w, esi, v), []);
        Outcome(h.0, h.1, a.lost)
  }

  /** A repair symbol: a combination of count symbols from first on, its coefficients lowest first. */
  datatype Repair = Repair(first: Id, coefs: seq<Byte>, vector: Vector)

  /** The coefficient that a repair starting at first applies to slot i. */
  function CoefAt(first: int, coefs: seq<Byte>, i: nat): Byte {
    var k := Slot(i - first);
    if k < |coefs| then coefs[k] else 0
  }

  /** The repair's coefficients laid out by slot. */
  function Spread(first: int, coefs: seq<Byte>): (c: seq<Byte>)
    ensures |c| == WIDTH
    ensures forall i :: 0 <= i < WIDTH ==> c[i] == CoefAt(first, coefs, i)
  {
    seq(WIDTH, i requires 0 <= i < WIDTH => CoefAt(first, coefs, i))
  }

  /** A repair symbol arrives. */
  function TakeRepair(st: State, r: Repair): (o: Outcome)
    requires Sized(st)
    ensures Sized(o.state)
  {
    var count := |r.coefs|;
    if count == 0 || |r.vector| == 0 || count > MAX_REPAIR_WINDOW then Outcome(st, [], []) else
      var a := Admit(st, Wrap(r.first + count - 1));
      if !a.ok then Outcome(a.state, [], a.lost) else
        var w := Witness(a.state, r.first);
        if Behind(r.first, w.lo) then Outcome(w, [], a.lost) else
          var h := Insert(w, Row(0, Spread(r.first, r.coefs), r.vector));
          Outcome(h.0, h.1, a.lost)
  }
}
