/**
 Reordering. A source symbol that arrives after an equation it leads leaves that
 equation without a unit pivot, and from then on the decoder may read a constant
 term as if its last unknown's coefficient were one: at once, or many arrivals
 later. What survives any order of arrivals is that the equations are true and
 mention nothing known; here is exactly when that is enough.
 */
module LateSource {
  import opened GaloisField
  import opened LinearSystem
  import opened SymbolIds
  import opened DecoderModel
  import opened DecoderInvariant
  import opened DecoderSemantics
  import opened DecoderRuns
  import opened Coefficients
  import F = SymbolFates
  import W = WindowEncoder

  // ---------- what harvesting takes ----------

  /** An equation is down to one unknown: its slot and its coefficient. */
  datatype Take = Take(slot: nat, coef: Byte)

  /** One scan, on coefficients alone: the equations left, what was taken, and whether anything was. */
  datatype Scan = Scan(left: seq<seq<Byte>>, takes: seq<Take>, progress: bool)

  predicate Wide(m: seq<seq<Byte>>) {
    forall j :: 0 <= j < |m| ==> |m[j]| == WIDTH
  }

  function Coefs(rows: seq<Row>): (m: seq<seq<Byte>>)
    ensures |m| == |rows| && forall j :: 0 <= j < |m| ==> m[j] == rows[j].coef
  {
    seq(|rows|, j requires 0 <= j < |rows| => rows[j].coef)
  }

  function Drop(m: seq<seq<Byte>>, i: nat): (r: seq<seq<Byte>>)
    requires i < |m| && Wide(m)
    ensures |r| == |m| - 1 && Wide(r)
  {
    m[..i] + m[i + 1..]
  }

  /** The equations once the symbol in the slot is known. */
  function Cleared(m: seq<seq<Byte>>, slot: nat): (r: seq<seq<Byte>>)
    requires Wide(m) && slot < WIDTH
    ensures |r| == |m| && Wide(r) && forall j :: 0 <= j < |r| ==> r[j] == m[j][slot := 0]
  {
    seq(|m|, j requires 0 <= j < |m| => m[j][slot := 0])
  }

  /** Which unknowns one scan from equation i on takes; the constant terms play no part. */
  function ScanFrom(lo: Id, m: seq<seq<Byte>>, i: nat, progress: bool): (s: Scan)
    requires Wide(m) && i <= |m|
    ensures Wide(s.left) && |s.left| <= |m| && (s.progress && !progress ==> |s.left| < |m|)
    decreases |m| - i
  {
    if i == |m| then Scan(m, [], progress) else
      var count := Count(lo, m[i]);
      if count == 0 then ScanFrom(lo, Drop(m, i), i, progress)
      else if count > 1 then ScanFrom(lo, m, i + 1, progress)
      else
        var slot := Slot(Leading(lo, m[i]));
        var rest := ScanFrom(lo, Cleared(Drop(m, i), slot), i, true);
        rest.(takes := [Take(slot, m[i][slot])] + rest.takes)
  }

  /** Everything harvesting takes, in order. */
  function Takes(lo: Id, m: seq<seq<Byte>>): seq<Take>
    requires Wide(m)
    decreases |m|
  {
    var scan := ScanFrom(lo, m, 0, false);
    if scan.progress then scan.takes + Takes(lo, scan.left) else scan.takes
  }

  /** Read as if its coefficient were one, the unknown comes out right. */
  ghost predicate Harmless(t: Take, xs: seq<Vector>)
    requires |xs| == WIDTH
  {
    t.slot < WIDTH && (t.coef == 1 || Same(xs[t.slot], []))
  }

  /** Every equation that comes down to one unknown has coefficient one there, or an all-zero symbol. */
  ghost predicate Clean(takes: seq<Take>, xs: seq<Vector>)
    requires |xs| == WIDTH
  {
    forall k :: 0 <= k < |takes| ==> Harmless(takes[k], xs)
  }

  // ---------- what survives any order ----------

  /** The equations are true of xs, long enough, and mention nothing known. */
  ghost predicate True(st: State, xs: seq<Vector>) {
    Framed(st) && Consistent(st, xs) && Long(st, xs)
  }

  lemma TrueFacts(st: State, xs: seq<Vector>)
    requires True(st, xs)
    ensures Sized(st) && |xs| == WIDTH && Wide(Coefs(st.rows))
  {
  }

  /** An equation c times x equals d reads d as x exactly when c is one or x is all zeros. */
  lemma ReadsRight(r: Row, m: nat, xs: seq<Vector>)
    requires |r.coef| == |xs| == WIDTH && m < WIDTH && Holds(r, xs) && r.coef[m] != 0
    requires forall i :: 0 <= i < WIDTH && i != m ==> r.coef[i] == 0
    ensures Same(r.data, xs[m]) <==> r.coef[m] == 1 || Same(xs[m], [])
  {
    hide Sum, Mul, Add;
    var c, x := r.coef[m], xs[m];
    forall q: nat
      ensures At(r.data, q) == Mul(c, At(x, q))
      ensures At(r.data, q) == At(x, q) <==> c == 1 || At(x, q) == 0
    {
      SumOfOne(r.coef, xs, q, m);
      FixedPoint(c, At(x, q));
    }
    if Same(r.data, x) && c != 1 {
      forall q: nat
        ensures At(x, q) == At([], q)
      {
        assert At(r.data, q) == At(x, q);
      }
    }
    if Same(x, []) {
      forall q: nat
        ensures At(r.data, q) == At(x, q)
      {
        assert At(x, q) == At([], q);
      }
    }
  }

  lemma FixedPoint(c: Byte, x: Byte)
    ensures Mul(c, x) == x <==> c == 1 || x == 0
  {
    hide Mul, Add;
    MulLaws(x, 0, 0);
    MulLaws(c, 0, 0);
    MulLaws(c, 1, x);
    AddCancels(Mul(c, x), x);
    MulNonZero(Add(c, 1), x);
    AddCancels(c, 1);
  }

  lemma WithoutRowTrue(st: State, i: nat, xs: seq<Vector>)
    requires True(st, xs) && i < |st.rows|
    ensures True(WithoutRow(st, i), xs) && Coefs(WithoutRow(st, i).rows) == Drop(Coefs(st.rows), i)
  {
    hide Holds, LongEnough, Same;
    var rest := WithoutRow(st, i);
    forall k | 0 <= k < |rest.rows|
      ensures rest.rows[k] == st.rows[if k < i then k else k + 1]
    {
    }
  }

  lemma SubstituteCoefs(st: State, esi: Id, v: Vector)
    requires Sized(st) && !Known(st, esi)
    ensures Coefs(Substitute(st, esi, v).rows) == Cleared(Coefs(st.rows), Slot(esi))
  {
    hide Slot, AddScaled;
    var r, c := Substitute(st, esi, v), Cleared(Coefs(st.rows), Slot(esi));
    forall j | 0 <= j < |r.rows|
      ensures r.rows[j].coef == c[j]
    {
    }
  }

  /** Learning a symbol rightly keeps the equations true. */
  lemma SubstituteTrue(st: State, esi: Id, v: Vector, xs: seq<Vector>)
    requires True(st, xs) && InWindow(st.lo, esi) && !Known(st, esi) && Padded(v, xs[Slot(esi)])
    ensures True(Substitute(st, esi, v), xs)
  {
    hide Consistent, Long, Substitute, Known, InWindow, IdOf;
    TrueFacts(st, xs);
    InWindowSlot(st.lo, esi);
    SubstituteFramed(st, esi, v);
    PaddedIsSame(v, xs[Slot(esi)]);
    SubstituteConsistent(st, esi, v, xs);
  }

  lemma PaddedIsSame(u: Vector, v: Vector)
    requires Padded(u, v)
    ensures Same(u, v) && |v| <= |u|
  {
    forall p: nat
      ensures At(u, p) == At(v, p)
    {
      assert p < |v| ==> u[..|v|][p] == v[p];
    }
  }

  /** The unknown an equation comes down to is reported right exactly when the take is harmless. */
  lemma TakeExact(st: State, i: nat, xs: seq<Vector>)
    requires True(st, xs) && i < |st.rows| && Count(st.lo, st.rows[i].coef) == 1
    ensures var row, rest := st.rows[i], WithoutRow(st, i);
            var esi := Leading(st.lo, row.coef);
            && InWindow(st.lo, esi) && !Known(rest, esi)
            && (Padded(row.data, xs[Slot(esi)]) <==> Harmless(Take(Slot(esi), row.coef[Slot(esi)]), xs))
  {
    hide Count, Leading, Holds, Same, IdOf, LongEnough;
    var row := st.rows[i];
    LeadingFacts(st.lo, row.coef);
    var esi := Leading(st.lo, row.coef);
    var m := Slot(esi);
    LeadingInWindow(st.lo, row.coef);
    InWindowSlot(st.lo, esi);
    assert !st.cells[m].Held?;
    ReadsRight(row, m, xs);
    LongAt(row, xs, m);
    SameAndLongIsPadded(row.data, xs[m]);
  }

  lemma LongAt(r: Row, xs: seq<Vector>, m: nat)
    requires LongEnough(r, xs) && m < |xs| && r.coef[m] != 0
    ensures |xs[m]| <= |r.data|
  {
  }

  // ---------- harvesting, exactly ----------

  lemma {:induction false} HarvestPassKeeps(st: State, i: nat, out: seq<Symbol>, progress: bool)
    requires Sized(st) && i <= |st.rows|
    ensures out <= HarvestPass(st, i, out, progress).recovered
    decreases |st.rows| - i
  {
    hide Count, Leading, Substitute;
    if i < |st.rows| {
      var row := st.rows[i];
      var esi, rest := Leading(st.lo, row.coef), WithoutRow(st, i);
      if Count(st.lo, row.coef) == 0 {
        HarvestPassKeeps(rest, i, out, progress);
      } else if Count(st.lo, row.coef) > 1 {
        HarvestPassKeeps(st, i + 1, out, progress);
      } else {
        HarvestPassKeeps(Substitute(rest, esi, row.data), i,
                         if Known(rest, esi) then out else out + [Symbol(esi, row.data)], true);
      }
    }
  }

  lemma {:induction false} HarvestKeeps(st: State, out: seq<Symbol>)
    requires Sized(st)
    ensures out <= Harvest(st, out).1
    decreases |st.rows|
  {
    hide HarvestPass;
    HarvestPassKeeps(st, 0, out, false);
    var pass := HarvestPass(st, 0, out, false);
    if pass.progress {
      HarvestKeeps(pass.state, pass.recovered);
    }
  }

  lemma WrongStays(out: seq<Symbol>, more: seq<Symbol>, xs: seq<Vector>)
    requires |xs| == WIDTH && out <= more && !Right(out, xs)
    ensures !Right(more, xs)
  {
    var k :| 0 <= k < |out| && !Padded(out[k].vector, xs[Slot(out[k].esi)]);
    assert more[k] == out[k];
  }

  lemma RightSnoc(out: seq<Symbol>, s: Symbol, xs: seq<Vector>)
    requires |xs| == WIDTH && Right(out, xs)
    ensures Right(out + [s], xs) <==> Padded(s.vector, xs[Slot(s.esi)])
  {
    hide Padded;
    assert (out + [s])[|out|] == s;
  }

  lemma CleanCons(t: Take, rest: seq<Take>, xs: seq<Vector>)
    requires |xs| == WIDTH
    ensures Clean([t] + rest, xs) <==> Harmless(t, xs) && Clean(rest, xs)
  {
    hide Harmless;
    var all := [t] + rest;
    assert all[0] == t && forall k :: 0 <= k < |rest| ==> all[k + 1] == rest[k];
  }

  /** One scan reports right symbols exactly when what it takes is clean; then the equations left are true. */
  lemma {:induction false} ScanExact(st: State, i: nat, out: seq<Symbol>, progress: bool, xs: seq<Vector>)
    requires True(st, xs) && i <= |st.rows| && Right(out, xs)
    ensures Sized(st) && |xs| == WIDTH && Wide(Coefs(st.rows))
    ensures var h, s := HarvestPass(st, i, out, progress), ScanFrom(st.lo, Coefs(st.rows), i, progress);
            && (Right(h.recovered, xs) <==> Clean(s.takes, xs))
            && (Clean(s.takes, xs) ==> True(h.state, xs) && Coefs(h.state.rows) == s.left && h.progress == s.progress)
            && h.state.lo == st.lo
    decreases |st.rows| - i
  {
    hide True, Right, Clean, Harmless, Count, Leading, Substitute, Known, Padded, InWindow, Coefs, Drop, Cleared;
    TrueFacts(st, xs);
    CoefsAt(st.rows);
    if i == |st.rows| {
      NothingTaken(xs);
    } else {
      var row, rest := st.rows[i], WithoutRow(st, i);
      WithoutRowTrue(st, i, xs);
      TrueFacts(rest, xs);
      if Count(st.lo, row.coef) == 0 {
        ScanExact(rest, i, out, progress, xs);
      } else if Count(st.lo, row.coef) > 1 {
        ScanExact(st, i + 1, out, progress, xs);
      } else {
        TakeOnce(st, i, out, progress, xs);
      }
    }
  }

  lemma CoefsAt(rows: seq<Row>)
    ensures |Coefs(rows)| == |rows| && forall j :: 0 <= j < |rows| ==> Coefs(rows)[j] == rows[j].coef
  {
  }

  lemma NothingTaken(xs: seq<Vector>)
    requires |xs| == WIDTH
    ensures Clean([], xs)
  {
  }

  /** The step of the scan that takes an unknown. */
  lemma {:induction false} TakeOnce(st: State, i: nat, out: seq<Symbol>, progress: bool, xs: seq<Vector>)
    requires True(st, xs) && i < |st.rows| && Right(out, xs) && Sized(st) && Count(st.lo, st.rows[i].coef) == 1
    ensures Wide(Coefs(st.rows))
    ensures var h, s := HarvestPass(st, i, out, progress), ScanFrom(st.lo, Coefs(st.rows), i, progress);
            && (Right(h.recovered, xs) <==> Clean(s.takes, xs))
            && (Clean(s.takes, xs) ==> True(h.state, xs) && Coefs(h.state.rows) == s.left && h.progress == s.progress)
            && h.state.lo == st.lo
    decreases |st.rows| - i, 0
  {
    hide True, Right, Clean, Harmless, Count, Leading, Substitute, Known, Padded, InWindow, Coefs, Drop, Cleared;
    TrueFacts(st, xs);
    CoefsAt(st.rows);
    var row, rest := st.rows[i], WithoutRow(st, i);
    WithoutRowTrue(st, i, xs);
    TrueFacts(rest, xs);
    TakeExact(st, i, xs);
    var esi := Leading(st.lo, row.coef);
    var slot, next, more := Slot(esi), Substitute(rest, esi, row.data), out + [Symbol(esi, row.data)];
    SubstituteCoefs(rest, esi, row.data);
    SubstituteFrame(rest, esi, row.data);
    RightSnoc(out, Symbol(esi, row.data), xs);
    var m := Coefs(st.rows);
    var tail := ScanFrom(st.lo, Coefs(next.rows), i, true);
    CleanCons(Take(slot, row.coef[slot]), tail.takes, xs);
    assert ScanFrom(st.lo, m, i, progress) == tail.(takes := [Take(slot, m[i][slot])] + tail.takes);
    assert HarvestPass(st, i, out, progress) == HarvestPass(next, i, more, true);
    HarvestFrame(next, i, more, true);
    if Padded(row.data, xs[slot]) {
      SubstituteTrue(rest, esi, row.data, xs);
      ScanExact(next, i, more, true, xs);
    } else {
      HarvestPassKeeps(next, i, more, true);
      WrongStays(more, HarvestPass(next, i, more, true).recovered, xs);
    }
  }

  lemma CleanJoin(a: seq<Take>, b: seq<Take>, xs: seq<Vector>)
    requires |xs| == WIDTH
    ensures Clean(a + b, xs) <==> Clean(a, xs) && Clean(b, xs)
  {
    hide Harmless;
    var all := a + b;
    assert forall k :: 0 <= k < |a| ==> all[k] == a[k];
    assert forall k :: 0 <= k < |b| ==> all[|a| + k] == b[k];
  }

  /**
   Harvesting any true system reports right symbols exactly when every equation that
   comes down to one unknown has coefficient one there, or an all-zero symbol. Then
   what is left is true.
   */
  lemma {:induction false} HarvestExact(st: State, out: seq<Symbol>, xs: seq<Vector>)
    requires True(st, xs) && Right(out, xs)
    ensures Sized(st) && |xs| == WIDTH && Wide(Coefs(st.rows))
    ensures var h, takes := Harvest(st, out), Takes(st.lo, Coefs(st.rows));
            && (Right(h.1, xs) <==> Clean(takes, xs))
            && (Clean(takes, xs) ==> True(h.0, xs))
    decreases |st.rows|
  {
    hide True, Right, Clean, HarvestPass, ScanFrom, Coefs;
    TrueFacts(st, xs);
    CoefsAt(st.rows);
    ScanExact(st, 0, out, false, xs);
    var pass, scan := HarvestPass(st, 0, out, false), ScanFrom(st.lo, Coefs(st.rows), 0, false);
    if scan.progress {
      CleanJoin(scan.takes, Takes(st.lo, scan.left), xs);
    }
    if Clean(scan.takes, xs) {
      if pass.progress {
        HarvestExact(pass.state, pass.recovered, xs);
      }
    } else {
      if pass.progress {
        HarvestKeeps(pass.state, pass.recovered);
        WrongStays(pass.recovered, Harvest(pass.state, pass.recovered).1, xs);
      }
    }
  }

  // ---------- sliding and learning in any order ----------

  lemma {:induction false} EvictManyTrue(st: State, stream: Stream, base: int, n: nat)
    requires True(st, Window(stream, base)) && st.lo == Wrap(base)
    ensures Sized(st) && True(EvictMany(st, n), Window(stream, base + n))
    decreases n
  {
    hide Framed, Consistent, Long, Evict;
    assert Sized(st) by { F.FramedSized(st); }
    if n > 0 {
      EvictSound(st, stream, base);
      EvictFramed(st);
      WrapPlus(base, 1);
      EvictManyTrue(Evict(st), stream, base + 1, n - 1);
    }
  }

  lemma TrueElsewhere(st: State, other: State, xs: seq<Vector>)
    requires True(st, xs) && other.cells == st.cells && other.rows == st.rows && other.lo == st.lo
    ensures True(other, xs)
  {
    hide Holds, LongEnough, Same, IdOf;
  }

  lemma EmptyTrue(st: State, xs: seq<Vector>)
    requires Empty(st) && |xs| == WIDTH
    ensures True(st, xs)
  {
  }

  /** The decoder stands at base, and all it holds is true of the stream. */
  ghost predicate Standing(st: State, stream: Stream, base: int) {
    Aligned(st) && st.lo == Wrap(base) && True(st, Window(stream, base))
  }

  lemma AdmitStanding(st: State, stream: Stream, base: int, id: int)
    requires Sized(st)
    requires if st.started then Standing(st, stream, base) && -(HALF as int) <= id - base < HALF else Empty(st)
    ensures var a := Admit(st, Wrap(id));
            && (a.ok <==> st.started ==> id >= base)
            && (a.ok ==>
                  && Standing(a.state, stream, NewBase(st, base, id))
                  && NewBase(st, base, id) <= id < NewBase(st, base, id) + WIDTH)
            && (!a.ok ==> a.state == st)
  {
    hide EvictMany, LostOf, True, Behind, Wrap;
    AlignedAt(Wrap(id));
    WrapPlus(id, 1 - WIDTH);
    var a, next := Admit(st, Wrap(id)), NewBase(st, base, id);
    if !st.started {
      EmptyTrue(a.state, Window(stream, next));
    } else {
      AdmitOrder(st, base, id);
      if id >= base + WIDTH {
        SlideStanding(st, stream, base, id);
      }
    }
  }

  lemma SlideStanding(st: State, stream: Stream, base: int, id: int)
    requires Sized(st) && st.started && Standing(st, stream, base) && WIDTH <= id - base < HALF
    ensures var a := Admit(st, Wrap(id)); a.ok && Standing(a.state, stream, id + 1 - WIDTH)
  {
    hide EvictMany, LostOf, True, Behind, Wrap;
    var a, n, walked := Admit(st, Wrap(id)), id + 1 - WIDTH - base, Walked(st, Wrap(id));
    AlignedAt(Wrap(id));
    WrapPlus(id, 1 - WIDTH);
    AdmitOrder(st, base, id);
    AdmitDistance(st, base, id);
    EvictManyLo(st, n);
    EvictManyLo(st, walked);
    SlideEnds(st.lo, Wrap(id), walked);
    WrapPlus(base, n);
    if n > walked {
      assert Framed(st) by { assert True(st, Window(stream, base)); TrueFramed(st, Window(stream, base)); }
      F.PastTheWindow(st, n);
    }
    EvictManyTrue(st, stream, base, n);
    TrueElsewhere(EvictMany(st, n), a.state, Window(stream, id + 1 - WIDTH));
  }

  lemma TrueFramed(st: State, xs: seq<Vector>)
    requires True(st, xs)
    ensures Framed(st)
  {
  }

  /** Adding a true equation leaves a true system, before anything is read off. */
  lemma AppendTrue(st: State, row: Row, xs: seq<Vector>)
    requires True(st, xs) && |row.coef| == WIDTH && Holds(row, xs) && LongEnough(row, xs)
    requires Sized(st) && Count(st.lo, Reduce(st, row).coef) > 0
    ensures True(Appended(st, row), xs)
  {
    hide Holds, LongEnough, Reduce, Normalise, Count, ClearAll, Consistent, Long;
    ReduceHolds(st, row, xs);
    TrueFacts(st, xs);
    NormaliseHolds(st.lo, Reduce(st, row), xs);
    AppendConsistent(st, Normalise(st.lo, Reduce(st, row)), xs);
    AppendFramed(st, row);
  }

  /** The system with the reduced equation appended and its pivot cleared from the others. */
  function Appended(st: State, row: Row): (r: State)
    requires Sized(st) && |row.coef| == WIDTH
    ensures Sized(r)
  {
    var unit := Normalise(st.lo, Reduce(st, row));
    st.(rows := ClearAll(st.rows, unit) + [unit])
  }

  lemma AppendFramed(st: State, row: Row)
    requires Framed(st) && |row.coef| == WIDTH
    ensures Framed(Appended(st, row))
  {
    hide Reduce, Normalise, ReduceKnown, ClearAll, IdOf;
    var full := Appended(st, row);
    ReduceKnownCoef(st, row, 0);
    assert forall i :: 0 <= i < WIDTH ==> Offset(st.lo, i) >= 0;
    F.AppendAvoids(st, row, F.HeldSlots(st));
    forall j, i | 0 <= j < |full.rows| && 0 <= i < WIDTH && full.cells[i].Held?
      ensures full.rows[j].coef[i] == 0
    {
      assert F.Avoids(full.rows[j].coef, F.HeldSlots(st));
      assert i in F.HeldSlots(st);
    }
  }

  // ---------- one arrival ----------

  /** What the arrival makes harvesting take. */
  ghost function StepTakes(stream: Stream, st: State, pk: Packet): seq<Take>
    requires Sized(st)
  {
    match pk
    case SourcePacket(id) =>
      var a := Admit(st, Wrap(id));
      var w := Witness(a.state, Wrap(id));
      if !a.ok || Known(w, Wrap(id)) then [] else TakesOf(Substitute(w, Wrap(id), stream(id)))
    case RepairPacket(first, coefs, vector) =>
      if vector == [] || !(0 < |coefs| <= MAX_REPAIR_WINDOW) then [] else
        var a := Admit(st, Wrap(first + |coefs| - 1));
        var w, row := Witness(a.state, Wrap(first)), Row(0, Spread(Wrap(first), coefs), vector);
        if !a.ok || Behind(Wrap(first), w.lo) || Count(w.lo, Reduce(w, row).coef) == 0 then []
        else TakesOf(Appended(w, row))
  }

  /** What harvesting the system takes. */
  function TakesOf(st: State): seq<Take>
    requires Sized(st)
  {
    Takes(st.lo, Coefs(st.rows))
  }

  ghost predicate Loose(stream: Stream, c: Config) {
    Sized(c.st) && if c.st.started then Standing(c.st, stream, c.base) else Empty(c.st)
  }

  /** The packet is genuine and within 2^31 of the window; nothing is asked of its order. */
  ghost predicate Near(stream: Stream, c: Config, pk: Packet) {
    && Genuine(stream, pk)
    && (c.st.started ==> -(HALF as int) <= Oldest(pk) - c.base && Newest(pk) - c.base < HALF)
  }

  /** The symbols reported are right as reports exactly when they are right in the window. */
  lemma ReportsExact(stream: Stream, base: int, out: seq<Symbol>)
    requires Within(Wrap(base), out)
    ensures AllRight(stream, Reports(base, out)) <==> Right(out, Window(stream, base))
  {
    hide Padded, Wrap;
    var reports := Reports(base, out);
    if Right(out, Window(stream, base)) {
      ReportsRight(stream, base, out);
    }
    if AllRight(stream, reports) {
      forall k | 0 <= k < |out|
        ensures Padded(out[k].vector, Window(stream, base)[Slot(out[k].esi)])
      {
        assert Padded(reports[k].vector, stream(reports[k].id));
      }
    }
  }

  /** What one arrival says and leaves, compared with the harvest it comes down to. */
  lemma HarvestStanding(stream: Stream, base: int, st: State)
    requires Sized(st) && Standing(st, stream, base)
    ensures var h, xs := Harvest(st, []), Window(stream, base);
            && (AllRight(stream, Reports(base, h.1)) <==> Clean(TakesOf(st), xs))
            && (Clean(TakesOf(st), xs) ==> Standing(h.0, stream, base)) && h.0.started
  {
    hide True, Clean, Harvest, Within, AllRight, Takes;
    NothingReported(Wrap(base), Window(stream, base));
    HarvestExact(st, [], Window(stream, base));
    HarvestWithin(st, []);
    F.HarvestKeepsWindow(st, []);
    ReportsExact(stream, base, Harvest(st, []).1);
  }

  lemma NothingReported(lo: Id, xs: seq<Vector>)
    requires |xs| == WIDTH
    ensures Within(lo, []) && Right([], xs) && Clean([], xs)
  {
  }

  lemma NoReports(stream: Stream, base: int)
    ensures AllRight(stream, Reports(base, []))
  {
  }

  lemma WitnessStanding(st: State, esi: Id, stream: Stream, base: int)
    requires Standing(st, stream, base)
    ensures Standing(Witness(st, esi), stream, base)
  {
    hide True;
    TrueElsewhere(st, Witness(st, esi), Window(stream, base));
  }

  lemma StandingSized(st: State, stream: Stream, base: int)
    requires Standing(st, stream, base)
    ensures Sized(st)
  {
  }

  lemma SourceExact(stream: Stream, c: Config, id: int)
    requires Loose(stream, c) && Near(stream, c, SourcePacket(id))
    ensures var pk := SourcePacket(id);
            var o, base := Deliver(stream, c.st, pk), BaseAfter(c, pk);
            var takes := StepTakes(stream, c.st, pk);
            && (AllRight(stream, Reports(base, o.recovered)) <==> Clean(takes, Window(stream, base)))
            && (Clean(takes, Window(stream, base)) ==> Loose(stream, Step(stream, c, pk)))
  {
    hide True, Clean, Harvest, Admit, Witness, Known, Substitute, AllRight, Takes, InWindow, Wrap;
    var pk, esi, base := SourcePacket(id), Wrap(id), BaseAfter(c, SourcePacket(id));
    var a := Admit(c.st, esi);
    AdmitStanding(c.st, stream, c.base, id);
    NothingReported(Wrap(base), Window(stream, base));
    NoReports(stream, base);
    if a.ok {
      var w := Witness(a.state, esi);
      WitnessStanding(a.state, esi, stream, base);
      StandingSized(w, stream, base);
      if !Known(w, esi) {
        WindowAt(stream, base, id);
        SlotOfWrap(id);
        assert Padded(stream(id), Window(stream, base)[Slot(esi)]);
        SubstituteTrue(w, esi, stream(id), Window(stream, base));
        SubstituteFrame(w, esi, stream(id));
        HarvestStanding(stream, base, Substitute(w, esi, stream(id)));
      }
    }
  }

  lemma RepairExact(stream: Stream, c: Config, pk: Packet)
    requires Loose(stream, c) && Near(stream, c, pk) && pk.RepairPacket?
    ensures var o, base := Deliver(stream, c.st, pk), BaseAfter(c, pk);
            var takes := StepTakes(stream, c.st, pk);
            && (AllRight(stream, Reports(base, o.recovered)) <==> Clean(takes, Window(stream, base)))
            && (Clean(takes, Window(stream, base)) ==> Loose(stream, Step(stream, c, pk)))
  {
    hide True, Clean, Harvest, Admit, Witness, Known, AllRight, Takes, Satisfies, Spread, Wrap, Behind, Reduce,
         Normalise, Count, ClearAll, Holds, LongEnough, Span;
    var base := BaseAfter(c, pk);
    NothingReported(Wrap(base), Window(stream, base));
    NoReports(stream, base);
    if pk.vector != [] {
      var last := Newest(pk);
      WrapPlus(pk.first, |pk.coefs| - 1);
      AdmitStanding(c.st, stream, c.base, last);
      var a := Admit(c.st, Wrap(last));
      if a.ok {
        var w, row := Witness(a.state, Wrap(pk.first)), Row(0, Spread(Wrap(pk.first), pk.coefs), pk.vector);
        WitnessStanding(a.state, Wrap(pk.first), stream, base);
        StandingSized(w, stream, base);
        FirstInWindow(c, pk);
        if base <= pk.first {
          SpreadHolds(stream, base, pk);
          SpreadLong(stream, base, pk);
          if Count(w.lo, Reduce(w, row).coef) > 0 {
            AppendTrue(w, row, Window(stream, base));
            HarvestStanding(stream, base, Appended(w, row));
          }
        }
      }
    }
  }

  // ---------- every run ----------

  ghost predicate CleanStep(stream: Stream, c: Config, pk: Packet)
    requires Sized(c.st)
  {
    Clean(StepTakes(stream, c.st, pk), Window(stream, BaseAfter(c, pk)))
  }

  ghost predicate NearRun(stream: Stream, packets: seq<Packet>) {
    packets == [] ||
    var n := |packets| - 1;
    NearRun(stream, packets[..n]) && Near(stream, Run(stream, packets[..n]), packets[n])
  }

  /** At every arrival, whatever comes down to one unknown has coefficient one there or an all-zero symbol. */
  ghost predicate CleanRun(stream: Stream, packets: seq<Packet>) {
    packets == [] ||
    var n := |packets| - 1;
    CleanRun(stream, packets[..n]) && CleanStep(stream, Run(stream, packets[..n]), packets[n])
  }

  lemma AllRightJoin(stream: Stream, a: seq<Report>, b: seq<Report>)
    ensures AllRight(stream, a + b) <==> AllRight(stream, a) && AllRight(stream, b)
  {
    hide Padded;
    var all := a + b;
    assert forall k :: 0 <= k < |a| ==> all[k] == a[k];
    assert forall k :: 0 <= k < |b| ==> all[|a| + k] == b[k];
  }

  /**
   In any order of arrivals: every symbol the decoder has ever reported is right
   exactly when, at every arrival, each equation that came down to one unknown had
   coefficient one there or an all-zero symbol. While that lasts, everything held is
   true of the stream.
   */
  lemma {:induction false} RunExact(stream: Stream, packets: seq<Packet>)
    requires NearRun(stream, packets)
    ensures AllRight(stream, Run(stream, packets).reports) <==> CleanRun(stream, packets)
    ensures CleanRun(stream, packets) ==> Loose(stream, Run(stream, packets))
  {
    hide AllRight, Loose, Near, Deliver, StepTakes, Clean;
    if packets == [] {
      StartLoose(stream);
    } else {
      var n := |packets| - 1;
      RunExact(stream, packets[..n]);
      var c, pk := Run(stream, packets[..n]), packets[n];
      AllRightJoin(stream, c.reports, Reports(BaseAfter(c, pk), Deliver(stream, c.st, pk).recovered));
      if CleanRun(stream, packets[..n]) {
        match pk
        case SourcePacket(id) => SourceExact(stream, c, id);
        case RepairPacket(_, _, _) => RepairExact(stream, c, pk);
      }
    }
  }

  lemma StartLoose(stream: Stream)
    ensures Loose(stream, Start()) && AllRight(stream, Start().reports)
  {
  }

  // ---------- harm at once, and harm delayed ----------

  /** Exactly these slots of the equation are unknowns. */
  ghost predicate Unknowns(coef: seq<Byte>, slots: set<nat>) {
    |coef| == WIDTH && forall i: nat :: i < WIDTH ==> (coef[i] != 0 <==> i in slots)
  }

  lemma OneUnknown(lo: Id, coef: seq<Byte>, m: nat)
    requires m < WIDTH && Unknowns(coef, {m})
    ensures Wide([coef]) && Takes(lo, [coef]) == [Take(m, coef[m])]
  {
    hide Count, Leading;
    LeadingFacts(lo, coef);
    assert coef[m] != 0;
    var slot := Slot(Leading(lo, coef));
    assert slot == m;
    var none := Cleared(Drop([coef], 0), slot);
    assert none == [];
    assert ScanFrom(lo, none, 0, true) == Scan([], [], true);
    assert ScanFrom(lo, [coef], 0, false) == Scan([], [Take(m, coef[m])], true);
    assert ScanFrom(lo, [], 0, false) == Scan([], [], false);
    assert Takes(lo, []) == [];
  }

  /** An equation with several unknowns left gives nothing away and stays. */
  lemma SeveralUnknowns(st: State, m: nat, k: nat)
    requires Sized(st) && |st.rows| == 1 && m < WIDTH && k < WIDTH && m != k
    requires st.rows[0].coef[m] != 0 && st.rows[0].coef[k] != 0
    ensures Harvest(st, []) == (st, [])
  {
    hide Count, Leading, Substitute;
    LeadingFacts(st.lo, st.rows[0].coef);
    assert Count(st.lo, st.rows[0].coef) > 1;
    assert HarvestPass(st, 1, [], false) == Harvested(st, [], false);
    assert HarvestPass(st, 0, [], false) == Harvested(st, [], false);
  }

  /** A source symbol inside the window that is not yet known. */
  lemma SourceInWindow(st: State, esi: Id, v: Vector)
    requires Sized(st) && Aligned(st) && InWindow(st.lo, esi) && !Known(st, esi)
    ensures var w := Witness(st, esi); var h := Harvest(Substitute(w, esi, v), []);
            Source(st, esi, v) == Outcome(h.0, h.1, [])
  {
    hide Harvest, EvictMany, LostOf, Substitute, Behind;
    WindowTests(st, esi);
  }

  /** The one equation held, once the symbol in a slot it mentions is known. */
  lemma Resolved(st: State, esi: Id, v: Vector, slots: set<nat>)
    requires Framed(st) && |st.rows| == 1 && InWindow(st.lo, esi) && Slot(esi) in slots
             && Unknowns(st.rows[0].coef, slots)
    ensures !Known(st, esi)
    ensures var w := Witness(st, esi);
            var r := Substitute(w, esi, v);
            && Sized(r) && |r.rows| == 1 && r.lo == st.lo && r.high == st.high && r.started == st.started
            && r.rows[0].coef == st.rows[0].coef[Slot(esi) := 0] && r.rows[0].pivot == st.rows[0].pivot
            && Unknowns(r.rows[0].coef, slots - {Slot(esi)})
  {
    hide IdOf, AddScaled, Behind;
    InWindowSlot(st.lo, esi);
    assert st.rows[0].coef[Slot(esi)] != 0;
    assert !st.cells[Slot(esi)].Held?;
  }

  /**
   Harm delayed. With one equation held over three unknowns, its leading symbol
   arriving late is always taken in rightly and reports nothing; yet the next symbol
   to arrive, which leads no equation, makes the decoder report a wrong one exactly
   when the last unknown's coefficient is not one and its symbol not all zeros.
   */
  lemma DelayedHarm(st: State, xs: seq<Vector>, k: Id, m: nat)
    requires Good(st) && st.started && |st.rows| == 1 && Consistent(st, xs) && Long(st, xs)
    requires InWindow(st.lo, k) && m < WIDTH && Slot(k) != m && m != Slot(st.rows[0].pivot)
             && Slot(k) != Slot(st.rows[0].pivot)
    requires Unknowns(st.rows[0].coef, {Slot(st.rows[0].pivot), Slot(k), m})
    ensures |xs| == WIDTH
    ensures var p := st.rows[0].pivot;
            var first := Source(st, p, xs[Slot(p)]);
            && first.recovered == [] && NotAPivot(first.state, k)
            && (Right(Source(first.state, k, xs[Slot(k)]).recovered, xs)
               <==> st.rows[0].coef[m] == 1 || Same(xs[m], []))
  {
    hide Led, Mixed, Apart, Harvest, Witness, Known, Substitute, Source, Consistent, Long, Same, Takes, IdOf,
         InWindow;
    ConsistentSize(st, xs);
    var row := st.rows[0];
    var p, slots := row.pivot, {Slot(row.pivot), Slot(k), m};
    assert Led(st.lo, row);
    LedInWindow(st.lo, row);
    assert True(st, xs);
    Resolved(st, p, xs[Slot(p)], slots);
    SourceInWindow(st, p, xs[Slot(p)]);
    var w := Witness(st, p);
    WitnessSized(st, p);
    var st1 := Substitute(w, p, xs[Slot(p)]);
    LearnTrue(st, p, xs);
    assert slots - {Slot(p)} == {Slot(k), m};
    SeveralUnknowns(st1, Slot(k), m);
    PivotApart(st, k);
    Resolved(st1, k, xs[Slot(k)], {Slot(k), m});
    SourceInWindow(st1, k, xs[Slot(k)]);
    WitnessSized(st1, k);
    var st2 := Substitute(Witness(st1, k), k, xs[Slot(k)]);
    LearnTrue(st1, k, xs);
    assert {Slot(k), m} - {Slot(k)} == {m};
    OneUnknown(st2.lo, st2.rows[0].coef, m);
    assert Coefs(st2.rows) == [st2.rows[0].coef];
    NothingReported(st2.lo, xs);
    HarvestExact(st2, [], xs);
    OneTake(Take(m, st2.rows[0].coef[m]), xs);
  }

  lemma WitnessSized(st: State, esi: Id)
    requires Sized(st)
    ensures Sized(Witness(st, esi))
  {
  }

  lemma OneTake(t: Take, xs: seq<Vector>)
    requires |xs| == WIDTH
    ensures Clean([t], xs) <==> Harmless(t, xs)
  {
    hide Harmless;
    assert [t][0] == t;
  }

  lemma LedInWindow(lo: Id, r: Row)
    requires Led(lo, r)
    ensures InWindow(lo, r.pivot)
  {
    SlotOfId(lo, Slot(r.pivot));
    InWindowSlot(lo, r.pivot);
  }

  lemma PivotApart(st: State, k: Id)
    requires |st.rows| == 1 && Slot(k) != Slot(st.rows[0].pivot)
    ensures NotAPivot(st, k)
  {
  }

  lemma LearnTrue(st: State, esi: Id, xs: seq<Vector>)
    requires True(st, xs) && Sized(st) && InWindow(st.lo, esi) && !Known(st, esi) && |xs| == WIDTH
    ensures True(Substitute(Witness(st, esi), esi, xs[Slot(esi)]), xs)
  {
    hide True, Substitute, InWindow, Wrap, Behind;
    TrueElsewhere(st, Witness(st, esi), xs);
    assert Padded(xs[Slot(esi)], xs[Slot(esi)]);
    SubstituteTrue(Witness(st, esi), esi, xs[Slot(esi)], xs);
  }

  /**
   Harm at once. With one equation held over two unknowns, its leading symbol
   arriving late makes the decoder report a wrong one exactly when the other
   unknown's coefficient is not one and its symbol not all zeros.
   */
  lemma HarmAtOnce(st: State, xs: seq<Vector>, m: nat)
    requires Good(st) && st.started && |st.rows| == 1 && Consistent(st, xs) && Long(st, xs)
    requires m < WIDTH && m != Slot(st.rows[0].pivot) && Unknowns(st.rows[0].coef, {Slot(st.rows[0].pivot), m})
    ensures |xs| == WIDTH
    ensures var p := st.rows[0].pivot;
            Right(Source(st, p, xs[Slot(p)]).recovered, xs) <==> st.rows[0].coef[m] == 1 || Same(xs[m], [])
  {
    hide Led, Mixed, Apart, Harvest, Witness, Known, Substitute, Source, Consistent, Long, Same, Takes, IdOf,
         InWindow;
    ConsistentSize(st, xs);
    var row := st.rows[0];
    var p := row.pivot;
    assert Led(st.lo, row);
    LedInWindow(st.lo, row);
    assert True(st, xs);
    Resolved(st, p, xs[Slot(p)], {Slot(p), m});
    SourceInWindow(st, p, xs[Slot(p)]);
    WitnessSized(st, p);
    var next := Substitute(Witness(st, p), p, xs[Slot(p)]);
    LearnTrue(st, p, xs);
    assert {Slot(p), m} - {Slot(p)} == {m};
    OneUnknown(next.lo, next.rows[0].coef, m);
    assert Coefs(next.rows) == [next.rows[0].coef];
    NothingReported(next.lo, xs);
    HarvestExact(next, [], xs);
    OneTake(Take(m, next.rows[0].coef[m]), xs);
  }

  // ---------- a run that goes wrong ----------

  /** Nothing is known yet, so nothing is taken out of the equation. */
  lemma {:induction false} NothingKnown(st: State, row: Row, k: nat)
    requires Sized(st) && |row.coef| == WIDTH && k <= WIDTH && forall i :: 0 <= i < WIDTH ==> st.cells[i] == Vacant
    ensures ReduceKnown(st, row, k) == row
    decreases WIDTH - k
  {
    if k < WIDTH {
      NothingKnown(st, row, k + 1);
    }
  }

  /** The first equation, over several unknowns, is held as it came, scaled. */
  lemma FirstEquation(w: State, row: Row, m: nat, k: nat)
    requires Sized(w) && w.rows == [] && (forall i :: 0 <= i < WIDTH ==> w.cells[i] == Vacant) && |row.coef| == WIDTH
    requires m < WIDTH && k < WIDTH && m != k && row.coef[m] != 0 && row.coef[k] != 0
    ensures Insert(w, row) == (w.(rows := [Normalise(w.lo, row)]), [])
  {
    hide Normalise, Count, Harvest, ReduceKnown, Leading;
    NothingKnown(w, row, 0);
    LeadingFacts(w.lo, row.coef);
    NormaliseNonZero(w.lo, row);
    var full := Appended(w, row);
    assert full.rows == [Normalise(w.lo, row)];
    SeveralUnknowns(full, m, k);
  }

  /** A first repair over several symbols leaves its equation as the one held. */
  lemma FirstRepair(stream: Stream, pk: Packet, m: nat, k: nat)
    requires pk.RepairPacket? && 0 < |pk.coefs| <= MAX_REPAIR_WINDOW && pk.vector != [] && m < WIDTH && k < WIDTH
             && m != k
    requires var coef := Spread(Wrap(pk.first), pk.coefs); coef[m] != 0 && coef[k] != 0
    ensures var c, base := Step(stream, Start(), pk), Newest(pk) + 1 - WIDTH;
            && c.base == base && c.reports == [] && c.st.started && c.st.lo == Wrap(base)
            && c.st.rows == [Normalise(Wrap(base), Row(0, Spread(Wrap(pk.first), pk.coefs), pk.vector))]
  {
    hide Spread, Normalise, Insert, Wrap, Behind, EvictMany, LostOf;
    var last, base, row := Newest(pk), Newest(pk) + 1 - WIDTH, Row(0, Spread(Wrap(pk.first), pk.coefs), pk.vector);
    WrapPlus(pk.first, |pk.coefs| - 1);
    WrapPlus(last, 1 - WIDTH);
    BehindIsLess(pk.first, base);
    var w := Witness(Admit(Initial(), Wrap(last)).state, Wrap(pk.first));
    FirstEquation(w, row, m, k);
  }

  lemma NormaliseNonZero(lo: Id, row: Row)
    requires |row.coef| == WIDTH && Count(lo, row.coef) > 0
    ensures var c, unit := row.coef[Slot(Leading(lo, row.coef))], Normalise(lo, row);
            && c != 0 && unit.pivot == Leading(lo, row.coef)
            && forall i :: 0 <= i < WIDTH ==>
                 (unit.coef[i] != 0 <==> row.coef[i] != 0) && (unit.coef[i] == 1 <==> row.coef[i] == c)
  {
    hide Mul, Inverse, Count, Leading;
    LeadingFacts(lo, row.coef);
    var c := row.coef[Slot(Leading(lo, row.coef))];
    InverseLaw(c);
    var unit := Normalise(lo, row);
    forall i | 0 <= i < WIDTH
      ensures unit.coef[i] == Mul(Inverse(c), row.coef[i])
      ensures unit.coef[i] != 0 <==> row.coef[i] != 0
      ensures unit.coef[i] == 1 <==> row.coef[i] == c
    {
      MulLaws(Inverse(c), c, 0);
      MulNonZero(Inverse(c), c);
      MulNonZero(Inverse(c), row.coef[i]);
      MulCancels(Inverse(c), row.coef[i], c);
      MulLaws(row.coef[i], 0, 0);
    }
  }

  /** A repair over three symbols mentions those and leads with the first. */
  lemma ThreeTerms(first: int, coefs: seq<Byte>)
    requires |coefs| == 3 && coefs[0] != 0 && coefs[1] != 0 && coefs[2] != 0
    ensures var coef, lo := Spread(Wrap(first), coefs), Wrap(first + 3 - WIDTH);
            && Unknowns(coef, {Slot(first), Slot(first + 1), Slot(first + 2)})
            && coef[Slot(first)] == coefs[0] && coef[Slot(first + 1)] == coefs[1]
            && Slot(first) != Slot(first + 1) && Slot(first + 1) != Slot(first + 2) && Slot(first) != Slot(first + 2)
            && Count(lo, coef) > 0 && Leading(lo, coef) == Wrap(first)
  {
    hide Spread, Slot, Count, Leading, Wrap;
    SpreadOfWrap(first, coefs);
    var coef, base := Spread(Wrap(first), coefs), first + 3 - WIDTH;
    SlotInverseAt(first, 0);
    SlotInverseAt(first, 1);
    SlotInverseAt(first, 2);
    assert first + 0 == first;
    forall i: nat | i < WIDTH
      ensures coef[i] != 0 <==> i in {Slot(first), Slot(first + 1), Slot(first + 2)}
    {
      SlotBack(first, i);
    }
    LeadsWithFirst(base, first, coef);
  }

  lemma LeadsWithFirst(base: int, first: int, coef: seq<Byte>)
    requires base <= first < first + 2 < base + WIDTH && |coef| == WIDTH
    requires Unknowns(coef, {Slot(first), Slot(first + 1), Slot(first + 2)})
    ensures Count(Wrap(base), coef) > 0 && Leading(Wrap(base), coef) == Wrap(first)
  {
    hide Slot, Count, Leading, Wrap, Offset, IdOf;
    LeadingFacts(Wrap(base), coef);
    var i := Slot(Leading(Wrap(base), coef));
    SlotsOf(base, first);
    assert coef[Slot(first)] != 0;
  }

  lemma SlotsOf(base: int, first: int)
    requires base <= first < first + 2 < base + WIDTH
    ensures Slot(first) < WIDTH && IdOf(Wrap(base), Slot(first)) == Wrap(first)
    ensures Offset(Wrap(base), Slot(first)) < Offset(Wrap(base), Slot(first + 1))
    ensures Offset(Wrap(base), Slot(first)) < Offset(Wrap(base), Slot(first + 2))
  {
    hide Slot, Wrap, Offset, IdOf;
    IdAtSlot(base, first);
    IdAtSlot(base, first + 1);
    IdAtSlot(base, first + 2);
    IdOfIdAt(base, Slot(first));
    IdOfIdAt(base, Slot(first + 1));
    IdOfIdAt(base, Slot(first + 2));
  }

  /**
   A repair over three symbols is the first thing to arrive, then the first of them, then
   the third: nothing is reported until then, and then the second, rightly exactly when the
   repair gave it the same multiplier as the first or it is all zeros.
   */
  lemma LateSourceRun(stream: Stream, pk: Packet)
    requires pk.RepairPacket? && |pk.coefs| == 3 && pk.coefs[0] != 0 && pk.coefs[1] != 0 && pk.coefs[2] != 0
    requires Genuine(stream, pk) && pk.vector != []
    ensures var two := [pk, SourcePacket(pk.first)];
            && Run(stream, two).reports == []
            && (AllRight(stream, Run(stream, two + [SourcePacket(pk.first + 2)]).reports)
                <==> pk.coefs[1] == pk.coefs[0] || Same(stream(pk.first + 1), []))
  {
    hide Genuine, Spread, Normalise, Slot, Wrap, Count, Leading, Unknowns, Step, Source, Same, AllRight, Consistent,
         Long, Good, Right, NotAPivot, Padded;
    var first, base := pk.first, pk.first + 3 - WIDTH;
    var row := Row(0, Spread(Wrap(first), pk.coefs), pk.vector);
    ThreeTerms(first, pk.coefs);
    assert row.coef[Slot(first)] != 0 && row.coef[Slot(first + 1)] != 0;
    FirstRepair(stream, pk, Slot(first), Slot(first + 1));
    NormaliseNonZero(Wrap(base), row);
    assert [pk][..0] == [] && Run(stream, []) == Start();
    var c, xs := Run(stream, [pk]), Window(stream, base);
    assert c == Step(stream, Start(), pk);
    FirstFaithful(stream, pk);
    var slots := {Slot(first), Slot(first + 1), Slot(first + 2)};
    UnknownsSame(row.coef, c.st.rows[0].coef, slots);
    WindowAt(stream, base, first);
    WindowAt(stream, base, first + 1);
    WindowAt(stream, base, first + 2);
    assert slots == {Slot(c.st.rows[0].pivot), Slot(Wrap(first + 2)), Slot(first + 1)};
    DelayedHarm(c.st, xs, Wrap(first + 2), Slot(first + 1));
    TwoSources(stream, c, first, first + 2);
    var two := [pk, SourcePacket(first)];
    var three := two + [SourcePacket(first + 2)];
    assert two[..1] == [pk] && three[..2] == two;
  }

  lemma UnknownsSame(a: seq<Byte>, b: seq<Byte>, slots: set<nat>)
    requires Unknowns(a, slots) && |b| == WIDTH && forall i :: 0 <= i < WIDTH ==> (b[i] != 0 <==> a[i] != 0)
    ensures Unknowns(b, slots)
  {
  }

  lemma FirstFaithful(stream: Stream, pk: Packet)
    requires Genuine(stream, pk) && pk.RepairPacket? && Run(stream, [pk]).st.started
    ensures var c := Run(stream, [pk]);
            Good(c.st) && Consistent(c.st, Window(stream, c.base)) && Long(c.st, Window(stream, c.base)) && Framed(c.st)
  {
    hide Genuine, Step, Consistent, Long, Exact, Before, Explains, AllRight, Led, Mixed, Apart;
    assert [pk][..0] == [];
    assert Admissible(stream, Start(), pk);
    assert AdmissibleRun(stream, []);
    RunFaithful(stream, [pk]);
  }

  /** Two source symbols of the window, the first of which reports nothing. */
  lemma TwoSources(stream: Stream, c: Config, first: int, second: int)
    requires Good(c.st) && Sized(c.st) && c.st.started && c.st.lo == Wrap(c.base) && c.reports == []
    requires c.base <= first < c.base + WIDTH && c.base <= second < c.base + WIDTH
    requires Source(c.st, Wrap(first), stream(first)).recovered == []
    ensures var d := Step(stream, c, SourcePacket(first));
            var o := Source(d.st, Wrap(second), stream(second));
            && d.st == Source(c.st, Wrap(first), stream(first)).state && d.reports == []
            && (AllRight(stream, Step(stream, d, SourcePacket(second)).reports)
               <==> Right(o.recovered, Window(stream, c.base)))
  {
    hide Source, Wrap, AllRight, Right, Within, InWindow;
    GoodAligned(c.st);
    WindowAt(stream, c.base, first);
    WindowAt(stream, c.base, second);
    SourceStays(c.st, Wrap(first), stream(first));
    var d := Step(stream, c, SourcePacket(first));
    assert d.reports == [] + Reports(c.base, []);
    var o := Source(d.st, Wrap(second), stream(second));
    SourceStays(d.st, Wrap(second), stream(second));
    ReportsExact(stream, c.base, o.recovered);
    var reports := Reports(c.base, o.recovered);
    assert Step(stream, d, SourcePacket(second)).reports == [] + reports;
    assert [] + reports == reports;
  }

  lemma GoodAligned(st: State)
    requires Good(st) && st.started
    ensures Aligned(st)
  {
  }

  /** A source symbol of the window leaves the window where it is and reports only symbols of it. */
  lemma SourceStays(st: State, esi: Id, v: Vector)
    requires Sized(st) && Aligned(st) && InWindow(st.lo, esi)
    ensures var o := Source(st, esi, v);
            Aligned(o.state) && o.state.lo == st.lo && Within(st.lo, o.recovered)
  {
    hide Harvest, EvictMany, LostOf, Substitute, Behind, Within;
    var w := Witness(st, esi);
    WindowTests(st, esi);
    NothingReported(st.lo, seq(WIDTH, _ => []));
    if !Known(w, esi) {
      SourceInWindow(st, esi, v);
      var sub := Substitute(w, esi, v);
      SubstituteFrame(w, esi, v);
      HarvestWithin(sub, []);
      F.HarvestKeepsWindow(sub, []);
    }
  }

  /** Three symbols of one byte each, sent with a repair over them. */
  function Ones(): seq<Vector> {
    [[1], [1], [1]]
  }

  /**
   The same with the sender's own repair, under any identity that gives the first two
   symbols different multipliers, as identity 0 does: the repair arrives, then symbol 0,
   late, and nothing is wrong yet; then symbol 2, which leads no equation, and symbol 1
   is reported with a value it never had.
   */
  lemma LateSourceGoesWrong(rid: Id)
    requires WindowCoefficient(rid, 0) != WindowCoefficient(rid, 1)
    ensures var s, two := W.Sent(Ones()), [W.RepairOver(Ones(), rid, 3), SourcePacket(0)];
            && Genuine(s, two[0]) && AllRight(s, Run(s, two).reports)
            && !AllRight(s, Run(s, two + [SourcePacket(2)]).reports)
  {
    hide Run, Genuine, WindowCoefficient, W.RepairVector, Sum;
    var s, pk := W.Sent(Ones()), W.RepairOver(Ones(), rid, 3);
    W.RepairOverIsGenuine(Ones(), rid, 3);
    VectorNotEmpty(rid);
    LateSourceRun(s, pk);
    assert At(s(1), 0) != At([], 0);
    NoReports(s, 0);
    assert Reports(0, []) == [];
  }

  lemma VectorNotEmpty(rid: Id)
    ensures W.RepairVector(Ones(), rid, 3) != []
  {
    hide WindowCoefficient, Sum;
    var xs := Ones()[0..];
    assert Longest(xs) >= |xs[0]|;
  }

  /** Identity 0 is one of them. */
  lemma RepairZeroGoesWrong()
    ensures var s, packets := W.Sent(Ones()), [W.RepairOver(Ones(), 0, 3), SourcePacket(0), SourcePacket(2)];
            !AllRight(s, Run(s, packets).reports)
  {
    hide Run, Genuine, WindowCoefficient, W.RepairOver, AllRight;
    FirstRow();
    LateSourceGoesWrong(0);
    var pk := W.RepairOver(Ones(), 0, 3);
    assert [pk, SourcePacket(0)] + [SourcePacket(2)] == [pk, SourcePacket(0), SourcePacket(2)];
  }
}
