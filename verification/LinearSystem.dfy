/**
 Linear equations between symbols. A symbol is a vector of bytes, read as if it
 were followed by zeros for ever; an equation multiplies each symbol by a
 coefficient, adds the products byte by byte, and names the result.
 */
module LinearSystem {
  import opened GaloisField
  import opened SymbolIds

  type Vector = seq<Byte>

  /** The byte at position p, zero beyond the end. */
  function At(v: Vector, p: nat): Byte {
    if p < |v| then v[p] else 0
  }

  /** Two vectors that differ only in how many zeros trail them. */
  ghost predicate Same(u: Vector, v: Vector) {
    forall p: nat :: At(u, p) == At(v, p)
  }

  /** u is v followed only by zeros. */
  ghost predicate Padded(u: Vector, v: Vector) {
    |v| <= |u| && u[..|v|] == v && forall p :: |v| <= p < |u| ==> u[p] == 0
  }

  lemma SameAndLongIsPadded(u: Vector, v: Vector)
    ensures Padded(u, v) <==> Same(u, v) && |v| <= |u|
  {
    if Same(u, v) && |v| <= |u| {
      forall p: nat | p < |u|
        ensures u[p] == At(v, p)
      {
        assert At(u, p) == At(v, p);
      }
    }
  }

  // ---------- vector arithmetic ----------

  /** Lengthens a vector with zeros to at least the given length. */
  function Extend(v: Vector, length: nat): (r: Vector)
    ensures |r| == if |v| >= length then |v| else length
  {
    if |v| >= length then v else v + seq(length - |v|, _ => 0)
  }

  /** Accumulates c times u into v, over as much as the two share. */
  function AddScaled(c: Byte, u: Vector, v: Vector): (r: Vector)
    ensures |r| == |v|
  {
    seq(|v|, i requires 0 <= i < |v| => if i < |u| then Add(v[i], Mul(c, u[i])) else v[i])
  }

  /** Multiplies every byte by f. */
  function Scale(f: Byte, v: Vector): (r: Vector)
    ensures |r| == |v|
  {
    seq(|v|, i requires 0 <= i < |v| => Mul(f, v[i]))
  }

  lemma AtExtend(v: Vector, length: nat, p: nat)
    ensures At(Extend(v, length), p) == At(v, p)
  {
  }

  lemma AtAddScaled(c: Byte, u: Vector, v: Vector, p: nat)
    requires |u| <= |v|
    ensures At(AddScaled(c, u, v), p) == Add(At(v, p), Mul(c, At(u, p)))
  {
    hide Add, Mul;
    MulLaws(c, 0, 0);
    AddLaws(At(v, p), 0, 0);
  }

  lemma AtScale(f: Byte, v: Vector, p: nat)
    ensures At(Scale(f, v), p) == Mul(f, At(v, p))
  {
    hide Mul;
    MulLaws(f, 0, 0);
  }

  /** Clearing a unit entry; an entry the other side lacks is left alone. */
  lemma AddScaledAt(c: Byte, a: seq<Byte>, b: seq<Byte>, i: nat)
    requires i < |a| == |b|
    ensures a[i] == 0 ==> AddScaled(c, a, b)[i] == b[i]
    ensures a[i] == 1 && b[i] == c ==> AddScaled(c, a, b)[i] == 0
  {
    hide Add, Mul;
    MulLaws(c, 0, 0);
    AddLaws(b[i], 0, 0);
  }

  // ---------- sums ----------

  /** Byte p of the sum of the first n symbols, each times its coefficient. */
  function Sum(coef: seq<Byte>, xs: seq<Vector>, p: nat, n: nat): Byte
    requires n <= |coef| == |xs|
  {
    if n == 0 then 0 else Add(Sum(coef, xs, p, n - 1), Mul(coef[n - 1], At(xs[n - 1], p)))
  }

  lemma {:induction false} SumAddScaled(c: Byte, a: seq<Byte>, b: seq<Byte>, xs: seq<Vector>, p: nat, n: nat)
    requires n <= |a| == |b| == |xs|
    ensures Sum(AddScaled(c, a, b), xs, p, n) == Add(Sum(b, xs, p, n), Mul(c, Sum(a, xs, p, n)))
  {
    hide Add, Mul;
    MulLaws(c, 0, 0);
    AddLaws(0, 0, 0);
    if n > 0 {
      var x := At(xs[n - 1], p);
      SumAddScaled(c, a, b, xs, p, n - 1);
      MulLaws(b[n - 1], Mul(c, a[n - 1]), x);
      MulLaws(c, a[n - 1], x);
      MulLaws(c, Sum(a, xs, p, n - 1), Mul(a[n - 1], x));
      AddSwap(Sum(b, xs, p, n - 1), Mul(c, Sum(a, xs, p, n - 1)), Mul(b[n - 1], x), Mul(c, Mul(a[n - 1], x)));
    }
  }

  lemma {:induction false} SumScale(f: Byte, a: seq<Byte>, xs: seq<Vector>, p: nat, n: nat)
    requires n <= |a| == |xs|
    ensures Sum(Scale(f, a), xs, p, n) == Mul(f, Sum(a, xs, p, n))
  {
    hide Add, Mul;
    MulLaws(f, 0, 0);
    if n > 0 {
      var x := At(xs[n - 1], p);
      SumScale(f, a, xs, p, n - 1);
      MulLaws(f, a[n - 1], x);
      MulLaws(f, Sum(a, xs, p, n - 1), Mul(a[n - 1], x));
    }
  }

  /** The sum depends only on the coefficients and the byte p of symbols whose coefficient is not zero. */
  lemma {:induction false} SumAgrees(coef: seq<Byte>, xs: seq<Vector>, ys: seq<Vector>, p: nat, n: nat)
    requires n <= |coef| == |xs| == |ys|
    requires forall i :: 0 <= i < n && coef[i] != 0 ==> At(xs[i], p) == At(ys[i], p)
    ensures Sum(coef, xs, p, n) == Sum(coef, ys, p, n)
  {
    hide Add, Mul;
    if n > 0 {
      SumAgrees(coef, xs, ys, p, n - 1);
      MulLaws(At(xs[n - 1], p), 0, 0);
      MulLaws(At(ys[n - 1], p), 0, 0);
    }
  }

  /** Dropping one term. */
  lemma {:induction false} SumClear(coef: seq<Byte>, xs: seq<Vector>, p: nat, n: nat, k: nat)
    requires k < n <= |coef| == |xs|
    ensures Sum(coef[k := 0], xs, p, n) == Add(Sum(coef, xs, p, n), Mul(coef[k], At(xs[k], p)))
  {
    hide Add, Mul;
    var last := Mul(coef[n - 1], At(xs[n - 1], p));
    if k == n - 1 {
      SumSame(coef, coef[k := 0], xs, p, n - 1);
      MulLaws(At(xs[k], p), 0, 0);
      AddLaws(Sum(coef, xs, p, n - 1), 0, 0);
      AddCancels(Sum(coef, xs, p, n - 1), last);
    } else {
      SumClear(coef, xs, p, n - 1, k);
      var term := Mul(coef[k], At(xs[k], p));
      AddLaws(Sum(coef, xs, p, n - 1), term, last);
      AddLaws(term, last, 0);
      AddLaws(Sum(coef, xs, p, n - 1), last, term);
    }
  }

  lemma {:induction false} SumSame(a: seq<Byte>, b: seq<Byte>, xs: seq<Vector>, p: nat, n: nat)
    requires n <= |a| == |b| == |xs|
    requires forall i :: 0 <= i < n ==> a[i] == b[i]
    ensures Sum(a, xs, p, n) == Sum(b, xs, p, n)
  {
    hide Add, Mul;
    if n > 0 {
      SumSame(a, b, xs, p, n - 1);
    }
  }

  lemma {:induction false} SumOfZeros(coef: seq<Byte>, xs: seq<Vector>, p: nat, n: nat)
    requires n <= |coef| == |xs|
    requires forall i :: 0 <= i < n ==> coef[i] == 0
    ensures Sum(coef, xs, p, n) == 0
  {
    hide Add, Mul;
    if n > 0 {
      SumOfZeros(coef, xs, p, n - 1);
      MulLaws(At(xs[n - 1], p), 0, 0);
      AddLaws(0, 0, 0);
    }
  }

  /** A sum with one term left is that term. */
  lemma SumOfOne(coef: seq<Byte>, xs: seq<Vector>, p: nat, k: nat)
    requires k < |coef| == |xs|
    requires forall i :: 0 <= i < |coef| && i != k ==> coef[i] == 0
    ensures Sum(coef, xs, p, |coef|) == Mul(coef[k], At(xs[k], p))
  {
    hide Add, Mul;
    SumClear(coef, xs, p, |coef|, k);
    SumOfZeros(coef[k := 0], xs, p, |coef|);
    AddCancels(Sum(coef, xs, p, |coef|), Mul(coef[k], At(xs[k], p)));
  }

  /** Replacing one symbol changes the sum by its coefficient times the difference. */
  lemma SumReplace(coef: seq<Byte>, xs: seq<Vector>, p: nat, k: nat, v: Vector)
    requires k < |coef| == |xs|
    ensures Sum(coef, xs[k := v], p, |coef|)
         == Add(Sum(coef, xs, p, |coef|), Mul(coef[k], Add(At(xs[k], p), At(v, p))))
  {
    hide Add, Mul;
    var n, ys := |coef|, xs[k := v];
    SumClear(coef, xs, p, n, k);
    SumClear(coef, ys, p, n, k);
    SumAgrees(coef[k := 0], xs, ys, p, n);
    var s, t, x, y := Sum(coef, xs, p, n), Sum(coef, ys, p, n), Mul(coef[k], At(xs[k], p)), Mul(coef[k], At(v, p));
    assert Add(s, x) == Add(t, y);
    AddCancels(t, y);
    AddLaws(s, x, y);
    MulLaws(coef[k], At(xs[k], p), At(v, p));
  }

  // ---------- equations ----------

  /** Coefficients over the symbols and the constant term they sum to; pivot names the equation's leading symbol. */
  datatype Row = Row(pivot: Id, coef: seq<Byte>, data: Vector)

  /** The equation is true of the symbols xs. */
  ghost predicate Holds(r: Row, xs: seq<Vector>) {
    |r.coef| == |xs| && forall p: nat :: Sum(r.coef, xs, p, |xs|) == At(r.data, p)
  }

  /** Adds c times equation s to equation r. */
  function Eliminate(r: Row, c: Byte, s: Row): Row {
    r.(coef := AddScaled(c, s.coef, r.coef), data := AddScaled(c, s.data, Extend(r.data, |s.data|)))
  }

  /** Moves the known symbol at index to the constant side. */
  function Resolve(r: Row, index: nat, v: Vector): Row
    requires index < |r.coef|
  {
    if r.coef[index] == 0 then r else
      r.(coef := r.coef[index := 0], data := AddScaled(r.coef[index], v, Extend(r.data, |v|)))
  }

  lemma EliminateHolds(r: Row, c: Byte, s: Row, xs: seq<Vector>)
    requires |r.coef| == |s.coef| == |xs| && Holds(s, xs)
    ensures Holds(Eliminate(r, c, s), xs) <==> Holds(r, xs)
  {
    hide Add, Mul, Sum;
    var e := Eliminate(r, c, s);
    forall p: nat
      ensures Sum(e.coef, xs, p, |xs|) == At(e.data, p) <==> Sum(r.coef, xs, p, |xs|) == At(r.data, p)
    {
      SumAddScaled(c, s.coef, r.coef, xs, p, |xs|);
      AtAddScaled(c, s.data, Extend(r.data, |s.data|), p);
      AtExtend(r.data, |s.data|, p);
      assert Sum(s.coef, xs, p, |xs|) == At(s.data, p);
      AddCancels(Sum(r.coef, xs, p, |xs|), Mul(c, At(s.data, p)));
      AddCancels(At(r.data, p), Mul(c, At(s.data, p)));
    }
  }

  lemma ResolveHolds(r: Row, index: nat, v: Vector, xs: seq<Vector>)
    requires index < |r.coef| == |xs| && Same(v, xs[index])
    ensures Holds(Resolve(r, index, v), xs) <==> Holds(r, xs)
  {
    hide Add, Mul, Sum;
    var e, c := Resolve(r, index, v), r.coef[index];
    if c != 0 {
      forall p: nat
        ensures Sum(e.coef, xs, p, |xs|) == At(e.data, p) <==> Sum(r.coef, xs, p, |xs|) == At(r.data, p)
      {
        SumClear(r.coef, xs, p, |xs|, index);
        AtAddScaled(c, v, Extend(r.data, |v|), p);
        AtExtend(r.data, |v|, p);
        assert At(v, p) == At(xs[index], p);
        AddCancels(Sum(r.coef, xs, p, |xs|), Mul(c, At(v, p)));
        AddCancels(At(r.data, p), Mul(c, At(v, p)));
      }
    }
  }

  lemma ScaleHolds(r: Row, f: Byte, xs: seq<Vector>)
    requires |r.coef| == |xs| && f != 0
    ensures Holds(r.(coef := Scale(f, r.coef), data := Scale(f, r.data)), xs) <==> Holds(r, xs)
  {
    hide Add, Mul, Sum;
    var e := r.(coef := Scale(f, r.coef), data := Scale(f, r.data));
    forall p: nat
      ensures Sum(e.coef, xs, p, |xs|) == At(e.data, p) <==> Sum(r.coef, xs, p, |xs|) == At(r.data, p)
    {
      SumScale(f, r.coef, xs, p, |xs|);
      AtScale(f, r.data, p);
      MulCancels(f, Sum(r.coef, xs, p, |xs|), At(r.data, p));
    }
  }

  lemma MulCancels(f: Byte, a: Byte, b: Byte)
    requires f != 0
    ensures Mul(f, a) == Mul(f, b) <==> a == b
  {
    hide Mul, Add;
    InverseLaw(f);
    MulLaws(Inverse(f), f, a);
    MulLaws(Inverse(f), f, b);
    MulLaws(f, Inverse(f), 0);
    MulLaws(a, 0, 0);
    MulLaws(b, 0, 0);
  }

  /** There are no divisors of zero. */
  lemma MulNonZero(a: Byte, b: Byte)
    ensures Mul(a, b) == 0 <==> a == 0 || b == 0
  {
    hide Mul, Add;
    MulLaws(b, 0, 0);
    MulLaws(a, 0, 0);
    if a != 0 {
      MulCancels(a, b, 0);
    }
  }
}
