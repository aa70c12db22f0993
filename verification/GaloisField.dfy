/**
 The field of bytes the erasure code works in: polynomials over two elements
 modulo x^8 + x^4 + x^3 + x^2 + 1, a byte's bits being the coefficients.
 Addition is exclusive or. Multiplication is defined here by shifting and
 adding; the discrete-logarithm tables the program computes with are proved
 equal to it in GaloisTables.
 */
module GaloisField {

  type Byte = x: nat | x < 256

  /** Exclusive or, bit by bit from the lowest. */
  function Xor(a: nat, b: nat): nat {
    if a == 0 && b == 0 then 0 else (a + b) % 2 + 2 * Xor(a / 2, b / 2)
  }

  // ---------- addition ----------

  /** The lowest bit of an exclusive or, and the rest of it. */
  lemma XorParts(a: nat, b: nat)
    ensures Xor(a, b) % 2 == (a + b) % 2
    ensures Xor(a, b) / 2 == Xor(a / 2, b / 2)
  {
    var low, high := (a + b) % 2, Xor(a / 2, b / 2);
    assert Xor(a, b) == low + 2 * high;
    Compose(low, high);
  }

  lemma Compose(low: nat, high: nat)
    requires low < 2
    ensures (low + 2 * high) % 2 == low && (low + 2 * high) / 2 == high
  {
  }

  lemma SameParts(a: nat, b: nat)
    requires a % 2 == b % 2 && a / 2 == b / 2
    ensures a == b
  {
  }

  lemma {:induction false} XorCommutes(a: nat, b: nat)
    ensures Xor(a, b) == Xor(b, a)
  {
    if a != 0 || b != 0 {
      XorCommutes(a / 2, b / 2);
    }
  }

  lemma {:induction false} XorAssociates(a: nat, b: nat, c: nat)
    ensures Xor(Xor(a, b), c) == Xor(a, Xor(b, c))
    decreases a + b + c
  {
    if a != 0 || b != 0 || c != 0 {
      XorAssociates(a / 2, b / 2, c / 2);
      XorPartsOfThree(a, b, c);
      SameParts(Xor(Xor(a, b), c), Xor(a, Xor(b, c)));
    }
  }

  lemma XorPartsOfThree(a: nat, b: nat, c: nat)
    ensures Xor(Xor(a, b), c) % 2 == Xor(a, Xor(b, c)) % 2
    ensures Xor(Xor(a, b), c) / 2 == Xor(Xor(a / 2, b / 2), c / 2)
    ensures Xor(a, Xor(b, c)) / 2 == Xor(a / 2, Xor(b / 2, c / 2))
  {
    hide Xor;
    XorParts(a, b);
    XorParts(b, c);
    XorParts(Xor(a, b), c);
    XorParts(a, Xor(b, c));
    SameParity(a, b, c, Xor(a, b), Xor(b, c));
  }

  lemma SameParity(a: nat, b: nat, c: nat, ab: nat, bc: nat)
    requires ab % 2 == (a + b) % 2 && bc % 2 == (b + c) % 2
    ensures (ab + c) % 2 == (a + bc) % 2
  {
  }

  lemma {:induction false} XorZero(a: nat)
    ensures Xor(a, 0) == a == Xor(0, a)
  {
    if a != 0 {
      XorZero(a / 2);
    }
  }

  lemma {:induction false} XorSelf(a: nat)
    ensures Xor(a, a) == 0
  {
    if a != 0 {
      XorSelf(a / 2);
    }
  }

  lemma {:induction false} XorBelow(a: nat, b: nat, limit: nat)
    requires a < limit && b < limit && PowerOfTwo(limit)
    ensures Xor(a, b) < limit
  {
    if limit > 1 {
      XorBelow(a / 2, b / 2, limit / 2);
    }
  }

  predicate PowerOfTwo(n: nat) {
    n == 1 || (n > 1 && n % 2 == 0 && PowerOfTwo(n / 2))
  }

  /** Exclusive or works on the high and the low bits separately. */
  lemma {:induction false} XorSplit(h: nat, l: nat, m: nat, w: nat)
    requires PowerOfTwo(w) && l < w && m < w
    ensures Xor(h * w + l, m) == h * w + Xor(l, m)
    decreases w
  {
    hide Xor;
    if w == 1 {
      XorZero(h);
      XorZero(0);
    } else {
      XorSplit(h, l / 2, m / 2, w / 2);
      XorParts(l, m);
      HalfOf(h, w, l);
      HalfOf(h, w, Xor(l, m));
      XorSplitStep(h * w + l, l, m, h * w + Xor(l, m), h * (w / 2));
    }
  }

  lemma XorSplitStep(whole: nat, l: nat, m: nat, result: nat, high: nat)
    requires whole / 2 == high + l / 2 && whole % 2 == l % 2
    requires result / 2 == high + Xor(l, m) / 2 && result % 2 == Xor(l, m) % 2
    requires Xor(high + l / 2, m / 2) == high + Xor(l / 2, m / 2)
    ensures Xor(whole, m) == result
  {
    hide Xor;
    XorParts(whole, m);
    XorParts(l, m);
    assert (whole + m) % 2 == (l + m) % 2;
    SameParts(Xor(whole, m), result);
  }

  lemma HalfOf(h: nat, w: nat, l: nat)
    requires w > 0 && w % 2 == 0
    ensures (h * w + l) / 2 == h * (w / 2) + l / 2 && (h * w + l) % 2 == l % 2
  {
    assert h * w == 2 * (h * (w / 2));
  }

  /** A bit above everything in a and b passes straight through. */
  lemma XorTop(a: nat, b: nat, top: nat)
    requires a < top && b < top && PowerOfTwo(top)
    ensures Xor(a + top, b) == Xor(a, b) + top
  {
    hide Xor;
    XorSplit(1, a, b, top);
    assert 1 * top == top;
  }

  /** Field addition. */
  function Add(a: Byte, b: Byte): (r: Byte)
  {
    ByteLimit();
    XorBelow(a, b, 256);
    Xor(a, b)
  }

  lemma ByteLimit()
    ensures PowerOfTwo(256) && PowerOfTwo(128)
  {
    assert PowerOfTwo(1) && PowerOfTwo(2) && PowerOfTwo(4) && PowerOfTwo(8);
    assert PowerOfTwo(16) && PowerOfTwo(32) && PowerOfTwo(64) && PowerOfTwo(128);
  }

  lemma AddLaws(a: Byte, b: Byte, c: Byte)
    ensures Add(a, b) == Add(b, a)
    ensures Add(Add(a, b), c) == Add(a, Add(b, c))
    ensures Add(a, 0) == a && Add(0, a) == a && Add(a, a) == 0
  {
    XorCommutes(a, b);
    XorAssociates(a, b, c);
    XorZero(a);
    XorSelf(a);
  }

  /** Regrouping a sum of four. */
  lemma AddSwap(a: Byte, b: Byte, c: Byte, d: Byte)
    ensures Add(Add(a, b), Add(c, d)) == Add(Add(a, c), Add(b, d))
  {
    AddLaws(a, b, Add(c, d));
    AddLaws(b, c, d);
    AddLaws(c, b, d);
    AddLaws(a, c, Add(b, d));
  }

  /** Adding the same element twice cancels. */
  lemma AddCancels(a: Byte, b: Byte)
    ensures Add(Add(a, b), b) == a
    ensures Add(a, Add(a, b)) == b
    ensures Add(a, b) == 0 <==> a == b
  {
    AddLaws(a, b, b);
    AddLaws(b, b, b);
    AddLaws(a, a, b);
    AddLaws(b, a, a);
    AddLaws(a, 0, 0);
  }

  // ---------- multiplication ----------

  /** Multiplication by x: a shift, reduced by the field polynomial 0x11d. */
  function Shift(a: Byte): Byte {
    if a < 128 then 2 * a else Add(2 * a - 256, 0x1d)
  }

  /** The term that the lowest bit of b selects. */
  function Term(a: Byte, b: Byte): Byte {
    if b % 2 == 1 then a else 0
  }

  /** Schoolbook multiplication, one bit of b at a time. */
  function Mul(a: Byte, b: Byte): Byte
    decreases b
  {
    if b == 0 then 0 else Add(Term(a, b), Mul(Shift(a), b / 2))
  }

  lemma MulStep(a: Byte, b: Byte)
    ensures Mul(a, b) == Add(Term(a, b), Mul(Shift(a), b / 2))
  {
    if b == 0 {
      AddLaws(0, 0, 0);
    }
  }

  lemma ShiftAdd(a: Byte, b: Byte)
    ensures Shift(Add(a, b)) == Add(Shift(a), Shift(b))
  {
    hide Xor;
    if a < 128 && b < 128 {
      ShiftAddLow(a, b);
    } else if a < 128 {
      ShiftAddMixed(b - 128, a);
      AddLaws(a, b, 0);
      AddLaws(Shift(a), Shift(b), 0);
    } else if b < 128 {
      ShiftAddMixed(a - 128, b);
    } else {
      var low, low' := a - 128, b - 128;
      TopsCancel(low, low');
      ShiftAddLow(low, low');
      AddSwap(2 * low, 0x1d, 2 * low', 0x1d);
      AddLaws(0x1d, 0, 0);
      AddLaws(Add(2 * low, 2 * low'), 0, 0);
    }
  }

  lemma ShiftAddLow(a: Byte, b: Byte)
    requires a < 128 && b < 128
    ensures Add(a, b) < 128
    ensures Shift(Add(a, b)) == 2 * Add(a, b) == Add(2 * a, 2 * b)
  {
    hide Xor;
    ByteLimit();
    XorBelow(a, b, 128);
    XorParts(2 * a, 2 * b);
    assert 2 * a / 2 == a && 2 * b / 2 == b;
  }

  lemma ShiftAddMixed(low: Byte, b: Byte)
    requires low < 128 && b < 128
    ensures Shift(Add(low + 128, b)) == Add(Shift(low + 128), Shift(b))
  {
    hide Xor;
    ByteLimit();
    XorTop(low, b, 128);
    ShiftAddLow(low, b);
    AddLaws(2 * low, 0x1d, 2 * b);
    AddLaws(0x1d, 2 * b, 0);
    AddLaws(2 * low, 2 * b, 0x1d);
  }

  lemma TopsCancel(a: Byte, b: Byte)
    requires a < 128 && b < 128
    ensures Add(a + 128, b + 128) == Add(a, b)
  {
    TopBit(a);
    TopBit(b);
    AddSwap(a, 128, b, 128);
    AddLaws(128, 0, 0);
    AddLaws(Add(a, b), 0, 0);
  }

  lemma TopBit(a: Byte)
    requires a < 128
    ensures a + 128 == Add(a, 128)
  {
    hide Xor;
    ByteLimit();
    XorTop(0, a, 128);
    XorZero(a);
    XorCommutes(a, 128);
  }

  lemma TermAdd(a: Byte, b: Byte, c: Byte)
    ensures Add(b, c) / 2 == Add(b / 2, c / 2)
    ensures Term(a, Add(b, c)) == Add(Term(a, b), Term(a, c))
    ensures Term(Add(b, c), a) == Add(Term(b, a), Term(c, a))
  {
    hide Xor;
    XorParts(b, c);
    AddLaws(a, 0, 0);
    AddLaws(0, 0, 0);
    assert (b + c) % 2 == 1 <==> b % 2 != c % 2;
  }

  lemma {:induction false} MulAddRight(a: Byte, b: Byte, c: Byte)
    ensures Mul(a, Add(b, c)) == Add(Mul(a, b), Mul(a, c))
    decreases b + c
  {
    hide Xor;
    if b != 0 || c != 0 {
      MulAddRight(Shift(a), b / 2, c / 2);
      TermAdd(a, b, c);
      MulStep(a, b);
      MulStep(a, c);
      MulStep(a, Add(b, c));
      AddSwap(Term(a, b), Mul(Shift(a), b / 2), Term(a, c), Mul(Shift(a), c / 2));
    } else {
      AddLaws(0, 0, 0);
    }
  }

  lemma {:induction false} MulAddLeft(a: Byte, b: Byte, c: Byte)
    ensures Mul(Add(a, b), c) == Add(Mul(a, c), Mul(b, c))
    decreases c
  {
    if c != 0 {
      MulAddLeft(Shift(a), Shift(b), c / 2);
      ShiftAdd(a, b);
      AddSwap(Term(a, c), Mul(Shift(a), c / 2), Term(b, c), Mul(Shift(b), c / 2));
      TermAdd(c, a, b);
    } else {
      AddLaws(0, 0, 0);
    }
  }

  lemma {:induction false} MulShiftLeft(a: Byte, b: Byte)
    ensures Mul(Shift(a), b) == Shift(Mul(a, b))
    decreases b
  {
    if b != 0 {
      MulShiftLeft(Shift(a), b / 2);
      ShiftAdd(Term(a, b), Mul(Shift(a), b / 2));
      assert Term(Shift(a), b) == Shift(Term(a, b));
    }
  }

  lemma MulOne(a: Byte)
    ensures Mul(a, 1) == a && Mul(a, 0) == 0
  {
    MulStep(a, 1);
    AddLaws(a, 0, 0);
  }

  /** Every byte is its lowest bit plus a shifted byte. */
  lemma Halves(a: Byte)
    ensures a / 2 < 128 && a == Add(a % 2, Shift(a / 2))
  {
    XorParts(a % 2, 2 * (a / 2));
    XorZero(a / 2);
  }

  lemma {:induction false} MulOneLeft(a: Byte)
    ensures Mul(1, a) == a && Mul(0, a) == 0
    decreases a
  {
    if a != 0 {
      MulOneLeft(a / 2);
      MulShiftLeft(1, a / 2);
      Halves(a);
      AddLaws(0, 0, 0);
    }
  }

  function ShiftBy(a: Byte, n: nat): Byte {
    if n == 0 then a else Shift(ShiftBy(a, n - 1))
  }

  lemma {:induction false} ShiftByAdd(a: Byte, b: Byte, n: nat)
    ensures ShiftBy(Add(a, b), n) == Add(ShiftBy(a, n), ShiftBy(b, n))
  {
    if n > 0 {
      ShiftByAdd(a, b, n - 1);
      ShiftAdd(ShiftBy(a, n - 1), ShiftBy(b, n - 1));
    }
  }

  lemma {:induction false} ShiftByShift(a: Byte, n: nat)
    ensures ShiftBy(Shift(a), n) == Shift(ShiftBy(a, n))
  {
    if n > 0 {
      ShiftByShift(a, n - 1);
    }
  }

  /** Eight shifts come back around as the polynomial's tail. */
  lemma {:induction false} ShiftByEight(a: Byte)
    ensures ShiftBy(a, 8) == Mul(a, 0x1d)
    decreases a
  {
    hide Xor, Mul, Shift;
    if a < 2 {
      EightShiftsOfOne();
      MulOneLeft(0x1d);
    } else {
      var high := a / 2;
      ShiftByEight(high);
      ShiftByEight(a % 2);
      Halves(a);
      ShiftByAdd(a % 2, Shift(high), 8);
      ShiftByShift(high, 8);
      MulShiftLeft(high, 0x1d);
      MulAddLeft(a % 2, Shift(high), 0x1d);
    }
  }

  lemma EightShiftsOfOne()
    ensures ShiftBy(1, 8) == 0x1d && ShiftBy(0, 8) == 0
  {
    assert ShiftBy(1, 4) == 16;
    assert ShiftBy(1, 7) == 128;
    AddLaws(0x1d, 0, 0);
    assert ShiftBy(0, 4) == 0;
  }

  lemma MulTopBit(a: Byte)
    ensures Mul(a, 0x80) == ShiftBy(a, 7)
  {
    hide Xor;
    var a1 := Shift(a);
    var a2 := Shift(a1);
    var a3 := Shift(a2);
    MulStep(a, 0x80);
    MulStep(a1, 0x40);
    MulStep(a2, 0x20);
    MulTopNibble(a3);
    AddLaws(Mul(a1, 0x40), 0, 0);
    AddLaws(Mul(a2, 0x20), 0, 0);
    AddLaws(Mul(a3, 0x10), 0, 0);
    assert ShiftBy(a, 1) == a1;
    assert ShiftBy(a, 2) == a2;
    assert ShiftBy(a, 3) == a3;
    assert ShiftBy(a, 4) == Shift(a3);
    assert ShiftBy(a, 5) == Shift(Shift(a3));
    assert ShiftBy(a, 6) == Shift(Shift(Shift(a3)));
  }

  lemma MulTopNibble(a: Byte)
    ensures Mul(a, 0x10) == Shift(Shift(Shift(Shift(a))))
  {
    hide Xor;
    var a1 := Shift(a);
    var a2 := Shift(a1);
    var a3 := Shift(a2);
    var a4 := Shift(a3);
    MulStep(a, 0x10);
    MulStep(a1, 8);
    MulStep(a2, 4);
    MulStep(a3, 2);
    MulOne(a4);
    AddLaws(a4, 0, 0);
  }

  lemma MulDoubled(a: Byte, b: Byte)
    requires b < 128
    ensures Mul(a, 2 * b) == Mul(Shift(a), b)
  {
    hide Xor, Shift;
    MulStep(a, 2 * b);
    assert 2 * b / 2 == b;
    AddLaws(Mul(Shift(a), b), 0, 0);
  }

  lemma MulShiftRight(a: Byte, b: Byte)
    ensures Mul(a, Shift(b)) == Mul(Shift(a), b)
  {
    hide Xor, ShiftBy, Mul;
    if b < 128 {
      MulDoubled(a, b);
    } else {
      var low := b - 128;
      MulDoubled(a, low);
      TopBit(low);
      MulAddRight(Shift(a), low, 128);
      MulAddRight(a, 2 * low, 0x1d);
      MulTopBit(Shift(a));
      ShiftByEight(a);
      SevenThenOne(a);
    }
  }

  lemma SevenThenOne(a: Byte)
    ensures ShiftBy(Shift(a), 7) == ShiftBy(a, 8)
  {
    ShiftByShift(a, 7);
  }

  lemma {:induction false} MulCommutes(a: Byte, b: Byte)
    ensures Mul(a, b) == Mul(b, a)
    decreases b
  {
    hide Xor, Shift;
    if b == 0 {
      MulOneLeft(a);
    } else {
      var high := b / 2;
      MulCommutes(Shift(a), high);
      MulShiftRight(high, a);
      MulShiftLeft(high, a);
      Halves(b);
      MulAddLeft(b % 2, Shift(high), a);
      MulOneLeft(a);
    }
  }

  lemma {:induction false} MulAssociates(a: Byte, b: Byte, c: Byte)
    ensures Mul(Mul(a, b), c) == Mul(a, Mul(b, c))
    decreases c
  {
    hide Xor, Shift;
    if c != 0 {
      MulStep(b, c);
      MulStep(Mul(a, b), c);
      MulAddRight(a, Term(b, c), Mul(Shift(b), c / 2));
      MulShiftLeft(a, b);
      MulShiftRight(a, b);
      MulAssociates(a, Shift(b), c / 2);
      MulOne(a);
    } else {
      MulOne(a);
    }
  }

  /** The ring laws of multiplication, gathered. */
  lemma MulLaws(a: Byte, b: Byte, c: Byte)
    ensures Mul(a, b) == Mul(b, a)
    ensures Mul(Mul(a, b), c) == Mul(a, Mul(b, c))
    ensures Mul(a, Add(b, c)) == Add(Mul(a, b), Mul(a, c))
    ensures Mul(Add(a, b), c) == Add(Mul(a, c), Mul(b, c))
    ensures Mul(a, 1) == a && Mul(1, a) == a && Mul(a, 0) == 0 && Mul(0, a) == 0
  {
    hide Xor, Shift;
    MulCommutes(a, b);
    MulAssociates(a, b, c);
    MulAddRight(a, b, c);
    MulAddLeft(a, b, c);
    MulOne(a);
    MulOneLeft(a);
  }

  // ---------- the generator has order 255, so every non-zero byte is one of its powers ----------

  /** The powers of the generator x. */
  function Power(n: nat): Byte {
    ShiftBy(1, n)
  }

  lemma {:induction false} PowerAdds(m: nat, n: nat)
    ensures Mul(Power(m), Power(n)) == Power(m + n)
    decreases n
  {
    hide Xor, Shift;
    if n == 0 {
      MulOne(Power(m));
    } else {
      PowerAdds(m, n - 1);
      MulShiftRight(Power(m), Power(n - 1));
      MulShiftLeft(Power(m), Power(n - 1));
    }
  }

  lemma {:induction false} PowerNonZero(n: nat)
    ensures Power(n) != 0
  {
    if n > 0 {
      PowerNonZero(n - 1);
      ShiftNonZero(Power(n - 1));
    }
  }

  lemma ShiftNonZero(a: Byte)
    requires a != 0
    ensures Shift(a) != 0
  {
    hide Xor;
    if a >= 128 {
      XorParts(2 * a - 256, 0x1d);
    }
  }

  /** Adding the polynomial's tail to an even number below 32 flips all but its second bit. */
  lemma XorTail(l: nat)
    requires l < 32 && l % 2 == 0
    ensures Xor(l, 0x1d) == 29 + 4 * (l / 2 % 2) - l
  {
    hide Xor;
    var m := l / 2;
    var k := m / 2;
    XorParts(l, 29);
    XorParts(m, 14);
    XorOnes(k, 8);
    assert l == 2 * m && m == 2 * k + m % 2;
  }

  lemma {:induction false} XorOnes(l: nat, w: nat)
    requires PowerOfTwo(w) && l < w
    ensures Xor(l, w - 1) == w - 1 - l
    decreases w
  {
    hide Xor;
    XorParts(l, w - 1);
    if w == 1 {
      XorZero(0);
    } else {
      XorOnes(l / 2, w / 2);
      assert (w - 1) / 2 == w / 2 - 1;
    }
  }

  /** Shift in plain arithmetic. */
  function ShiftValue(a: Byte): int {
    if a < 128 then 2 * a else 2 * a - 256 + 29 + 4 * (a % 2) - 4 * (a % 16)
  }

  lemma ShiftArithmetic(a: Byte)
    ensures Shift(a) == ShiftValue(a)
  {
    if a >= 128 {
      ShiftHigh(a);
    }
  }

  lemma ShiftHigh(a: Byte)
    requires a >= 128
    ensures Shift(a) == ShiftValue(a)
  {
    hide Xor;
    var y := 2 * a - 256;
    var h, r := a / 16 - 8, a % 16;
    var l := 2 * r;
    assert y == h * 32 + l;
    assert l / 2 == r && r % 2 == a % 2;
    assert PowerOfTwo(32) by { ByteLimit(); }
    XorSplit(h, l, 29, 32);
    XorTail(l);
  }

  lemma PowerNext(n: nat, v: Byte)
    requires Power(n) == v
    ensures Power(n + 1) == ShiftValue(v)
  {
    ShiftArithmetic(v);
  }

  /** Squaring one more bit, in plain arithmetic. */
  lemma SquareStep(half: Byte, bit: nat, square: Byte)
    requires half < 128 && bit < 2 && Mul(half, half) == square
    ensures var s := ShiftValue(square);
            0 <= s < 256 && var t := ShiftValue(s);
            Mul(2 * half + bit, 2 * half + bit) == if bit == 0 then t else if t % 2 == 0 then t + 1 else t - 1
  {
    hide Xor, Shift, Mul;
    ShiftArithmetic(square);
    ShiftArithmetic(Shift(square));
    SquareOfDouble(half);
    if bit == 1 {
      OddByte(half);
      SquareOfSum(1, 2 * half);
      MulOne(1);
      ToggleLowest(Shift(Shift(square)));
    }
  }

  lemma SquareOfDouble(a: Byte)
    requires a < 128
    ensures Mul(2 * a, 2 * a) == Shift(Shift(Mul(a, a)))
  {
    assert Shift(a) == 2 * a;
    MulShiftLeft(a, Shift(a));
    MulShiftRight(a, a);
    MulShiftLeft(a, a);
  }

  lemma OddByte(half: Byte)
    requires half < 128
    ensures 2 * half + 1 == Add(1, 2 * half)
  {
    Halves(2 * half + 1);
    assert (2 * half + 1) / 2 == half && (2 * half + 1) % 2 == 1;
  }

  lemma SquareOfSum(a: Byte, b: Byte)
    ensures Mul(Add(a, b), Add(a, b)) == Add(Mul(a, a), Mul(b, b))
  {
    hide Xor, Shift, Mul;
    MulAddLeft(a, b, Add(a, b));
    MulAddRight(a, a, b);
    MulAddRight(b, a, b);
    MulCommutes(a, b);
    AddLaws(Mul(a, b), Mul(b, b), 0);
    AddSwap(Mul(a, a), Mul(a, b), Mul(b, b), Mul(a, b));
    AddLaws(Mul(a, b), 0, 0);
    AddLaws(Add(Mul(a, a), Mul(b, b)), 0, 0);
  }

  lemma ToggleLowest(a: Byte)
    ensures Add(1, a) == if a % 2 == 0 then a + 1 else a - 1
  {
    hide Xor;
    XorParts(1, a);
    XorZero(a / 2);
  }

  lemma Power16()
    requires Power(8) == 29
    ensures Power(16) == 76
  {
    hide Xor, Shift, ShiftBy, Mul, Power;
    MulOne(1);
    SquareStep(1, 1, 1); SquareStep(3, 1, 5); SquareStep(7, 0, 21); SquareStep(14, 1, 84);
    PowerAdds(8, 8);
  }

  lemma Power32()
    requires Power(16) == 76
    ensures Power(32) == 157
  {
    hide Xor, Shift, ShiftBy, Mul, Power;
    MulOne(1);
    SquareStep(1, 0, 1); SquareStep(2, 0, 4); SquareStep(4, 1, 16); SquareStep(9, 1, 65);
    SquareStep(19, 0, 24); SquareStep(38, 0, 96);
    PowerAdds(16, 16);
  }

  lemma Power64()
    requires Power(32) == 157
    ensures Power(64) == 95
  {
    hide Xor, Shift, ShiftBy, Mul, Power;
    MulOne(1);
    SquareStep(1, 0, 1); SquareStep(2, 0, 4); SquareStep(4, 1, 16); SquareStep(9, 1, 65);
    SquareStep(19, 1, 24); SquareStep(39, 0, 97); SquareStep(78, 1, 153);
    PowerAdds(32, 32);
  }

  lemma Power128()
    requires Power(64) == 95
    ensures Power(128) == 133
  {
    hide Xor, Shift, ShiftBy, Mul, Power;
    MulOne(1);
    SquareStep(1, 0, 1); SquareStep(2, 1, 4); SquareStep(5, 1, 17); SquareStep(11, 1, 69);
    SquareStep(23, 1, 8); SquareStep(47, 1, 33);
    PowerAdds(64, 64);
  }

  lemma Power256()
    requires Power(128) == 133
    ensures Power(256) == 2
  {
    hide Xor, Shift, ShiftBy, Mul, Power;
    MulOne(1);
    SquareStep(1, 0, 1); SquareStep(2, 0, 4); SquareStep(4, 0, 16); SquareStep(8, 0, 64);
    SquareStep(16, 1, 29); SquareStep(33, 0, 117); SquareStep(66, 1, 201);
    PowerAdds(128, 128);
  }

  /** The powers that decide the generator's order. */
  lemma SomePowers()
    ensures Power(1) == 2 && Power(13) == 135 && Power(16) == 0x4c && Power(64) == 0x5f && Power(256) == 2
  {
    assert Power(1) == 2;
    EightShiftsOfOne();
    Power16();
    Power32();
    Power64();
    Power128();
    Power256();
    PowersTo13();
  }

  lemma PowersTo13()
    requires Power(8) == 0x1d
    ensures Power(13) == 135
  {
    hide Xor, Shift, ShiftBy, Mul, Power;
    PowerNext(8, 29); PowerNext(9, 58); PowerNext(10, 116); PowerNext(11, 232);
    PowerNext(12, 205);
  }

  lemma PowersTo85()
    requires Power(64) == 0x5f
    ensures Power(85) == 0xd6
  {
    hide Xor, Shift, ShiftBy, Mul, Power;
    PowerNext(64, 95); PowerNext(65, 190); PowerNext(66, 97); PowerNext(67, 194);
    PowerNext(68, 153); PowerNext(69, 47); PowerNext(70, 94); PowerNext(71, 188);
    PowerNext(72, 101); PowerNext(73, 202); PowerNext(74, 137); PowerNext(75, 15);
    PowerNext(76, 30); PowerNext(77, 60); PowerNext(78, 120); PowerNext(79, 240);
    PowerNext(80, 253); PowerNext(81, 231); PowerNext(82, 211); PowerNext(83, 187);
    PowerNext(84, 107);
  }

  /** The exponents that give one are closed under subtraction. */
  lemma PowerCancels(n: nat, d: nat)
    requires d <= n && Power(d) == 1
    ensures Power(n) == Power(n - d)
  {
    PowerAdds(n - d, d);
    MulOne(Power(n - d));
  }

  lemma {:induction false} PowerOfMultiple(d: nat, m: nat)
    requires Power(d) == 1
    ensures Power(d * m) == 1
  {
    if m > 0 {
      PowerOfMultiple(d, m - 1);
      assert d * m == d * (m - 1) + d;
      PowerCancels(d * m, d);
    }
  }

  lemma {:induction false} Quotient(d: nat, n: nat) returns (q: nat)
    requires d > 0 && Power(d) == 1 && Power(n) == 1
    requires forall j :: 0 < j < d ==> Power(j) != 1
    ensures n == d * q
    decreases n
  {
    if n == 0 {
      q := 0;
    } else {
      assert n >= d;
      PowerCancels(n, d);
      q := Quotient(d, n - d);
      q := q + 1;
    }
  }

  lemma {:induction false} LeastCycle(k: nat) returns (d: nat)
    requires k > 0 && Power(k) == 1
    ensures 0 < d <= k && Power(d) == 1
    ensures forall j :: 0 < j < d ==> Power(j) != 1
    decreases k
  {
    if j :| 0 < j < k && Power(j) == 1 {
      d := LeastCycle(j);
    } else {
      d := k;
    }
  }

  lemma FullCycle()
    ensures Power(255) == 1
  {
    SomePowers();
    var u := Power(255);
    assert Power(256) == Shift(u) && Shift(1) == 2;
    ShiftAdd(u, 1);
    AddCancels(Shift(u), 2);
    AddCancels(u, 1);
    if Add(u, 1) != 0 {
      ShiftNonZero(Add(u, 1));
    }
  }

  /** A proper divisor of 255 divides 85, 51 or 15. */
  lemma Cofactors(d: nat, q: nat)
    requires d * q == 255 && q > 1
    ensures q % 3 == 0 || q % 5 == 0 || q % 17 == 0
  {
    if d <= 15 {
      assert d == 1 || d == 2 || d == 3 || d == 4 || d == 5 || d == 6 || d == 7 || d == 8
          || d == 9 || d == 10 || d == 11 || d == 12 || d == 13 || d == 14 || d == 15;
    } else {
      assert q <= 15;
      assert q == 2 || q == 3 || q == 4 || q == 5 || q == 6 || q == 7 || q == 8
          || q == 9 || q == 10 || q == 11 || q == 12 || q == 13 || q == 14 || q == 15;
    }
  }

  /** The generator's cycle closes after 255 steps and not before. */
  lemma NoShortCycle(k: nat)
    requires 0 < k < 255
    ensures Power(k) != 1
  {
    if Power(k) == 1 {
      FullCycle();
      var d := LeastCycle(k);
      var q := Quotient(d, 255);
      NoProperDivisor(d, q);
    }
  }

  lemma NoProperDivisor(d: nat, q: nat)
    requires d * q == 255 && q > 1
    ensures Power(d) != 1
  {
    hide Power;
    if Power(d) == 1 {
      SomePowers();
      Cofactors(d, q);
      if q % 3 == 0 {
        Divisor(d, q, 3, 85);
        PowersTo85();
      } else if q % 5 == 0 {
        Divisor(d, q, 5, 51);
        PowerCancels(64, 51);
      } else {
        Divisor(d, q, 17, 15);
        PowerCancels(16, 15);
      }
    }
  }

  lemma Divisor(d: nat, q: nat, r: nat, n: nat)
    requires Power(d) == 1 && r > 0 && q % r == 0 && d * q == n * r
    ensures Power(n) == 1
  {
    hide Power;
    var m := q / r;
    assert q == m * r;
    assert d * q == (d * m) * r;
    assert d * m == n;
    PowerOfMultiple(d, m);
  }

  lemma PowerInjective(i: nat, j: nat)
    requires i < j < 255
    ensures Power(i) != Power(j)
  {
    if Power(i) == Power(j) {
      Unshift(i, j);
      NoShortCycle(j - i);
    }
  }

  lemma {:induction false} Unshift(i: nat, j: nat)
    requires i < j && Power(i) == Power(j)
    ensures Power(j - i) == 1
  {
    if i > 0 {
      var u, v := Power(i - 1), Power(j - 1);
      ShiftAdd(u, v);
      AddCancels(Shift(u), Shift(v));
      AddCancels(u, v);
      if Add(u, v) != 0 {
        ShiftNonZero(Add(u, v));
      }
      Unshift(i - 1, j - 1);
    }
  }

  ghost function PowersBelow(n: nat): set<nat> {
    if n == 0 then {} else PowersBelow(n - 1) + {Power(n - 1)}
  }

  lemma {:induction false} PowersBelowCount(n: nat)
    requires n <= 255
    ensures |PowersBelow(n)| == n
    ensures forall v :: v in PowersBelow(n) ==> 0 < v < 256 && exists i: nat :: i < n && Power(i) == v
  {
    if n > 0 {
      PowersBelowCount(n - 1);
      PowerNonZero(n - 1);
      if Power(n - 1) in PowersBelow(n - 1) {
        var i: nat :| i < n - 1 && Power(i) == Power(n - 1);
        PowerInjective(i, n - 1);
      }
      forall v | v in PowersBelow(n)
        ensures 0 < v < 256 && exists i: nat :: i < n && Power(i) == v
      {
        if v in PowersBelow(n - 1) {
          var i: nat :| i < n - 1 && Power(i) == v;
          assert i < n && Power(i) == v;
        } else {
          assert n - 1 < n && Power(n - 1) == v;
        }
      }
    }
  }

  /** Every non-zero byte is a power of the generator. */
  lemma EveryByteIsAPower(a: Byte)
    requires a != 0
    ensures exists i: nat :: i < 255 && Power(i) == a
  {
    PowersBelowCount(255);
    Naturals(255);
    SubsetOfSameSize(PowersBelow(255), UpTo(255));
    assert a in PowersBelow(255);
  }

  ghost function UpTo(n: nat): set<nat> {
    if n == 0 then {} else UpTo(n - 1) + {n}
  }

  lemma {:induction false} Naturals(n: nat)
    ensures |UpTo(n)| == n
    ensures forall v: nat :: v in UpTo(n) <==> 0 < v <= n
  {
    if n > 0 {
      Naturals(n - 1);
    }
  }

  lemma {:induction false} SubsetOfSameSize<T>(s: set<T>, t: set<T>)
    requires s <= t && |s| == |t|
    ensures s == t
  {
    if x :| x in t && x !in s {
      assert s <= t - {x};
      SubsetIsSmaller(s, t - {x});
    }
  }

  lemma {:induction false} SubsetIsSmaller<T>(s: set<T>, t: set<T>)
    requires s <= t
    ensures |s| <= |t|
  {
    if x :| x in s {
      SubsetIsSmaller(s - {x}, t - {x});
    }
  }

  /** The discrete logarithm, by search. */
  function Log(a: Byte): (i: nat)
    requires a != 0
    ensures i < 255 && Power(i) == a
  {
    EveryByteIsAPower(a);
    LogFrom(a, 0)
  }

  function LogFrom(a: Byte, from: nat): (i: nat)
    requires exists j: nat :: from <= j < 255 && Power(j) == a
    ensures i < 255 && Power(i) == a
    decreases 255 - from
  {
    if Power(from) == a then from else LogFrom(a, from + 1)
  }

  /** The multiplicative inverse; zero, which has none, is sent to zero. */
  function Inverse(a: Byte): Byte {
    if a == 0 then 0 else Power(255 - Log(a))
  }

  lemma InverseLaw(a: Byte)
    requires a != 0
    ensures Mul(a, Inverse(a)) == 1 && Inverse(a) != 0
  {
    hide Power, Mul, Xor;
    PowerAdds(Log(a), 255 - Log(a));
    PowerNonZero(255 - Log(a));
    FullCycle();
  }
}
