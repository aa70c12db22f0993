/** The coefficients a repair applies, regenerated at both ends from its identity. */
module Coefficients {
  import opened GaloisField
  import opened SymbolIds

  const MULTIPLIER_A: nat := 2654435761
  const MULTIPLIER_B: nat := 2246822519

  /** Folds a 32-bit word's high bits into its low ones. */
  function Fold(x: Id, divisor: nat): (r: Id)
    requires divisor == 0x8000 || divisor == 0x2000 || divisor == 0x1_0000
  {
    WordLimit();
    FoldShrinks(x, divisor);
    XorBelow(x, x / divisor, MODULUS);
    Xor(x, x / divisor)
  }

  lemma FoldShrinks(x: nat, divisor: nat)
    requires divisor == 0x8000 || divisor == 0x2000 || divisor == 0x1_0000
    ensures x / divisor <= x
  {
  }

  lemma Doubled(n: nat)
    requires PowerOfTwo(n)
    ensures PowerOfTwo(2 * n)
  {
    assert 2 * n / 2 == n;
  }

  lemma TimesSixteen(n: nat)
    requires PowerOfTwo(n)
    ensures PowerOfTwo(16 * n)
  {
    hide PowerOfTwo;
    Doubled(n);
    Doubled(2 * n);
    Doubled(4 * n);
    Doubled(8 * n);
  }

  lemma WordLimit()
    ensures PowerOfTwo(MODULUS)
  {
    hide PowerOfTwo;
    ByteLimit();
    TimesSixteen(0x100);
    TimesSixteen(0x1000);
    TimesSixteen(0x1_0000);
    TimesSixteen(0x10_0000);
    TimesSixteen(0x100_0000);
    TimesSixteen(0x1000_0000);
  }

  /** The multiplier that repair rid applies to the index'th symbol of its window; never zero. */
  function WindowCoefficient(rid: Id, index: nat): (c: Byte)
    ensures c != 0
  {
    var x0 := Wrap(rid * MULTIPLIER_A + index * MULTIPLIER_B);
    var x1 := Wrap(Fold(x0, 0x8000) * MULTIPLIER_A);
    var x2 := Wrap(Fold(x1, 0x2000) * MULTIPLIER_B);
    Fold(x2, 0x1_0000) % 255 + 1
  }

  /** The row of coefficients of a repair over count symbols, lowest first. */
  function WindowCoefficients(rid: Id, count: nat): (row: seq<Byte>)
    ensures |row| == count && forall i :: 0 <= i < count ==> row[i] == WindowCoefficient(rid, i) && row[i] != 0
  {
    seq(count, i requires 0 <= i < count => WindowCoefficient(rid, i))
  }

  // ---------- the first row ----------

  /** The lowest bit of an exclusive or. */
  function Low(a: nat, b: nat): nat {
    (a + b) % 2
  }

  lemma XorBit(a: nat, b: nat)
    ensures Xor(a, b) == 2 * Xor(a / 2, b / 2) + Low(a, b)
  {
  }

  lemma Halves(a: nat)
    ensures a / 2 / 2 == a / 4 && a / 4 / 2 == a / 8 && a / 8 / 2 == a / 16
  {
  }

  lemma XorNext(a: nat, b: nat, c: nat, d: nat)
    requires c == a / 2 && d == b / 2
    ensures Xor(a, b) == 2 * Xor(c, d) + Low(a, b)
  {
    hide Xor, Low;
    XorBit(a, b);
  }

  /** An exclusive or, one hexadecimal digit at a time. */
  lemma XorHex(a: nat, b: nat, c: nat)
    requires c == 16 * Xor(a / 16, b / 16) + 8 * Low(a / 8, b / 8) + 4 * Low(a / 4, b / 4) + 2 * Low(a / 2, b / 2)
             + Low(a, b)
    ensures Xor(a, b) == c
  {
    hide Xor, Low;
    Halves(a);
    Halves(b);
    XorNext(a, b, a / 2, b / 2);
    XorNext(a / 2, b / 2, a / 4, b / 4);
    XorNext(a / 4, b / 4, a / 8, b / 8);
    XorNext(a / 8, b / 8, a / 16, b / 16);
  }

  lemma FirstFold()
    ensures Xor(0x85ebca77, 0x10bd7) == 0x85eac1a0
  {
    hide Xor;
    XorZero(0);
    assert Xor(0x8, 0x0) == 0x8 by { XorHex(0x8, 0x0, 0x8); }
    assert Xor(0x85, 0x0) == 0x85 by { XorHex(0x85, 0x0, 0x85); }
    assert Xor(0x85e, 0x0) == 0x85e by { XorHex(0x85e, 0x0, 0x85e); }
    assert Xor(0x85eb, 0x1) == 0x85ea by { XorHex(0x85eb, 0x1, 0x85ea); }
    assert Xor(0x85ebc, 0x10) == 0x85eac by { XorHex(0x85ebc, 0x10, 0x85eac); }
    assert Xor(0x85ebca, 0x10b) == 0x85eac1 by { XorHex(0x85ebca, 0x10b, 0x85eac1); }
    assert Xor(0x85ebca7, 0x10bd) == 0x85eac1a by { XorHex(0x85ebca7, 0x10bd, 0x85eac1a); }
    assert Xor(0x85ebca77, 0x10bd7) == 0x85eac1a0 by { XorHex(0x85ebca77, 0x10bd7, 0x85eac1a0); }
  }

  lemma SecondFold()
    ensures Xor(0xe6347fa0, 0x731a3) == 0xe6334e03
  {
    hide Xor;
    XorZero(0);
    assert Xor(0xe, 0x0) == 0xe by { XorHex(0xe, 0x0, 0xe); }
    assert Xor(0xe6, 0x0) == 0xe6 by { XorHex(0xe6, 0x0, 0xe6); }
    assert Xor(0xe63, 0x0) == 0xe63 by { XorHex(0xe63, 0x0, 0xe63); }
    assert Xor(0xe634, 0x7) == 0xe633 by { XorHex(0xe634, 0x7, 0xe633); }
    assert Xor(0xe6347, 0x73) == 0xe6334 by { XorHex(0xe6347, 0x73, 0xe6334); }
    assert Xor(0xe6347f, 0x731) == 0xe6334e by { XorHex(0xe6347f, 0x731, 0xe6334e); }
    assert Xor(0xe6347fa, 0x731a) == 0xe6334e0 by { XorHex(0xe6347fa, 0x731a, 0xe6334e0); }
    assert Xor(0xe6347fa0, 0x731a3) == 0xe6334e03 by { XorHex(0xe6347fa0, 0x731a3, 0xe6334e03); }
  }

  lemma ThirdFold()
    ensures Xor(0xa928a165, 0xa928) == 0xa928084d
  {
    hide Xor;
    XorZero(0);
    assert Xor(0xa, 0x0) == 0xa by { XorHex(0xa, 0x0, 0xa); }
    assert Xor(0xa9, 0x0) == 0xa9 by { XorHex(0xa9, 0x0, 0xa9); }
    assert Xor(0xa92, 0x0) == 0xa92 by { XorHex(0xa92, 0x0, 0xa92); }
    assert Xor(0xa928, 0x0) == 0xa928 by { XorHex(0xa928, 0x0, 0xa928); }
    assert Xor(0xa928a, 0xa) == 0xa9280 by { XorHex(0xa928a, 0xa, 0xa9280); }
    assert Xor(0xa928a1, 0xa9) == 0xa92808 by { XorHex(0xa928a1, 0xa9, 0xa92808); }
    assert Xor(0xa928a16, 0xa92) == 0xa928084 by { XorHex(0xa928a16, 0xa92, 0xa928084); }
    assert Xor(0xa928a165, 0xa928) == 0xa928084d by { XorHex(0xa928a165, 0xa928, 0xa928084d); }
  }

  lemma FoldIs(x: Id, divisor: nat, high: nat)
    requires divisor == 0x8000 || divisor == 0x2000 || divisor == 0x1_0000
    requires high == x / divisor
    ensures Fold(x, divisor) == Xor(x, high)
  {
    hide Xor;
  }

  /** The first two multipliers of repair 0. */
  lemma FirstRow()
    ensures WindowCoefficient(0, 0) == 1 && WindowCoefficient(0, 1) == 40
  {
    hide WindowCoefficient;
    FirstOfRow();
    SecondOfRow();
  }

  lemma FirstOfRow()
    ensures WindowCoefficient(0, 0) == 1
  {
    hide Fold, Xor;
    XorZero(0);
    FoldIs(0, 0x8000, 0);
    FoldIs(0, 0x2000, 0);
    FoldIs(0, 0x1_0000, 0);
  }

  lemma SecondOfRow()
    ensures WindowCoefficient(0, 1) == 40
  {
    hide Fold, Xor, Wrap;
    FirstFold();
    FoldIs(0x85ebca77, 0x8000, 0x10bd7);
    SecondFold();
    FoldIs(0xe6347fa0, 0x2000, 0x731a3);
    ThirdFold();
    FoldIs(0xa928a165, 0x1_0000, 0xa928);
    Products();
  }

  lemma Products()
    ensures Wrap(0 * MULTIPLIER_A + 1 * MULTIPLIER_B) == 0x85ebca77
    ensures Wrap(0x85eac1a0 * MULTIPLIER_A) == 0xe6347fa0 && Wrap(0xe6334e03 * MULTIPLIER_B) == 0xa928a165
  {
  }
}
