/**
 The tables the program multiplies with: powers of the generator, discrete
 logarithms, and the full product table filled from them.
 */
module GaloisTables {
  import opened GaloisField
  import opened LinearSystem

  class Tables {
    const exp: array<Byte>
    const log: array<Byte>
    const mul: array2<Byte>

    ghost predicate Valid()
      reads exp, log, mul
    {
      && exp.Length == 512 && Powers(exp[..], 512)
      && log.Length == 256 && (forall a: Byte :: a != 0 ==> log[a] == Log(a))
      && mul.Length0 == mul.Length1 == 256 && (forall a: Byte, b: Byte :: mul[a, b] == Mul(a, b))
    }

    /** Fills the tables. */
    constructor ()
      ensures Valid() && fresh(exp) && fresh(log) && fresh(mul)
    {
      exp := new Byte[512](_ => 0);
      log := new Byte[256](_ => 0);
      mul := new Byte[256, 256]((_, _) => 0);
      new;
      FillPowers(exp, log);
      FillProducts(exp, log, mul);
    }

    /** The multiplicative inverse by lookup; zero for zero. */
    method Inv(a: Byte) returns (r: Byte)
      requires Valid()
      ensures r == Inverse(a)
      ensures a != 0 ==> Mul(a, r) == 1
    {
      hide Mul, Log;
      if a == 0 {
        return 0;
      }
      InverseLaw(a);
      assert 0 <= log[a] < 255;
      r := exp[255 - log[a]];
      assert r == Power(255 - log[a]) by { PowersAt(exp[..], 512, 255 - log[a]); }
    }

    /** Accumulates coefficient times input into output, byte by byte. */
    method MulSliceXor(coefficient: Byte, input: array<Byte>, output: array<Byte>)
      requires Valid() && input.Length >= output.Length
      requires output != exp && output != log
      modifies output
      ensures output[..] == AddScaled(coefficient, old(input[..]), old(output[..]))
    {
      hide Mul, Add;
      ghost var was, given := output[..], input[..];
      AddScaledByZeroOrOne(given, was);
      if coefficient == 0 {
        return;
      }
      ghost var spec := AddScaled(coefficient, given, was);
      var i := 0;
      while i < output.Length
        invariant i <= output.Length
        invariant forall k :: 0 <= k < i ==> output[k] == spec[k]
        invariant forall k :: i <= k < output.Length ==> output[k] == was[k]
        invariant forall k :: i <= k < input.Length ==> input[k] == given[k]
        invariant Valid()
      {
        if coefficient == 1 {
          output[i] := Add(output[i], input[i]);
        } else {
          output[i] := Add(output[i], mul[coefficient, input[i]]);
        }
        i := i + 1;
      }
    }
  }

  /** The first n entries are the powers of the generator. */
  ghost predicate Powers(table: seq<Byte>, n: nat) {
    n <= |table| && forall i :: 0 <= i < n ==> table[i] == Power(i)
  }

  lemma PowersAt(table: seq<Byte>, n: nat, i: nat)
    requires Powers(table, n) && i < n
    ensures table[i] == Power(i)
  {
  }

  lemma AddScaledByZeroOrOne(u: Vector, v: Vector)
    ensures |v| <= |u| ==> AddScaled(0, u, v) == v
    ensures forall i :: 0 <= i < |v| && i < |u| ==> AddScaled(1, u, v)[i] == Add(v[i], u[i])
  {
    hide Mul, Add;
    forall i | 0 <= i < |v| && i < |u|
      ensures Mul(0, u[i]) == 0 && Mul(1, u[i]) == u[i] && Add(v[i], 0) == v[i]
    {
      MulLaws(u[i], 0, 0);
      AddLaws(v[i], 0, 0);
    }
  }

  /** The power table, doubled in length, and the logarithm of every non-zero byte. */
  method FillPowers(exp: array<Byte>, log: array<Byte>)
    requires exp.Length == 512 && log.Length == 256 && exp != log
    modifies exp, log
    ensures Powers(exp[..], 512)
    ensures forall a: Byte :: a != 0 ==> log[a] == Log(a)
  {
    FillFirstCycle(exp, log);
    var i := 255;
    while i < 512
      invariant 255 <= i <= 512 && Powers(exp[..], i)
      invariant forall a: Byte :: a != 0 ==> log[a] == Log(a)
      modifies exp
    {
      hide Log, Power;
      Period(i);
      PowersAt(exp[..], i, i - 255);
      exp[i] := exp[i - 255];
      i := i + 1;
    }
  }

  lemma Period(i: nat)
    requires i >= 255
    ensures Power(i) == Power(i - 255)
  {
    hide Power;
    FullCycle();
    PowerCancels(i, 255);
  }

  method FillFirstCycle(exp: array<Byte>, log: array<Byte>)
    requires exp.Length == 512 && log.Length == 256 && exp != log
    modifies exp, log
    ensures Powers(exp[..], 255)
    ensures forall a: Byte :: a != 0 ==> log[a] == Log(a)
  {
    var x: nat := 1;
    var i: nat := 0;
    assert Power(0) == 1;
    while i < 255
      invariant i <= 255 && x < 256 && x == Power(i) && Powers(exp[..], i)
      invariant forall a: Byte :: a != 0 && Log(a) < i ==> log[a] == Log(a)
    {
      hide Power, Log, Xor;
      PowerNonZero(i);
      LogOfPower(i);
      exp[i] := x;
      log[x] := i;
      NextPower(i);
      x := 2 * x;
      if x >= 256 {
        x := Xor(x, 0x11d);
      }
      i := i + 1;
    }
  }

  lemma LogOfPower(i: nat)
    requires i < 255 && Power(i) != 0
    ensures Log(Power(i)) == i && forall a: Byte :: a != 0 && Log(a) == i ==> a == Power(i)
  {
    hide Power, Log;
    var j := Log(Power(i));
    if j < i {
      PowerInjective(j, i);
    } else if i < j {
      PowerInjective(i, j);
    }
  }

  /** Shifting a nine-bit word and folding its overflow is one step of the generator. */
  lemma NextPower(i: nat)
    ensures var x := 2 * Power(i); Power(i + 1) == if x >= 256 then Xor(x, 0x11d) else x
  {
    hide Xor;
    var a: nat := Power(i);
    assert Power(i + 1) == Shift(a);
    if a >= 128 {
      FoldOverflow(2 * a - 256);
    }
  }

  lemma FoldOverflow(y: nat)
    requires y < 256
    ensures Xor(y + 256, 0x11d) == Xor(y, 0x1d)
  {
    hide Xor;
    assert PowerOfTwo(256) by { ByteLimit(); }
    XorTop(y, 0x1d, 256);
    XorCommutes(y, 0x1d);
    XorTop(0x1d, y, 256);
    XorTop(0, y, 256);
    XorTop(0, 0x1d, 256);
    XorZero(y);
    XorZero(0x1d);
    assert y + 256 == Xor(256, y) && 0x11d == Xor(256, 0x1d);
    XorCommutes(256, y);
    XorAssociates(y, 256, Xor(256, 0x1d));
    XorAssociates(256, 256, 0x1d);
    XorSelf(256);
  }

  /** The product table, from sums of logarithms. */
  method FillProducts(exp: array<Byte>, log: array<Byte>, mul: array2<Byte>)
    requires exp.Length == 512 && log.Length == 256 && mul.Length0 == mul.Length1 == 256
    requires Powers(exp[..], 512)
    requires forall a: Byte :: a != 0 ==> log[a] == Log(a)
    requires forall a: Byte, b: Byte :: mul[a, b] == 0
    modifies mul
    ensures forall a: Byte, b: Byte :: mul[a, b] == Mul(a, b)
  {
    hide Mul, Log, Power;
    ZeroProducts();
    var a: nat := 1;
    while a < 256
      invariant 1 <= a <= 256
      invariant forall c: Byte, d: Byte :: c < a ==> mul[c, d] == Mul(c, d)
      invariant forall c: Byte, d: Byte :: a <= c ==> mul[c, d] == 0
    {
      var b: nat := 1;
      while b < 256
        invariant 1 <= b <= 256
        invariant forall c: Byte, d: Byte :: c < a || (c == a && d < b) ==> mul[c, d] == Mul(c, d)
        invariant forall c: Byte, d: Byte :: a < c || (c == a && b <= d) ==> mul[c, d] == 0
      {
        ProductByLogs(a, b);
        var sum: nat := log[a] as nat + log[b] as nat;
        PowersAt(exp[..], 512, sum);
        mul[a, b] := exp[sum];
        b := b + 1;
      }
      a := a + 1;
    }
  }

  lemma ZeroProducts()
    ensures forall a: Byte :: Mul(a, 0) == 0 && Mul(0, a) == 0
  {
    hide Mul, Add;
    forall a: Byte
      ensures Mul(a, 0) == 0 && Mul(0, a) == 0
    {
      MulLaws(a, 0, 0);
    }
  }

  lemma ProductByLogs(a: Byte, b: Byte)
    requires a != 0 && b != 0
    ensures Mul(a, b) == Power(Log(a) + Log(b)) && Log(a) + Log(b) < 512
  {
    hide Mul, Power;
    PowerAdds(Log(a), Log(b));
  }
}
