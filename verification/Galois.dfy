// The field GF(2^8/0x11D) of the error-correction code (ISO/IEC 18004:2015, section 7.5.2):
// addition is exclusive or, multiplication is the "Russian peasant" loop of reedSolomonMultiply.
module Galois {
  import opened Bch
  import opened Bits

  const ZERO: byte := [false, false, false, false, false, false, false, false]
  const ONE: byte := [false, false, false, false, false, false, false, true]
  const TWO: byte := [false, false, false, false, false, false, true, false]

  /** 0x11D without its leading bit, which cancels the bit shifted out. */
  const REDUCER: byte := [false, false, false, true, true, true, false, true]

  /** `bit * x` for a single bit. */
  function Gate(bit: bool, x: byte): byte {
    if bit then x else ZERO
  }

  /** One doubling step of the peasant loop: `(z << 1) ^ ((z >> 7) * 0x11D)`. */
  function Double(z: byte): byte {
    Xor(z[1..] + [false], Gate(z[0], REDUCER))
  }

  /** The field product; the bits of `y` are consumed most significant first. */
  function Mul(x: byte, y: seq<bool>): byte {
    if y == [] then ZERO else Xor(Double(Mul(x, y[..|y| - 1])), Gate(y[|y| - 1], x))
  }

  lemma DoubleOfXor(a: byte, b: byte)
    ensures Double(Xor(a, b)) == Xor(Double(a), Double(b))
  {
  }

  lemma DoubleZero()
    ensures Double(ZERO) == ZERO
  {
    XorLaws(ZERO, ZERO, ZERO);
    assert Zeros(8) == ZERO;
    assert ZERO[1..] + [false] == ZERO;
  }

  lemma GateOfXor(bit: bool, x: byte, y: byte)
    ensures Gate(bit, Xor(x, y)) == Xor(Gate(bit, x), Gate(bit, y))
  {
    XorLaws(ZERO, ZERO, ZERO);
    assert Zeros(8) == ZERO;
  }

  lemma GateOfBits(a: bool, b: bool, x: byte)
    ensures Gate(a != b, x) == Xor(Gate(a, x), Gate(b, x))
  {
    XorLaws(x, x, x);
    XorLaws(ZERO, ZERO, ZERO);
    assert Zeros(8) == ZERO;
  }

  // ---- bilinearity ----

  /** (x + y) * z == x * z + y * z. */
  lemma {:induction false} MulDistributesLeft(x: byte, y: byte, z: seq<bool>)
    ensures Mul(Xor(x, y), z) == Xor(Mul(x, z), Mul(y, z))
  {
    if z == [] {
      XorLaws(ZERO, ZERO, ZERO);
      assert Zeros(8) == ZERO;
    } else {
      var b, g := z[..|z| - 1], z[|z| - 1];
      MulDistributesLeft(x, y, b);
      DoubleOfXor(Mul(x, b), Mul(y, b));
      GateOfXor(g, x, y);
      XorMiddleSwap(Double(Mul(x, b)), Double(Mul(y, b)), Gate(g, x), Gate(g, y));
    }
  }

  /** x * (y + z) == x * y + x * z. */
  lemma {:induction false} MulDistributes(x: byte, y: seq<bool>, z: seq<bool>)
    requires |y| == |z|
    ensures Mul(x, Xor(y, z)) == Xor(Mul(x, y), Mul(x, z))
  {
    if y == [] {
      XorLaws(ZERO, ZERO, ZERO);
      assert Zeros(8) == ZERO;
    } else {
      var n := |y| - 1;
      MulDistributes(x, y[..n], z[..n]);
      assert Xor(y, z)[..n] == Xor(y[..n], z[..n]);
      DoubleOfXor(Mul(x, y[..n]), Mul(x, z[..n]));
      GateOfBits(y[n], z[n], x);
      XorMiddleSwap(Double(Mul(x, y[..n])), Double(Mul(x, z[..n])), Gate(y[n], x), Gate(z[n], x));
    }
  }

  // ---- units ----

  lemma {:induction false} MulZero(x: byte, zeros: seq<bool>)
    requires forall i :: 0 <= i < |zeros| ==> !zeros[i]
    ensures Mul(x, zeros) == ZERO
  {
    if zeros != [] {
      MulZero(x, zeros[..|zeros| - 1]);
      DoubleZero();
      XorLaws(ZERO, ZERO, ZERO);
      assert Zeros(8) == ZERO;
    }
  }

  lemma {:induction false} ZeroMul(y: seq<bool>)
    ensures Mul(ZERO, y) == ZERO
  {
    if y != [] {
      ZeroMul(y[..|y| - 1]);
      DoubleZero();
      XorLaws(ZERO, ZERO, ZERO);
      assert Zeros(8) == ZERO;
    }
  }

  /** Multiplying by one restores the bits consumed, padded on the left. */
  lemma {:induction false} OneMulPadded(y: seq<bool>)
    requires |y| <= 8
    ensures Mul(ONE, y) == Zeros(8 - |y|) + y
  {
    hide Double, Xor, Gate;
    if y != [] {
      var b := y[..|y| - 1];
      OneMulPadded(b);
      var z: byte := Zeros(8 - |b|) + b;
      ShiftIn(z, y[|y| - 1]);
      assert z[1..] == Zeros(8 - |y|) + b;
      assert z[1..] + [y[|y| - 1]] == Zeros(8 - |y|) + y;
    }
  }

  lemma ShiftIn(z: byte, bit: bool)
    requires !z[0]
    ensures Xor(Double(z), Gate(bit, ONE)) == z[1..] + [bit]
  {
    XorLaws(z[1..] + [false], ZERO, ZERO);
    assert Zeros(8) == ZERO;
    assert Double(z) == z[1..] + [false];
  }

  lemma OneMul(y: byte)
    ensures Mul(ONE, y) == y == Mul(y, ONE)
  {
    OneMulPadded(y);
    assert Zeros(0) + y == y;
    MulCommutes(ONE, y);
  }

  // ---- commutativity and associativity ----

  lemma {:induction false} DoubleMul(x: byte, y: seq<bool>)
    ensures Mul(Double(x), y) == Double(Mul(x, y))
  {
    DoubleZero();
    if y != [] {
      var b, g := y[..|y| - 1], y[|y| - 1];
      DoubleMul(x, b);
      DoubleOfXor(Double(Mul(x, b)), Gate(g, x));
      assert Double(Gate(g, x)) == Gate(g, Double(x));
    }
  }

  /** y is what the peasant loop makes of ONE, so x * y and y * x run the same loop. */
  lemma {:induction false} MulSwap(x: byte, y: seq<bool>)
    ensures Mul(x, y) == Mul(Mul(ONE, y), x)
  {
    ZeroMul(x);
    if y != [] {
      var b, g := y[..|y| - 1], y[|y| - 1];
      MulSwap(x, b);
      var h := Mul(ONE, b);
      MulDistributesLeft(Double(h), Gate(g, ONE), x);
      DoubleMul(h, x);
      OneMulPadded(x);
      assert Zeros(0) + x == x;
    }
  }

  lemma MulCommutes(x: byte, y: byte)
    ensures Mul(x, y) == Mul(y, x)
  {
    MulSwap(x, y);
    OneMulPadded(y);
    assert Zeros(0) + y == y;
  }

  lemma {:induction false} MulAssociates(x: byte, y: byte, z: seq<bool>)
    ensures Mul(x, Mul(y, z)) == Mul(Mul(x, y), z)
  {
    MulZero(x, ZERO);
    if z != [] {
      var b, g := z[..|z| - 1], z[|z| - 1];
      MulAssociates(x, y, b);
      MulDistributes(x, Double(Mul(y, b)), Gate(g, y));
      MulCommutes(x, Double(Mul(y, b)));
      DoubleMul(Mul(y, b), x);
      MulCommutes(Mul(y, b), x);
    }
  }

  // ---- the product of polynomials over GF(2) ----

  /** The sum of x[j] * y[t - j] for j below i, modulo two. */
  function Coefficient(x: seq<bool>, y: seq<bool>, t: nat, i: nat): bool
    requires i <= |x|
  {
    if i == 0 then false
    else Coefficient(x, y, t, i - 1) != (i - 1 <= t && t - (i - 1) < |y| && x[i - 1] && y[t - (i - 1)])
  }

  /** The product of two bit strings, taken as polynomials with their leading coefficients first. */
  function Product(x: seq<bool>, y: seq<bool>): (p: seq<bool>)
    requires |x| > 0 && |y| > 0
    ensures |p| == |x| + |y| - 1
  {
    seq(|x| + |y| - 1, t requires 0 <= t => Coefficient(x, y, t, |x|))
  }

  lemma {:induction false} CoefficientAppend(x: seq<bool>, y: seq<bool>, b: bool, t: nat, i: nat)
    requires i <= |x|
    ensures Coefficient(x, y + [b], t, i)
            == (Coefficient(x, y, t, i) != (|y| <= t && t - |y| < i && x[t - |y|] && b))
  {
    if i > 0 { CoefficientAppend(x, y, b, t, i - 1); }
  }

  lemma {:induction false} NoCoefficient(x: seq<bool>, y: seq<bool>, t: nat, i: nat)
    requires i <= |x| && (i == 0 || t - (i - 1) >= |y|)
    ensures !Coefficient(x, y, t, i)
  {
    if i > 0 { NoCoefficient(x, y, t, i - 1); }
  }

  /** A further factor bit doubles the product and adds x to it if it is set. */
  lemma ProductAppend(x: byte, y: seq<bool>, b: bool)
    requires |y| > 0
    ensures Product(x, y + [b]) == Xor(Product(x, y) + [false], Zeros(|y|) + Gate(b, x))
  {
    hide Coefficient;
    var p, q := Product(x, y + [b]), Xor(Product(x, y) + [false], Zeros(|y|) + Gate(b, x));
    forall t | 0 <= t < |p|
      ensures p[t] == q[t]
    {
      CoefficientAppend(x, y, b, t, 8);
      if t == |p| - 1 { NoCoefficient(x, y, t, 8); }
    }
  }

  lemma ProductOfBit(x: byte, b: bool)
    ensures Product(x, [b]) == Gate(b, x)
  {
    hide Coefficient;
    var p := Product(x, [b]);
    forall t | 0 <= t < 8
      ensures p[t] == Gate(b, x)[t]
    {
      CoefficientAppend(x, [], b, t, 8);
      NoProduct(x, t, 8);
      assert [] + [b] == [b];
    }
  }

  lemma {:induction false} NoProduct(x: seq<bool>, t: nat, i: nat)
    requires i <= |x|
    ensures !Coefficient(x, [], t, i)
  {
    if i > 0 { NoProduct(x, t, i - 1); }
  }

  lemma DoubleIsShifted(z: byte)
    ensures Shifted(z, REDUCER, false) == Double(z)
  {
    assert Zeros(8) == ZERO;
  }

  /** The field product is the product of the polynomials modulo x^8 + x^4 + x^3 + x^2 + 1. */
  lemma {:induction false} MulIsProduct(x: byte, y: seq<bool>)
    requires |y| > 0
    ensures Mul(x, y) == Modulo(Product(x, y), REDUCER)
  {
    hide Modulo, Product, Double, Shifted, Gate;
    var n := |y| - 1;
    var b := y[n];
    if n == 0 {
      assert y == [b] && y[..0] == [];
      ProductOfBit(x, b);
      ModuloOfShort(Gate(b, x), REDUCER);
      DoubleZero();
      XorLaws(Gate(b, x), ZERO, ZERO);
      assert Zeros(8) == ZERO;
    } else {
      MulIsProduct(x, y[..n]);
      var p := Product(x, y[..n]);
      assert y == y[..n] + [b];
      ProductAppend(x, y[..n], b);
      ModuloXor(p + [false], Zeros(n) + Gate(b, x), REDUCER);
      ModuloAppend(p, REDUCER, false);
      DoubleIsShifted(Mul(x, y[..n]));
      LeadingZeros(n, Gate(b, x), REDUCER);
      ModuloOfShort(Gate(b, x), REDUCER);
    }
  }

  /** The shift-and-reduce loop; bit i of y is `(y >> i) & 1`. */
  method Multiply(x: byte, y: byte) returns (z: byte)
    ensures z == Mul(x, y) == Modulo(Product(x, y), REDUCER)
  {
    MulIsProduct(x, y);
    z := ZERO;
    var i := 7;
    while i >= 0
      invariant -1 <= i <= 7
      invariant z == Mul(x, y[..7 - i])
    {
      z := Double(z);
      z := Xor(z, Gate(y[7 - i], x));
      assert y[..8 - i][..7 - i] == y[..7 - i];
      i := i - 1;
    }
    assert y[..8] == y;
  }
}
