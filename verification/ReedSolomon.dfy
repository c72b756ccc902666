// Reed-Solomon error-correction codewords (ISO/IEC 18004:2015, section 7.5.2). A polynomial over the
// field is the sequence of its coefficients, highest power first.
module ReedSolomon {
  import opened Bits
  import opened Galois
  import opened Options

  type Poly = seq<byte>

  // ---- reference algebra ----

  function PolyXor(p: Poly, q: Poly): (s: Poly)
    requires |p| == |q|
    ensures |s| == |p|
  {
    seq(|p|, i requires 0 <= i < |p| => var c: byte := Xor(p[i], q[i]); c)
  }

  function Scale(p: Poly, c: byte): (s: Poly)
    ensures |s| == |p|
  {
    seq(|p|, i requires 0 <= i < |p| => Mul(p[i], c))
  }

  function ZeroPoly(n: nat): (z: Poly)
    ensures |z| == n
  {
    seq(n, i => ZERO)
  }

  /** The value of the polynomial at `x`, by Horner's rule. */
  function Eval(p: Poly, x: byte): byte {
    if p == [] then ZERO else Xor(Mul(Eval(p[..|p| - 1], x), x), p[|p| - 1])
  }

  function Power(x: byte, n: nat): byte {
    if n == 0 then ONE else Mul(Power(x, n - 1), x)
  }

  /** The generator's i-th root, 2^i. */
  function Root(i: nat): byte {
    Power(TWO, i)
  }

  /** (x - root) * p. */
  function TimesRoot(p: Poly, root: byte): (q: Poly)
    ensures |q| == |p| + 1
  {
    PolyXor(p + [ZERO], [ZERO] + Scale(p, root))
  }

  /** (x - 2^0)(x - 2^1)...(x - 2^(degree - 1)). */
  function Generator(degree: nat): (g: Poly)
    ensures |g| == degree + 1
    ensures g[0] == ONE
  {
    if degree == 0 then [ONE]
    else
      var p := Generator(degree - 1);
      XorLaws(ONE, ONE, ONE);
      assert Zeros(8) == ZERO;
      TimesRoot(p, Root(degree - 1))
  }

  // ---- the generator, computed in place ----

  /** One pass of the in-place loop: old coefficient times the root, plus its right neighbour. */
  function InPlaceStep(c: Poly, root: byte): (s: Poly)
    requires |c| > 0
    ensures |s| == |c|
  {
    PolyXor(Scale(c, root), c[1..] + [ZERO])
  }

  /** The low `n` coefficients of p, which has at most one more than that. */
  function Low(p: Poly, n: nat): (l: Poly)
    requires |p| <= n + 1
    ensures |l| == n
  {
    if |p| == n + 1 then p[1..] else ZeroPoly(n - |p|) + p
  }

  /** While the product is still shorter than the array, its leading one lives inside the array. */
  lemma StepKeepsLow(p: Poly, root: byte, n: nat)
    requires 0 < |p| <= n
    ensures InPlaceStep(Low(p, n), root) == Low(TimesRoot(p, root), n)
  {
    hide Mul;
    var c := Low(p, n);
    var k := n - |p|;
    ZeroMul(root);
    XorLaws(ZERO, ZERO, ZERO);
    assert Zeros(8) == ZERO;
    var lhs, rhs := InPlaceStep(c, root), Low(TimesRoot(p, root), n);
    forall i | 0 <= i < n
      ensures lhs[i] == rhs[i]
    {
      var next := (c[1..] + [ZERO])[i];
      assert lhs[i] == Xor(Mul(c[i], root), next);
      if i + 1 < k {
      } else {
        var j := i + 1 - k;
        assert rhs[i] == TimesRoot(p, root)[j];
        assert next == (p + [ZERO])[j];
        assert Mul(c[i], root) == ([ZERO] + Scale(p, root))[j];
        XorLaws(next, Mul(c[i], root), ZERO);
      }
    }
  }

  /** The inner loop: each coefficient is overwritten before its left neighbour would be needed again. */
  method MultiplyInPlace(c: array<byte>, root: byte)
    requires c.Length > 0
    modifies c
    ensures c[..] == InPlaceStep(old(c[..]), root)
  {
    ghost var was := c[..];
    for j := 0 to c.Length
      invariant forall t :: 0 <= t < j ==> c[t] == InPlaceStep(was, root)[t]
      invariant forall t :: j <= t < c.Length ==> c[t] == was[t]
    {
      var m := Multiply(c[j], root);
      if j + 1 < c.Length {
        m := Xor(m, c[j + 1]);
      } else {
        XorZero(m);
      }
      c[j] := m;
    }
  }

  lemma XorZero(x: byte)
    ensures Xor(x, ZERO) == x == Xor(ZERO, x)
  {
  }

  lemma DivisorStarts(c: Poly, n: nat)
    requires |c| == n > 0 && c[n - 1] == ONE && forall i :: 0 <= i < n - 1 ==> c[i] == ZERO
    ensures c == Low(Generator(0), n) && Root(0) == ONE
  {
  }

  lemma DivisorGrows(i: nat)
    ensures Generator(i + 1) == TimesRoot(Generator(i), Root(i)) && Root(i + 1) == Mul(Root(i), TWO)
  {
  }

  lemma DivisorEnds(c: Poly, n: nat)
    requires c == Low(Generator(n), n)
    ensures [ONE] + c == Generator(n)
  {
  }

  /** The coefficients of the generator of the given degree without its leading one. */
  method ComputeDivisor(degree: int) returns (divisor: Option<Poly>)
    ensures divisor.None? <==> degree < 1 || degree > 255
    ensures divisor.Some? ==> [ONE] + divisor.value == Generator(degree)
  {
    hide Generator, Root, Low, TimesRoot, InPlaceStep, Mul;
    if degree < 1 || degree > 255 {
      return None;
    }
    var result := new byte[degree](i => ZERO);
    result[degree - 1] := ONE;
    var root := ONE;
    DivisorStarts(result[..], degree);
    for i := 0 to degree
      invariant root == Root(i)
      invariant result[..] == Low(Generator(i), degree)
    {
      StepKeepsLow(Generator(i), root, degree);
      DivisorGrows(i);
      MultiplyInPlace(result, root);
      root := Multiply(root, TWO);
    }
    DivisorEnds(result[..], degree);
    divisor := Some(result[..]);
  }

  // ---- the remainder ----

  /** One step of the shift register: shift left, then add the divisor times the factor. */
  function ShiftRegister(rem: Poly, divisor: Poly, b: byte): (r: Poly)
    requires |rem| == |divisor| > 0
    ensures |r| == |rem|
  {
    PolyXor(rem[1..] + [ZERO], Scale(divisor, Xor(b, rem[0])))
  }

  function Remainder(data: Poly, divisor: Poly): (r: Poly)
    requires |divisor| > 0
    ensures |r| == |divisor|
  {
    if data == [] then ZeroPoly(|divisor|)
    else ShiftRegister(Remainder(data[..|data| - 1], divisor), divisor, data[|data| - 1])
  }

  /** The inner loop: adds the divisor times the factor to the register. */
  method AddMultiple(register: Poly, divisor: Poly, factor: byte) returns (result: Poly)
    requires |register| == |divisor|
    ensures result == PolyXor(register, Scale(divisor, factor))
  {
    result := register;
    for i := 0 to |result|
      invariant |result| == |register|
      invariant forall t :: 0 <= t < i ==> result[t] == PolyXor(register, Scale(divisor, factor))[t]
      invariant forall t :: i <= t < |result| ==> result[t] == register[t]
    {
      var m := Multiply(divisor[i], factor);
      result := result[i := Xor(result[i], m)];
    }
  }

  method ComputeRemainder(data: Poly, divisor: Poly) returns (result: Poly)
    requires |divisor| > 0
    ensures result == Remainder(data, divisor)
  {
    result := ZeroPoly(|divisor|);
    for k := 0 to |data|
      invariant result == Remainder(data[..k], divisor)
    {
      var factor := Xor(data[k], result[0]);
      result := result[1..] + [ZERO];
      result := AddMultiple(result, divisor, factor);
      assert data[..k + 1][..k] == data[..k];
    }
    assert data[..|data|] == data;
  }

  // ---- evaluation is a ring homomorphism ----

  lemma {:induction false} EvalXor(p: Poly, q: Poly, x: byte)
    requires |p| == |q|
    ensures Eval(PolyXor(p, q), x) == Xor(Eval(p, x), Eval(q, x))
  {
    if p == [] {
      XorLaws(ZERO, ZERO, ZERO);
      assert Zeros(8) == ZERO;
    } else {
      var n := |p| - 1;
      var a, b := Eval(p[..n], x), Eval(q[..n], x);
      assert PolyXor(p, q)[..n] == PolyXor(p[..n], q[..n]);
      EvalXor(p[..n], q[..n], x);
      MulDistributesLeft(a, b, x);
      XorMiddleSwap(Mul(a, x), Mul(b, x), p[n], q[n]);
    }
  }

  lemma {:induction false} EvalScale(p: Poly, c: byte, x: byte)
    ensures Eval(Scale(p, c), x) == Mul(Eval(p, x), c)
  {
    if p == [] {
      ZeroMul(c);
    } else {
      var n := |p| - 1;
      var a := Eval(p[..n], x);
      assert Scale(p, c)[..n] == Scale(p[..n], c);
      EvalScale(p[..n], c, x);
      MulDistributesLeft(Mul(a, x), p[n], c);
      MulAssociates(a, x, c);
      MulCommutes(x, c);
      MulAssociates(a, c, x);
    }
  }

  lemma {:induction false} EvalAppend(p: Poly, q: Poly, x: byte)
    ensures Eval(p + q, x) == Xor(Mul(Eval(p, x), Power(x, |q|)), Eval(q, x))
  {
    hide Mul, Xor;
    if q == [] {
      assert p + q == p;
      OneMul(Eval(p, x));
      XorLaws(Eval(p, x), ZERO, ZERO);
      assert Zeros(8) == ZERO;
    } else {
      var n := |q| - 1;
      var e, w, f := Eval(p, x), Power(x, n), Eval(q[..n], x);
      assert (p + q)[..|p + q| - 1] == p + q[..n];
      EvalAppend(p, q[..n], x);
      MulDistributesLeft(Mul(e, w), f, x);
      MulAssociates(e, w, x);
      XorLaws(Mul(e, Mul(w, x)), Mul(f, x), q[n]);
    }
  }

  lemma {:induction false} EvalZero(n: nat, x: byte)
    ensures Eval(ZeroPoly(n), x) == ZERO
  {
    if n > 0 {
      assert ZeroPoly(n)[..n - 1] == ZeroPoly(n - 1);
      EvalZero(n - 1, x);
      ZeroMul(x);
      XorLaws(ZERO, ZERO, ZERO);
      assert Zeros(8) == ZERO;
    }
  }

  /** The value of (x - root) * p is (x - root) times the value of p. */
  lemma EvalTimesRoot(p: Poly, root: byte, x: byte)
    ensures Eval(TimesRoot(p, root), x) == Mul(Eval(p, x), Xor(x, root))
  {
    var e := Eval(p, x);
    var s := Scale(p, root);
    EvalXor(p + [ZERO], [ZERO] + s, x);
    assert (p + [ZERO])[..|p|] == p;
    XorLaws(Mul(e, x), ZERO, ZERO);
    assert Zeros(8) == ZERO;
    assert Eval(p + [ZERO], x) == Mul(e, x);
    EvalAppend([ZERO], s, x);
    assert ZeroPoly(1) == [ZERO];
    EvalZero(1, x);
    ZeroMul(Power(x, |s|));
    EvalScale(p, root, x);
    XorLaws(Mul(e, root), ZERO, ZERO);
    assert Eval([ZERO] + s, x) == Mul(e, root);
    MulDistributes(e, x, root);
  }

  lemma MulSelfSum(e: byte, x: byte)
    ensures Mul(e, Xor(x, x)) == ZERO
  {
    XorLaws(x, x, x);
    MulZero(e, Xor(x, x));
  }

  /** Every power 2^i below the degree is a root of the generator. */
  lemma {:induction false} GeneratorVanishes(degree: nat, i: nat)
    requires i < degree
    ensures Eval(Generator(degree), Root(i)) == ZERO
  {
    hide Mul, Xor, Eval, TimesRoot, Power;
    var p := Generator(degree - 1);
    EvalTimesRoot(p, Root(degree - 1), Root(i));
    if i < degree - 1 {
      GeneratorVanishes(degree - 1, i);
      ZeroMul(Xor(Root(i), Root(degree - 1)));
    } else {
      MulSelfSum(Eval(p, Root(i)), Root(i));
    }
  }

  // ---- every codeword vanishes at every root ----

  lemma EvalConstant(c: byte, x: byte)
    ensures Eval([c], x) == c
  {
    assert [c][..0] == [];
    ZeroMul(x);
    XorZero(c);
  }

  /** Where the generator vanishes, the divisor without its leading one is worth x^n. */
  lemma DivisorIsPower(divisor: Poly, x: byte)
    requires Eval([ONE] + divisor, x) == ZERO
    ensures Eval(divisor, x) == Power(x, |divisor|)
  {
    EvalAppend([ONE], divisor, x);
    EvalConstant(ONE, x);
    OneMul(Power(x, |divisor|));
    assert Zeros(8) == ZERO;
    XorCancels(Power(x, |divisor|), Eval(divisor, x));
  }

  /** Shifting the register multiplies it by x and drops the leading coefficient's x^n. */
  lemma ShiftValue(rem: Poly, x: byte)
    requires |rem| > 0
    ensures Mul(Eval(rem, x), x) == Xor(Mul(rem[0], Power(x, |rem|)), Eval(rem[1..] + [ZERO], x))
  {
    hide Mul, Xor, Zeros;
    var n := |rem|;
    var tail := Eval(rem[1..], x);
    assert rem == [rem[0]] + rem[1..];
    EvalAppend([rem[0]], rem[1..], x);
    EvalConstant(rem[0], x);
    assert (rem[1..] + [ZERO])[..n - 1] == rem[1..];
    XorZero(Mul(tail, x));
    MulDistributesLeft(Mul(rem[0], Power(x, n - 1)), tail, x);
    MulAssociates(rem[0], Power(x, n - 1), x);
  }

  /** One shift-register step keeps data times x^n equal to the remainder at every root. */
  lemma StepBalances(d: byte, rem: Poly, divisor: Poly, b: byte, x: byte)
    requires |rem| == |divisor| > 0
    requires Eval([ONE] + divisor, x) == ZERO
    requires Mul(d, Power(x, |rem|)) == Eval(rem, x)
    ensures Mul(Xor(Mul(d, x), b), Power(x, |rem|)) == Eval(ShiftRegister(rem, divisor, b), x)
  {
    var w, factor := Power(x, |rem|), Xor(b, rem[0]);
    var shifted := rem[1..] + [ZERO];
    DivisorIsPower(divisor, x);
    EvalScale(divisor, factor, x);
    MulCommutes(w, factor);
    EvalXor(shifted, Scale(divisor, factor), x);
    ShiftValue(rem, x);
    MulDistributesLeft(Mul(d, x), b, w);
    SwapFactors(d, x, w);
    MulDistributesLeft(b, rem[0], w);
    Rearrange(Mul(rem[0], w), Eval(shifted, x), Mul(b, w));
  }

  lemma SwapFactors(d: byte, x: byte, w: byte)
    ensures Mul(Mul(d, x), w) == Mul(Mul(d, w), x)
  {
    MulAssociates(d, x, w);
    MulCommutes(x, w);
    MulAssociates(d, w, x);
  }

  lemma Rearrange(h: byte, t: byte, b: byte)
    ensures Xor(Xor(h, t), b) == Xor(t, Xor(b, h))
  {
  }

  lemma {:induction false} RemainderBalances(data: Poly, divisor: Poly, x: byte)
    requires |divisor| > 0
    requires Eval([ONE] + divisor, x) == ZERO
    ensures Mul(Eval(data, x), Power(x, |divisor|)) == Eval(Remainder(data, divisor), x)
  {
    if data == [] {
      ZeroMul(Power(x, |divisor|));
      EvalZero(|divisor|, x);
    } else {
      var n := |data| - 1;
      RemainderBalances(data[..n], divisor, x);
      StepBalances(Eval(data[..n], x), Remainder(data[..n], divisor), divisor, data[n], x);
    }
  }

  /** Data followed by its remainder is zero at each root of the generator, whatever the data. */
  lemma CodewordVanishes(data: Poly, degree: nat, divisor: Poly, i: nat)
    requires i < degree
    requires [ONE] + divisor == Generator(degree)
    ensures Eval(data + Remainder(data, divisor), Root(i)) == ZERO
  {
    GeneratorVanishes(degree, i);
    var rem := Remainder(data, divisor);
    RemainderBalances(data, divisor, Root(i));
    EvalAppend(data, rem, Root(i));
    XorLaws(Eval(rem, Root(i)), ZERO, ZERO);
    assert Zeros(8) == ZERO;
  }

  /** Each root is twice the one before it, reduced by x^8 + x^4 + x^3 + x^2 + 1, and the first one is 1. */
  lemma RootsDouble(i: nat)
    ensures Root(0) == [false, false, false, false, false, false, false, true]
    ensures var r := Root(i);
            Root(i + 1) == if r[0] then [r[1], r[2], r[3], !r[4], !r[5], !r[6], r[7], true]
                           else [r[1], r[2], r[3], r[4], r[5], r[6], r[7], false]
  {
    MulTwo(Root(i));
    DoubleBits(Root(i));
    hide Mul, Double;
  }

  lemma DoubleBits(r: byte)
    ensures Double(r) == if r[0] then [r[1], r[2], r[3], !r[4], !r[5], !r[6], r[7], true]
                         else [r[1], r[2], r[3], r[4], r[5], r[6], r[7], false]
  {
  }

  lemma MulTwo(x: byte)
    ensures Mul(x, TWO) == Double(x)
  {
    var zeros := [false, false, false, false, false, false];
    MulZero(x, zeros);
    hide Double, Xor;
    assert TWO[..7] == zeros + [true] && TWO[..7][..6] == zeros;
    DoubleZero();
    XorLaws(ZERO, x, ZERO);
    XorLaws(x, ZERO, ZERO);
    assert Zeros(8) == ZERO;
    XorLaws(Double(x), ZERO, ZERO);
  }
}
