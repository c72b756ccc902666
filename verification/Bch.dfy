// The error-correction bits of the format and version information: remainders of polynomials over GF(2)
// (deps/qrcodegen.cpp, lines 416-423 and 447-452; ISO/IEC 18004:2015, annexes C and D).
module Bch {
  import opened Bits

  /** `rem = (rem << 1) ^ ((rem >> (k - 1)) * divisor)` on k bits; the divisor is given without its leading one. */
  function Shifted(rem: seq<bool>, divisor: seq<bool>, next: bool): (r: seq<bool>)
    requires |rem| == |divisor| > 0
    ensures |r| == |rem|
  {
    Xor(rem[1..] + [next], if rem[0] then divisor else Zeros(|divisor|))
  }

  /** n such steps. */
  function Register(rem: seq<bool>, divisor: seq<bool>, n: nat): (r: seq<bool>)
    requires |rem| == |divisor| > 0
    ensures |r| == |rem|
  {
    if n == 0 then rem else Shifted(Register(rem, divisor, n - 1), divisor, false)
  }

  /** One step of long division: drop the leading bit, and if it is set subtract the divisor from the next bits. */
  function Brought(bits: seq<bool>, divisor: seq<bool>): (r: seq<bool>)
    requires |bits| > |divisor| > 0
    ensures |r| == |bits| - 1
  {
    seq(|bits| - 1, i requires 0 <= i < |bits| - 1 => bits[i + 1] != (bits[0] && i < |divisor| && divisor[i]))
  }

  /** Long division: the remainder of a bit string, taken as a polynomial, modulo the divisor. */
  function Modulo(bits: seq<bool>, divisor: seq<bool>): (r: seq<bool>)
    requires |bits| >= |divisor| > 0
    ensures |r| == |divisor|
    decreases |bits|
  {
    if |bits| == |divisor| then bits else Modulo(Brought(bits, divisor), divisor)
  }

  lemma BroughtZero(bits: seq<bool>, divisor: seq<bool>)
    requires |bits| >= |divisor| > 0
    ensures Brought([false] + bits, divisor) == bits
  {
  }

  lemma BroughtAppend(bits: seq<bool>, divisor: seq<bool>, next: bool)
    requires |bits| > |divisor| > 0
    ensures Brought(bits + [next], divisor) == Brought(bits, divisor) + [next]
  {
  }

  lemma BroughtLast(bits: seq<bool>, divisor: seq<bool>, next: bool)
    requires |bits| == |divisor| > 0
    ensures Brought(bits + [next], divisor) == Shifted(bits, divisor, next)
  {
  }

  lemma BroughtXor(a: seq<bool>, b: seq<bool>, divisor: seq<bool>)
    requires |a| == |b| > |divisor| > 0
    ensures Brought(Xor(a, b), divisor) == Xor(Brought(a, divisor), Brought(b, divisor))
  {
  }

  lemma {:induction false} LeadingZeros(n: nat, bits: seq<bool>, divisor: seq<bool>)
    requires |bits| >= |divisor| > 0
    ensures Modulo(Zeros(n) + bits, divisor) == Modulo(bits, divisor)
  {
    hide Brought;
    if n == 0 {
      assert Zeros(0) + bits == bits;
    } else {
      LeadingZeros(n - 1, bits, divisor);
      BroughtZero(Zeros(n - 1) + bits, divisor);
      assert Zeros(n) + bits == [false] + (Zeros(n - 1) + bits);
    }
  }

  /** Bringing down one more bit is one step of the register. */
  lemma {:induction false} ModuloAppend(bits: seq<bool>, divisor: seq<bool>, next: bool)
    requires |bits| >= |divisor| > 0
    ensures Modulo(bits + [next], divisor) == Shifted(Modulo(bits, divisor), divisor, next)
    decreases |bits|
  {
    hide Brought, Shifted;
    if |bits| == |divisor| {
      BroughtLast(bits, divisor, next);
    } else {
      ModuloAppend(Brought(bits, divisor), divisor, next);
      BroughtAppend(bits, divisor, next);
    }
  }

  /** The register computes the remainder of its start times x^n. */
  lemma {:induction false} RegisterIsModulo(rem: seq<bool>, divisor: seq<bool>, n: nat)
    requires |rem| == |divisor| > 0
    ensures Register(rem, divisor, n) == Modulo(rem + Zeros(n), divisor)
  {
    hide Modulo, Shifted;
    if n == 0 {
      assert rem + Zeros(0) == rem;
      ModuloOfShort(rem, divisor);
    } else {
      RegisterIsModulo(rem, divisor, n - 1);
      ModuloAppend(rem + Zeros(n - 1), divisor, false);
      assert rem + Zeros(n) == (rem + Zeros(n - 1)) + [false];
    }
  }

  lemma ModuloOfShort(bits: seq<bool>, divisor: seq<bool>)
    requires |bits| == |divisor| > 0
    ensures Modulo(bits, divisor) == bits
  {
  }

  /** The remainder of a sum is the sum of the remainders. */
  lemma {:induction false} ModuloXor(a: seq<bool>, b: seq<bool>, divisor: seq<bool>)
    requires |a| == |b| >= |divisor| > 0
    ensures Modulo(Xor(a, b), divisor) == Xor(Modulo(a, divisor), Modulo(b, divisor))
    decreases |a|
  {
    hide Brought;
    if |a| > |divisor| {
      BroughtXor(a, b, divisor);
      ModuloXor(Brought(a, divisor), Brought(b, divisor), divisor);
    }
  }

  /** Data followed by the remainder of the shifted data is a multiple of the divisor. */
  lemma CodewordDivides(data: seq<bool>, divisor: seq<bool>)
    requires |divisor| > 0
    ensures Modulo(data + Modulo(data + Zeros(|divisor|), divisor), divisor) == Zeros(|divisor|)
  {
    hide Modulo;
    var k := |divisor|;
    var rem := Modulo(data + Zeros(k), divisor);
    ModuloXor(data + Zeros(k), Zeros(|data|) + rem, divisor);
    assert Xor(data + Zeros(k), Zeros(|data|) + rem) == data + rem;
    LeadingZeros(|data|, rem, divisor);
    ModuloOfShort(rem, divisor);
    XorLaws(rem, rem, rem);
  }

  lemma Regroup(a: seq<bool>, b: seq<bool>, c: seq<bool>)
    ensures (a + b) + c == a + (b + c)
  {
  }

  /** What the register leaves behind the data makes a multiple of the divisor. */
  lemma RegisterCompletes(data: seq<bool>, divisor: seq<bool>)
    requires 0 < |data| <= |divisor|
    ensures Modulo(data + Register(Zeros(|divisor| - |data|) + data, divisor, |divisor|), divisor) == Zeros(|divisor|)
  {
    hide Modulo, Register;
    var k := |divisor|;
    var start := Zeros(k - |data|) + data;
    RegisterIsModulo(start, divisor, k);
    Regroup(Zeros(k - |data|), data, Zeros(k));
    LeadingZeros(k - |data|, data + Zeros(k), divisor);
    CodewordDivides(data, divisor);
  }
}
