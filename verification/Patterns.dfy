// Where the function modules of a symbol are and what colour they have: timing, finder and alignment
// patterns, format and version information (deps/qrcodegen.cpp, lines 379-483 and 664-678).
module Patterns {
  import opened Bch
  import opened Bits
  import opened Options
  import opened Grids
  import opened Versions

  function Abs(a: int): nat { if a < 0 then -a else a }

  /** Chebyshev distance. */
  function Distance(dx: int, dy: int): nat {
    if Abs(dx) > Abs(dy) then Abs(dx) else Abs(dy)
  }

  // ---- timing and finder patterns ----

  predicate InTiming(x: int, y: int) { x == 6 || y == 6 }

  predicate TimingDark(x: int, y: int) { (if x == 6 then y else x) % 2 == 0 }

  /** A 9*9 pattern around its centre, clipped to the grid. */
  predicate InFinderAt(cx: int, cy: int, x: int, y: int) { Distance(x - cx, y - cy) <= 4 }

  predicate FinderDark(cx: int, cy: int, x: int, y: int) {
    Distance(x - cx, y - cy) != 2 && Distance(x - cx, y - cy) != 4
  }

  predicate InFinder(n: nat, x: int, y: int) {
    InFinderAt(3, 3, x, y) || InFinderAt(n - 4, 3, x, y) || InFinderAt(3, n - 4, x, y)
  }

  // ---- alignment patterns ----

  function NumAlign(v: nat): nat { v / 7 + 2 }

  function AlignStep(v: nat): nat {
    (v * 8 + NumAlign(v) * 3 + 5) / (NumAlign(v) * 4 - 4) * 2
  }

  /** Ascending positions: 6, then equally spaced up to size - 7. */
  function AlignPositions(v: nat): seq<int>
    requires ValidVersion(v)
  {
    if v == 1 then []
    else [6] + seq(NumAlign(v) - 1, k => Size(v) - 7 - (NumAlign(v) - 2 - k) * AlignStep(v))
  }

  lemma AlignGeometry(v: nat)
    requires 2 <= v <= 40
    ensures AlignStep(v) >= 5
    ensures Size(v) - 7 - (NumAlign(v) - 2) * AlignStep(v) >= 11
  {
    var a := NumAlign(v);
    Quotient(v, 7);
    Quotient(v * 8 + a * 3 + 5, a * 4 - 4);
    Spacing(v, a, (v * 8 + a * 3 + 5) / (a * 4 - 4));
  }

  lemma Quotient(n: nat, d: nat)
    requires d > 0
    ensures d * (n / d) <= n < d * (n / d) + d
  {
  }

  lemma Spacing(v: nat, a: nat, q: nat)
    requires 2 <= v <= 40 && 2 <= a && 7 * (a - 2) <= v < 7 * (a - 1)
    requires (a * 4 - 4) * q <= v * 8 + a * 3 + 5 < (a * 4 - 4) * q + (a * 4 - 4)
    ensures q >= 3 && 4 * v + 10 - (a - 2) * (q * 2) >= 11
  {
    if a == 2 {
    } else if a == 3 {
    } else if a == 4 {
    } else if a == 5 {
    } else if a == 6 {
    } else {
      assert a == 7;
    }
  }

  /** Patterns stay inside the grid and no two of them overlap. */
  lemma AlignApart(v: nat, i: nat, j: nat)
    requires ValidVersion(v) && i < |AlignPositions(v)| && j < |AlignPositions(v)|
    ensures 6 <= AlignPositions(v)[i] <= Size(v) - 7
    ensures i < j ==> AlignPositions(v)[i] + 5 <= AlignPositions(v)[j]
  {
    AlignGeometry(v);
    EquallySpaced(NumAlign(v), AlignStep(v), Size(v) - 7, i, j);
  }

  lemma EquallySpaced(a: nat, s: nat, last: int, i: nat, j: nat)
    requires a >= 2 && s >= 5 && last - (a - 2) * s >= 11 && i < a && j < a
    ensures i >= 1 ==> 11 <= last - (a - 1 - i) * s <= last
    ensures j >= 1 ==> 11 <= last - (a - 1 - j) * s <= last
    ensures 1 <= i < j ==> last - (a - 1 - i) * s + 5 <= last - (a - 1 - j) * s
  {
    if i >= 1 { MulGrows(a - 1 - i, a - 2, s); }
    if j >= 1 { MulGrows(a - 1 - j, a - 2, s); }
    if 1 <= i < j {
      MulGrows(a - j, a - 1 - i, s);
      assert (a - j) * s == (a - 1 - j) * s + s;
    }
  }

  lemma MulGrows(a: nat, b: nat, s: nat)
    requires a <= b
    ensures a * s <= b * s
  {
  }

  /** The three corners are finder patterns' and get no alignment pattern. */
  predicate AlignCorner(a: nat, i: int, j: int) {
    (i == 0 && j == 0) || (i == 0 && j == a - 1) || (i == a - 1 && j == 0)
  }

  predicate InAlignAt(cx: int, cy: int, x: int, y: int) { Distance(x - cx, y - cy) <= 2 }

  predicate AlignDark(cx: int, cy: int, x: int, y: int) { Distance(x - cx, y - cy) != 1 }

  /** The colour (x, y) has from the alignment patterns drawn before pattern (i, j), if any. */
  function AlignPaint(pos: seq<int>, i: nat, j: nat, x: int, y: int): Option<bool>
    requires (i < |pos| && j <= |pos|) || (i == |pos| && j == 0)
    decreases i, j
  {
    if j > 0 then
      if !AlignCorner(|pos|, i, j - 1) && InAlignAt(pos[i], pos[j - 1], x, y)
      then Some(AlignDark(pos[i], pos[j - 1], x, y))
      else AlignPaint(pos, i, j - 1, x, y)
    else if i > 0 then AlignPaint(pos, i - 1, |pos|, x, y)
    else None
  }

  /** Every alignment pattern shows in full: no later one covers any of its modules. */
  lemma {:induction false} AlignShows(v: nat, ci: nat, cj: nat, i: nat, j: nat, x: int, y: int)
    requires ValidVersion(v)
    requires var a := |AlignPositions(v)|;
             ci < a && cj < a && !AlignCorner(a, ci, cj) && ((i < a && j <= a) || (i == a && j == 0))
    requires ci < i || (ci == i && cj < j)
    requires InAlignAt(AlignPositions(v)[ci], AlignPositions(v)[cj], x, y)
    ensures AlignPaint(AlignPositions(v), i, j, x, y)
            == Some(AlignDark(AlignPositions(v)[ci], AlignPositions(v)[cj], x, y))
    decreases i, j
  {
    hide AlignPositions, AlignDark;
    if j > 0 {
      AlignApart(v, ci, i);
      AlignApart(v, i, ci);
      AlignApart(v, cj, j - 1);
      AlignApart(v, j - 1, cj);
      if ci < i || cj < j - 1 { AlignShows(v, ci, cj, i, j - 1, x, y); }
    } else {
      AlignShows(v, ci, cj, i - 1, |AlignPositions(v)|, x, y);
    }
  }

  function AlignmentPaint(v: nat, x: int, y: int): Option<bool>
    requires ValidVersion(v)
  {
    AlignPaint(AlignPositions(v), |AlignPositions(v)|, 0, x, y)
  }

  // ---- format information ----

  const FORMAT_DIVISOR: seq<bool> := // 0x537 without its leading bit
    [false, true, false, false, true, true, false, true, true, true]
  const FORMAT_MASK: seq<bool> := // 0x5412
    [true, false, true, false, true, false, false, false, false, false, true, false, false, true, false]

  /** The register after n of its ten steps. */
  function FormatRemainder(data: seq<bool>, n: nat): (rem: seq<bool>)
    requires |data| == 5
    ensures |rem| == 10
  {
    Register(Zeros(5) + data, FORMAT_DIVISOR, n)
  }

  /** The 15 format bits, most significant first. */
  function FormatInfo(ecl: Ecc, mask: nat): (bits: seq<bool>)
    requires mask < 8
    ensures |bits| == 15
  {
    var data := BitsOf(ecl.FormatBits() * 8 + mask, 5);
    Xor(data + FormatRemainder(data, 10), FORMAT_MASK)
  }

  /** Without the fixed mask the format bits are level and mask, followed by what makes them a multiple of 0x537. */
  lemma FormatIsCodeword(ecl: Ecc, mask: nat)
    requires mask < 8
    ensures var codeword := Xor(FormatInfo(ecl, mask), FORMAT_MASK);
            codeword[..5] == BitsOf(ecl.FormatBits() * 8 + mask, 5) && Modulo(codeword, FORMAT_DIVISOR) == Zeros(10)
  {
    hide Register, Modulo, BitsOf;
    var data := BitsOf(ecl.FormatBits() * 8 + mask, 5);
    RegisterCompletes(data, FORMAT_DIVISOR);
    var codeword := data + FormatRemainder(data, 10);
    XorLaws(codeword, FORMAT_MASK, FORMAT_MASK);
    XorLaws(FORMAT_MASK, FORMAT_MASK, FORMAT_MASK);
    assert codeword[..5] == data;
  }

  predicate InFormat(n: nat, x: int, y: int) {
    (x == 8 && (0 <= y <= 5 || y == 7 || y == 8 || n - 8 <= y < n))
    || (y == 8 && (0 <= x <= 5 || x == 7 || n - 8 <= x < n))
  }

  /** Which format bit a format module carries; None for the module that is always dark. */
  function FormatIndex(n: nat, x: int, y: int): (i: Option<nat>)
    requires n >= 21 && InFormat(n, x, y)
    ensures i.Some? ==> i.value < 15
  {
    if y == 8 && x <= 5 then Some(14 - x)
    else if y == 8 && x == 7 then Some(8)
    else if y == 8 && x >= n - 8 then Some(n - 1 - x)
    else if y <= 5 then Some(y)
    else if y == 7 then Some(6)
    else if y == 8 then Some(7)
    else if y == n - 8 then None
    else Some(y - n + 15)
  }

  /** Where the source draws bit i of the first copy: down column 8 and along row 8, around the timing patterns. */
  function FirstCopy(i: nat): (int, int) {
    if i <= 5 then (8, i) else if i == 6 then (8, 7) else if i == 7 then (8, 8) else if i == 8 then (7, 8)
    else (14 - i, 8)
  }

  /** Where it draws bit i of the second copy: below the right finder and beside the lower one. */
  function SecondCopy(n: nat, i: nat): (int, int) {
    if i < 8 then (n - 1 - i, 8) else (8, n - 15 + i)
  }

  /** Each copy carries all fifteen bits, in modules that are the format modules of the grid. */
  lemma FormatCopies(n: nat, i: nat)
    requires n >= 21 && i < 15
    ensures var (x, y) := FirstCopy(i); InGrid(n, x, y) && InFormat(n, x, y) && FormatIndex(n, x, y) == Some(i)
    ensures var (x, y) := SecondCopy(n, i); InGrid(n, x, y) && InFormat(n, x, y) && FormatIndex(n, x, y) == Some(i)
    ensures FirstCopy(i) != SecondCopy(n, i)
  {
  }

  /** There are no other format modules but the one that is always dark. */
  lemma FormatModules(n: nat, x: int, y: int)
    requires n >= 21 && InGrid(n, x, y) && InFormat(n, x, y)
    ensures match FormatIndex(n, x, y)
            case Some(i) => (x, y) == FirstCopy(i) || (x, y) == SecondCopy(n, i)
            case None => (x, y) == (8, n - 8)
  {
  }

  predicate FormatDark(n: nat, bits: seq<bool>, x: int, y: int)
    requires n >= 21 && |bits| == 15 && InFormat(n, x, y)
  {
    var i := FormatIndex(n, x, y);
    i.None? || bits[14 - i.value]
  }

  // ---- version information ----

  const VERSION_DIVISOR: seq<bool> := // 0x1F25 without its leading bit
    [true, true, true, true, false, false, true, false, false, true, false, true]

  /** The register after n of its twelve steps. */
  function VersionRemainder(v: nat, n: nat): (rem: seq<bool>)
    ensures |rem| == 12
  {
    Register(BitsOf(v, 12), VERSION_DIVISOR, n)
  }

  /** The 18 version bits, most significant first. */
  function VersionInfo(v: nat): (bits: seq<bool>)
    ensures |bits| == 18
  {
    BitsOf(v, 6) + VersionRemainder(v, 12)
  }

  /** The version bits are the version, followed by what makes them a multiple of 0x1F25. */
  lemma VersionIsCodeword(v: nat)
    requires ValidVersion(v)
    ensures VersionInfo(v)[..6] == BitsOf(v, 6) && Modulo(VersionInfo(v), VERSION_DIVISOR) == Zeros(12)
  {
    SmallBits(v);
    hide Register, Modulo, BitsOf;
    RegisterCompletes(BitsOf(v, 6), VERSION_DIVISOR);
  }

  lemma SmallBits(v: nat)
    requires v < 64
    ensures BitsOf(v, 12) == Zeros(6) + BitsOf(v, 6)
  {
    HighZeros(v, 6, 6);
  }

  lemma {:induction false} HighZeros(v: nat, len: nat, more: nat)
    requires v < Pow2(len)
    ensures BitsOf(v, more + len) == Zeros(more) + BitsOf(v, len)
    decreases len
  {
    if len == 0 {
      ZeroBits(more);
    } else {
      HighZeros(v / 2, len - 1, more);
    }
  }

  lemma {:induction false} ZeroBits(n: nat)
    ensures BitsOf(0, n) == Zeros(n)
  {
    if n > 0 { ZeroBits(n - 1); }
  }

  predicate InVersion(v: nat, x: int, y: int) {
    v >= 7 && ((Size(v) - 11 <= x <= Size(v) - 9 && 0 <= y <= 5) || (Size(v) - 11 <= y <= Size(v) - 9 && 0 <= x <= 5))
  }

  /** Which version bit a version module carries. */
  function VersionIndex(v: nat, x: int, y: int): (i: nat)
    requires InVersion(v, x, y)
    ensures i < 18
  {
    if y <= 5 then 3 * y + x - (Size(v) - 11) else 3 * x + y - (Size(v) - 11)
  }

  /** The two copies are mirror images, and each carries all eighteen bits. */
  lemma VersionCopies(v: nat, x: int, y: int)
    ensures InVersion(v, x, y) <==> InVersion(v, y, x)
    ensures InVersion(v, x, y) ==> VersionIndex(v, x, y) == VersionIndex(v, y, x)
    ensures InVersion(v, x, y) && y <= 5 ==>
            (x, y) == (Size(v) - 11 + VersionIndex(v, x, y) % 3, VersionIndex(v, x, y) / 3)
  {
    if InVersion(v, x, y) && y <= 5 {
      var a := x - (Size(v) - 11);
      assert (3 * y + a) / 3 == y && (3 * y + a) % 3 == a;
    }
  }

  predicate VersionDark(v: nat, bits: seq<bool>, x: int, y: int)
    requires |bits| == 18 && InVersion(v, x, y)
  {
    bits[17 - VersionIndex(v, x, y)]
  }

  // ---- all function modules ----

  predicate IsFunction(v: nat, x: int, y: int)
    requires ValidVersion(v)
  {
    InTiming(x, y) || InFinder(Size(v), x, y) || AlignmentPaint(v, x, y).Some?
    || InFormat(Size(v), x, y) || InVersion(v, x, y)
  }

  /** The colour of timing and finder patterns; light elsewhere. */
  predicate FixedDark(v: nat, x: int, y: int) {
    var n := Size(v);
    if InFinderAt(3, n - 4, x, y) then FinderDark(3, n - 4, x, y)
    else if InFinderAt(n - 4, 3, x, y) then FinderDark(n - 4, 3, x, y)
    else if InFinderAt(3, 3, x, y) then FinderDark(3, 3, x, y)
    else InTiming(x, y) && TimingDark(x, y)
  }

  /** The colour of a function module other than a format module; later patterns cover earlier ones. */
  predicate PatternDark(v: nat, x: int, y: int)
    requires ValidVersion(v)
  {
    if InVersion(v, x, y) then VersionDark(v, VersionInfo(v), x, y)
    else if AlignmentPaint(v, x, y).Some? then AlignmentPaint(v, x, y).value
    else FixedDark(v, x, y)
  }

  predicate FunctionDark(v: nat, ecl: Ecc, mask: nat, x: int, y: int)
    requires ValidVersion(v) && mask < 8
  {
    if InFormat(Size(v), x, y) then FormatDark(Size(v), FormatInfo(ecl, mask), x, y) else PatternDark(v, x, y)
  }

  /** The isFunction grid of a version. */
  function FunctionGrid(v: nat): (f: Grid)
    requires ValidVersion(v)
    ensures Square(f, Size(v))
    ensures forall x, y :: InGrid(Size(v), x, y) ==> At(f, Size(v), x, y) == IsFunction(v, x, y)
  {
    seq(Size(v), y => seq(Size(v), x => IsFunction(v, x, y)))
  }
}
