// What a finished symbol shows, function pattern by function pattern, at every version, level and mask
// (deps/qrcodegen.cpp, lines 387-483; ISO/IEC 18004:2015, section 6.3).
module SymbolPictures {
  import opened Options
  import opened Grids
  import opened ReedSolomon
  import opened Versions
  import opened Patterns
  import opened Pictures
  import opened QrSymbol

  // ---- no pattern covers another ----

  /** Alignment patterns keep clear of the finder patterns with their separators and of row and column 8 there. */
  lemma AlignmentClear(v: nat, x: int, y: int)
    requires ValidVersion(v) && InSomeAlignment(AlignPositions(v), x, y)
    ensures var n := 4 * v + 17;
            4 <= x <= n - 5 && 4 <= y <= n - 5 && (x <= 8 ==> 9 <= y <= n - 10) && (y <= 8 ==> 9 <= x <= n - 10)
  {
    hide AlignPositions;
    var pos := AlignPositions(v);
    var i, j :| 0 <= i < |pos| && 0 <= j < |pos| && IsCentre(pos, i, j, x, y);
    Ends(v);
    Between(v, i);
    Between(v, j);
  }

  lemma Ends(v: nat)
    requires ValidVersion(v) && AlignPositions(v) != []
    ensures v >= 2 && |AlignPositions(v)| == v / 7 + 2
    ensures AlignPositions(v)[0] == 6 && AlignPositions(v)[|AlignPositions(v)| - 1] == 4 * v + 10
  {
    AlignmentPositions(v);
  }

  /** The positions that are not the first or the last one keep away from those. */
  lemma Between(v: nat, i: nat)
    requires ValidVersion(v) && i < |AlignPositions(v)|
    ensures 6 <= AlignPositions(v)[i] <= 4 * v + 10
    ensures i > 0 ==> AlignPositions(v)[i] >= 11
    ensures i < |AlignPositions(v)| - 1 ==> AlignPositions(v)[i] <= 4 * v + 5
  {
    Ends(v);
    AlignApart(v, 0, i);
    AlignApart(v, i, |AlignPositions(v)| - 1);
  }

  /** From version 7 on the last two positions are at least fourteen apart, so the version blocks stay free. */
  lemma VersionClear(v: nat, x: int, y: int)
    requires ValidVersion(v) && InSomeAlignment(AlignPositions(v), x, y)
    ensures !InVersion(v, x, y)
  {
    if InVersion(v, x, y) {
      var pos := AlignPositions(v);
      var i, j :| 0 <= i < |pos| && 0 <= j < |pos| && IsCentre(pos, i, j, x, y);
      Ends(v);
      WideStep(v);
      LowPositions(v, i);
      LowPositions(v, j);
      hide AlignPositions;
      Between(v, i);
      Between(v, j);
    }
  }

  lemma WideStep(v: nat)
    requires 7 <= v <= 40
    ensures AlignStep(v) >= 14
  {
    StepIsLeast(v);
    hide AlignStep;
    var k, s := v / 7, AlignStep(v);
    if v != 32 && s < 14 { SmallProduct(k, s); }
  }

  lemma SmallProduct(k: nat, s: nat)
    requires s <= 13
    ensures (k + 1) * s <= 13 * k + 13
  {
  }

  /** All positions but the last one are at least a step below it. */
  lemma LowPositions(v: nat, i: nat)
    requires 7 <= v <= 40 && i < |AlignPositions(v)|
    ensures i < |AlignPositions(v)| - 1 ==> AlignPositions(v)[i] <= 4 * v + 10 - 14
  {
    AlignmentPositions(v);
    WideStep(v);
    var pos := AlignPositions(v);
    var last := |pos| - 1;
    if i < last - 1 { AlignApart(v, i, last - 1); }
    hide AlignPositions, AlignStep;
  }

  // ---- what the symbol shows ----

  /** The colour of a function module that is no format module. */
  lemma PatternShows(v: nat, ecl: Ecc, codewords: Poly, m: nat, x: int, y: int)
    requires ValidVersion(v) && m < 8 && InGrid(Size(v), x, y) && IsFunction(v, x, y) && !InFormat(Size(v), x, y)
    ensures At(SymbolGrid(v, ecl, codewords, m), Size(v), x, y) == PatternDark(v, x, y)
  {
    hide SymbolGrid, IsFunction, PatternDark, InFormat;
  }

  lemma NoAlignment(v: nat, x: int, y: int)
    requires ValidVersion(v)
    requires var n := 4 * v + 17; (x <= 7 && y <= 7) || (x >= n - 8 && y <= 7) || (x <= 7 && y >= n - 8)
    ensures AlignmentPaint(v, x, y) == None
  {
    AlignmentIsPainted(v, x, y);
    if InSomeAlignment(AlignPositions(v), x, y) { AlignmentClear(v, x, y); }
    hide AlignmentPaint, InSomeAlignment, AlignPositions;
  }

  /** Each of the three finder patterns shows in full. */
  lemma FinderShows(v: nat, ecl: Ecc, codewords: Poly, m: nat, cx: int, cy: int, dx: int, dy: int)
    requires ValidVersion(v) && m < 8 && InGrid(Size(v), cx + dx, cy + dy) && -4 <= dx <= 4 && -4 <= dy <= 4
    requires var n := Size(v); (cx, cy) == (3, 3) || (cx, cy) == (n - 4, 3) || (cx, cy) == (3, n - 4)
    ensures At(SymbolGrid(v, ecl, codewords, m), Size(v), cx + dx, cy + dy) == DarkIn(FINDER, dx + 4, dy + 4)
  {
    var x, y := cx + dx, cy + dy;
    NoAlignment(v, x, y);
    FinderColour(v, cx, cy, dx, dy);
    PatternShows(v, ecl, codewords, m, x, y) by { FinderIsFunction(v, cx, cy, dx, dy); }
    hide *;
  }

  lemma FinderIsFunction(v: nat, cx: int, cy: int, dx: int, dy: int)
    requires ValidVersion(v) && InGrid(Size(v), cx + dx, cy + dy) && -4 <= dx <= 4 && -4 <= dy <= 4
    requires var n := Size(v); (cx, cy) == (3, 3) || (cx, cy) == (n - 4, 3) || (cx, cy) == (3, n - 4)
    ensures IsFunction(v, cx + dx, cy + dy) && !InFormat(Size(v), cx + dx, cy + dy)
  {
    FinderIsPicture(cx, cy, dx, dy);
    hide AlignmentPaint, DarkIn, FinderDark, InFinderAt;
  }

  lemma FinderColour(v: nat, cx: int, cy: int, dx: int, dy: int)
    requires ValidVersion(v) && InGrid(Size(v), cx + dx, cy + dy) && -4 <= dx <= 4 && -4 <= dy <= 4
    requires var n := Size(v); (cx, cy) == (3, 3) || (cx, cy) == (n - 4, 3) || (cx, cy) == (3, n - 4)
    requires AlignmentPaint(v, cx + dx, cy + dy) == None
    ensures PatternDark(v, cx + dx, cy + dy) == DarkIn(FINDER, dx + 4, dy + 4)
  {
    var n, x, y := Size(v), cx + dx, cy + dy;
    FinderIsPicture(cx, cy, dx, dy);
    FinderIsPicture(3, n - 4, x - 3, y - (n - 4));
    FinderIsPicture(n - 4, 3, x - (n - 4), y - 3);
    FinderIsPicture(3, 3, x - 3, y - 3);
    hide AlignmentPaint, DarkIn, FinderDark, InFinderAt, VersionDark, VersionInfo, InTiming, TimingDark;
  }

  /** Every alignment pattern shows in full. */
  lemma AlignmentShows(v: nat, ecl: Ecc, codewords: Poly, m: nat, i: nat, j: nat, dx: int, dy: int)
    requires ValidVersion(v) && m < 8 && -2 <= dx <= 2 && -2 <= dy <= 2
    requires i < |AlignPositions(v)| && j < |AlignPositions(v)|
    requires var last := |AlignPositions(v)| - 1; (i, j) != (0, 0) && (i, j) != (0, last) && (i, j) != (last, 0)
    ensures var x, y := AlignPositions(v)[i] + dx, AlignPositions(v)[j] + dy;
            InGrid(Size(v), x, y)
            && At(SymbolGrid(v, ecl, codewords, m), Size(v), x, y) == DarkIn(ALIGNMENT, dx + 2, dy + 2)
  {
    var pos := AlignPositions(v);
    var x, y := pos[i] + dx, pos[j] + dy;
    AlignmentPlace(v, i, j, dx, dy);
    AlignmentColour(v, i, j, dx, dy);
    PatternShows(v, ecl, codewords, m, x, y);
    hide *;
  }

  lemma AlignmentPlace(v: nat, i: nat, j: nat, dx: int, dy: int)
    requires ValidVersion(v) && -2 <= dx <= 2 && -2 <= dy <= 2
    requires i < |AlignPositions(v)| && j < |AlignPositions(v)|
    requires var last := |AlignPositions(v)| - 1; (i, j) != (0, 0) && (i, j) != (0, last) && (i, j) != (last, 0)
    ensures var x, y := AlignPositions(v)[i] + dx, AlignPositions(v)[j] + dy;
            InGrid(Size(v), x, y) && !InFormat(Size(v), x, y) && !InVersion(v, x, y)
  {
    var pos := AlignPositions(v);
    assert IsCentre(pos, i, j, pos[i] + dx, pos[j] + dy);
    AlignmentClear(v, pos[i] + dx, pos[j] + dy);
    VersionClear(v, pos[i] + dx, pos[j] + dy);
    hide AlignPositions, InVersion;
  }

  lemma AlignmentColour(v: nat, i: nat, j: nat, dx: int, dy: int)
    requires ValidVersion(v) && -2 <= dx <= 2 && -2 <= dy <= 2
    requires i < |AlignPositions(v)| && j < |AlignPositions(v)|
    requires var last := |AlignPositions(v)| - 1; (i, j) != (0, 0) && (i, j) != (0, last) && (i, j) != (last, 0)
    requires !InVersion(v, AlignPositions(v)[i] + dx, AlignPositions(v)[j] + dy)
    ensures var x, y := AlignPositions(v)[i] + dx, AlignPositions(v)[j] + dy;
            IsFunction(v, x, y) && PatternDark(v, x, y) == DarkIn(ALIGNMENT, dx + 2, dy + 2)
  {
    hide *;
    var pos := AlignPositions(v);
    var x, y := pos[i] + dx, pos[j] + dy;
    AlignmentIsPicture(pos[i], pos[j], dx, dy);
    AlignCornersAre(|pos|, i, j);
    ColourAt(v, i, j, x, y);
  }

  lemma ColourAt(v: nat, i: nat, j: nat, x: int, y: int)
    requires ValidVersion(v) && i < |AlignPositions(v)| && j < |AlignPositions(v)|
    requires !AlignCorner(|AlignPositions(v)|, i, j) && InAlignAt(AlignPositions(v)[i], AlignPositions(v)[j], x, y)
    requires !InVersion(v, x, y)
    ensures IsFunction(v, x, y) && PatternDark(v, x, y) == AlignDark(AlignPositions(v)[i], AlignPositions(v)[j], x, y)
  {
    hide AlignPositions, AlignPaint, AlignDark, InAlignAt, AlignCorner, InVersion, IsFunction, PatternDark;
    AlignShows(v, i, j, |AlignPositions(v)|, 0, x, y);
    PaintedColour(v, x, y, AlignDark(AlignPositions(v)[i], AlignPositions(v)[j], x, y));
  }

  lemma AlignCornersAre(a: nat, i: nat, j: nat)
    requires (i, j) != (0, 0) && (i, j) != (0, a - 1) && (i, j) != (a - 1, 0)
    ensures !AlignCorner(a, i, j)
  {
  }

  lemma PaintedColour(v: nat, x: int, y: int, dark: bool)
    requires ValidVersion(v) && AlignPaint(AlignPositions(v), |AlignPositions(v)|, 0, x, y) == Some(dark)
    requires !InVersion(v, x, y)
    ensures IsFunction(v, x, y) && PatternDark(v, x, y) == dark
  {
    hide AlignPositions, AlignPaint, InVersion, VersionInfo;
  }

  /** Both copies of the version bits are in the symbol from version 7 on. */
  lemma VersionShows(v: nat, ecl: Ecc, codewords: Poly, m: nat, i: nat)
    requires 7 <= v <= 40 && m < 8 && i < 18
    ensures var g, n := SymbolGrid(v, ecl, codewords, m), Size(v);
            At(g, n, n - 11 + i % 3, i / 3) == At(g, n, i / 3, n - 11 + i % 3) == VersionInfo(v)[17 - i]
  {
    var n := Size(v);
    var x, y := n - 11 + i % 3, i / 3;
    VersionColour(v, i);
    PatternShows(v, ecl, codewords, m, x, y);
    PatternShows(v, ecl, codewords, m, y, x);
    hide *;
  }

  lemma VersionColour(v: nat, i: nat)
    requires 7 <= v <= 40 && i < 18
    ensures var x, y := Size(v) - 11 + i % 3, i / 3;
            && InGrid(Size(v), x, y) && IsFunction(v, x, y) && IsFunction(v, y, x)
            && !InFormat(Size(v), x, y) && !InFormat(Size(v), y, x)
            && PatternDark(v, x, y) == PatternDark(v, y, x) == VersionInfo(v)[17 - i]
  {
    hide VersionInfo, AlignmentPaint;
    ThreeColumns(i);
  }

  lemma ThreeColumns(i: nat)
    requires i < 18
    ensures i == 3 * (i / 3) + i % 3 && i / 3 <= 5
  {
  }

  // ---- the timing lines ----

  /** On row 6 an alignment pattern with an even centre is dark at even columns; on column 6 likewise. */
  lemma EvenAlignment(c: int, x: int)
    requires c % 2 == 0
    ensures InAlignAt(c, 6, x, 6) ==> AlignDark(c, 6, x, 6) == (x % 2 == 0)
    ensures InAlignAt(6, c, 6, x) ==> AlignDark(6, c, 6, x) == (x % 2 == 0)
  {
  }

  lemma OnSix(v: nat, i: nat, c: int)
    requires ValidVersion(v) && i < |AlignPositions(v)| && InAlignAt(c, AlignPositions(v)[i], c, 6)
    ensures AlignPositions(v)[i] == 6
  {
    Ends(v);
    Between(v, i);
    hide AlignPositions;
  }

  /** The colour an alignment pattern gives to a module of row or column 6 is the one the timing line has there. */
  lemma {:induction false} PaintOnTiming(v: nat, i: nat, j: nat, x: int)
    requires ValidVersion(v)
    requires var pos := AlignPositions(v); (i < |pos| && j <= |pos|) || (i == |pos| && j == 0)
    ensures var row, column := AlignPaint(AlignPositions(v), i, j, x, 6), AlignPaint(AlignPositions(v), i, j, 6, x);
            (row.Some? ==> row.value == (x % 2 == 0)) && (column.Some? ==> column.value == (x % 2 == 0))
    decreases i, j
  {
    hide AlignPositions, InAlignAt, AlignDark;
    var pos := AlignPositions(v);
    if j > 0 {
      PaintOnTiming(v, i, j - 1, x);
      EvenPosition(v, i);
      EvenPosition(v, j - 1);
      if InAlignAt(pos[i], pos[j - 1], x, 6) {
        SixApart(pos[i], pos[j - 1], x);
        OnSix(v, j - 1, pos[i]);
        EvenAlignment(pos[i], x);
      }
      if InAlignAt(pos[i], pos[j - 1], 6, x) {
        SixApart(pos[i], pos[j - 1], x);
        OnSix(v, i, pos[j - 1]);
        EvenAlignment(pos[j - 1], x);
      }
    } else if i > 0 {
      PaintOnTiming(v, i - 1, |pos|, x);
    }
  }

  lemma SixApart(c: int, d: int, x: int)
    ensures InAlignAt(c, d, x, 6) ==> InAlignAt(c, d, c, 6)
    ensures InAlignAt(c, d, 6, x) ==> InAlignAt(d, c, d, 6)
  {
  }

  lemma {:induction false} EvenPosition(v: nat, i: nat)
    requires ValidVersion(v) && i < |AlignPositions(v)|
    ensures AlignPositions(v)[i] % 2 == 0
    decreases |AlignPositions(v)| - i
  {
    hide AlignPositions, AlignStep;
    Ends(v);
    AlignmentPositions(v);
    if 0 < i < |AlignPositions(v)| - 1 { EvenPosition(v, i + 1); }
  }

  /** Between the finder patterns row 6 and column 6 alternate, also where alignment patterns cross them. */
  lemma TimingShows(v: nat, ecl: Ecc, codewords: Poly, m: nat, i: int)
    requires ValidVersion(v) && m < 8 && 8 <= i < Size(v) - 8
    ensures var g, n := SymbolGrid(v, ecl, codewords, m), Size(v);
            At(g, n, i, 6) == At(g, n, 6, i) == (i % 2 == 0)
  {
    TimingColour(v, i);
    PatternShows(v, ecl, codewords, m, i, 6);
    PatternShows(v, ecl, codewords, m, 6, i);
    hide *;
  }

  lemma TimingColour(v: nat, i: int)
    requires ValidVersion(v) && 8 <= i < Size(v) - 8
    ensures IsFunction(v, i, 6) && IsFunction(v, 6, i) && !InFormat(Size(v), i, 6) && !InFormat(Size(v), 6, i)
    ensures PatternDark(v, i, 6) == PatternDark(v, 6, i) == (i % 2 == 0)
  {
    PaintOnTiming(v, |AlignPositions(v)|, 0, i);
    hide AlignPositions, AlignPaint, VersionInfo;
  }
}
