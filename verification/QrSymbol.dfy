// The QR Code symbol and its construction: drawing the function patterns and codewords, trying the
// eight masks in place, and finishing with the best one (deps/qrcodegen.cpp, lines 320-584).
module QrSymbol {
  import opened Bits
  import opened Options
  import opened ReedSolomon
  import opened Blocks
  import opened Versions
  import opened Grids
  import opened Masks
  import opened Zigzag
  import opened Patterns
  import opened Capacity
  import opened GridScore

  // ---- the symbol, module by module ----

  lemma SizeIsValid(v: nat)
    requires ValidVersion(v)
    ensures ValidSize(Size(v))
  {
  }

  /** The codeword bit of a free module: the scan gives the module of rank k bit k, then light. */
  ghost predicate CodewordBit(v: nat, codewords: Poly, x: int, y: int)
    requires ValidVersion(v) && InGrid(Size(v), x, y) && x != 6
  {
    SizeIsValid(v);
    var k := RankOf(FunctionGrid(v), Size(v), x, y);
    k < 8 * |codewords| && Stream(codewords)[k]
  }

  /** The finished symbol: function modules as drawn, codeword modules exclusive-ored with the mask. */
  ghost predicate ModuleAt(v: nat, ecl: Ecc, codewords: Poly, m: nat, x: int, y: int)
    requires ValidVersion(v) && m < 8 && InGrid(Size(v), x, y)
  {
    if IsFunction(v, x, y) then FunctionDark(v, ecl, m, x, y)
    else CodewordBit(v, codewords, x, y) != MaskBit(m, x, y)
  }

  ghost function SymbolGrid(v: nat, ecl: Ecc, codewords: Poly, m: nat): (g: Grid)
    requires ValidVersion(v) && m < 8
    ensures Square(g, Size(v))
    ensures forall x, y :: InGrid(Size(v), x, y) ==> At(g, Size(v), x, y) == ModuleAt(v, ecl, codewords, m, x, y)
  {
    seq(Size(v), y requires 0 <= y < Size(v) =>
      seq(Size(v), x requires 0 <= x < Size(v) => ModuleAt(v, ecl, codewords, m, x, y)))
  }

  /**
   * A module of no function pattern carries the codeword bit whose number is how many such modules come before
   * it in the order of the scan, inverted where the tile of the mask says so.
   */
  lemma CodewordModules(v: nat, ecl: Ecc, codewords: Poly, m: nat, x: int, y: int)
    requires ValidVersion(v) && m < 8 && InGrid(Size(v), x, y) && !IsFunction(v, x, y)
    ensures x != 6
    ensures var k := |FreeEarlier(FunctionGrid(v), Size(v), x, y)|;
            At(SymbolGrid(v, ecl, codewords, m), Size(v), x, y) ==
            ((k < 8 * |codewords| && codewords[k / 8][k % 8]) != InTile(m, x, y))
  {
    if x == 6 { ColumnSix(v, y); }
    hide IsFunction, FunctionDark, MaskBit, InTile, FreeEarlier, RankOf, SymbolGrid;
    SizeIsValid(v);
    RankIsOrder(FunctionGrid(v), Size(v), x, y);
    MaskIsTiled(m, x, y);
  }

  /** Both copies of the format bits of level and mask are in the symbol, and the module beside them is dark. */
  lemma FormatModulesShow(v: nat, ecl: Ecc, codewords: Poly, m: nat, i: nat)
    requires ValidVersion(v) && m < 8 && i < 15
    ensures var n := Size(v);
            var g, (x, y), (a, b) := SymbolGrid(v, ecl, codewords, m), FirstCopy(i), SecondCopy(n, i);
            && InGrid(n, x, y) && InGrid(n, a, b)
            && At(g, n, x, y) == At(g, n, a, b) == FormatInfo(ecl, m)[14 - i] && At(g, n, 8, n - 8)
  {
    hide SymbolGrid, FormatInfo, FirstCopy, SecondCopy, AlignmentPaint;
    FormatCopies(Size(v), i);
    assert InFormat(Size(v), 8, Size(v) - 8) && FormatIndex(Size(v), 8, Size(v) - 8) == None;
  }

  /** The drawing before masking; format modules may hold any mask's bits. */
  ghost predicate Unmasked(g: Grid, v: nat, codewords: Poly)
    requires ValidVersion(v) && Square(g, Size(v))
  {
    forall x, y :: InGrid(Size(v), x, y) && !InFormat(Size(v), x, y) ==>
      At(g, Size(v), x, y) == if IsFunction(v, x, y) then PatternDark(v, x, y) else CodewordBit(v, codewords, x, y)
  }

  /** m is the lowest of the first k masks whose finished symbol has minimal penalty. */
  ghost predicate BestOf(v: nat, ecl: Ecc, codewords: Poly, m: nat, k: nat)
    requires ValidVersion(v) && m < 8 && k <= 8
  {
    m < k && forall j :: 0 <= j < k ==>
      var best, other := MaskPenalty(v, ecl, codewords, m), MaskPenalty(v, ecl, codewords, j);
      best <= other && (j < m ==> best < other)
  }

  ghost function MaskPenalty(v: nat, ecl: Ecc, codewords: Poly, m: nat): nat
    requires ValidVersion(v) && m < 8
  {
    Score(SymbolGrid(v, ecl, codewords, m), Size(v))
  }

  lemma DrawnIsUnmasked(v: nat, codewords: Poly, blank: Grid, g: Grid)
    requires ValidVersion(v) && Square(blank, Size(v)) && Square(g, Size(v)) && ValidSize(Size(v))
    requires forall x, y :: InGrid(Size(v), x, y) && !InFormat(Size(v), x, y) ==>
      At(blank, Size(v), x, y) == PatternDark(v, x, y)
    requires DrawnUpTo(blank, g, FunctionGrid(v), Size(v), Stream(codewords), NumPairs(Size(v)), 0)
    ensures Unmasked(g, v, codewords)
  {
    var n, f, bits := Size(v), FunctionGrid(v), Stream(codewords);
    forall x, y | InGrid(n, x, y) && !InFormat(n, x, y)
      ensures At(g, n, x, y) == if IsFunction(v, x, y) then PatternDark(v, x, y) else CodewordBit(v, codewords, x, y)
    {
      assert At(g, n, x, y) == Drawn(blank, f, n, bits, NumPairs(n), 0, x, y);
    }
  }

  /**
   * Every free module carries the bit whose number is how many free modules come before it in the order of the
   * scan, most significant bits first; all other modules are as before.
   */
  ghost predicate InOrder(before: Grid, after: Grid, f: Grid, n: nat, data: Poly)
    requires Square(before, n) && Square(after, n) && Square(f, n)
  {
    forall x, y :: InGrid(n, x, y) ==>
      var k := |FreeEarlier(f, n, x, y)|;
      At(after, n, x, y) == if x != 6 && !At(f, n, x, y) && k < 8 * |data| then data[k / 8][k % 8]
                            else At(before, n, x, y)
  }

  lemma DrawnIsInOrder(before: Grid, after: Grid, f: Grid, n: nat, data: Poly)
    requires ValidSize(n) && Square(before, n) && Square(after, n) && Square(f, n)
    requires DrawnUpTo(before, after, f, n, Stream(data), NumPairs(n), 0)
    ensures InOrder(before, after, f, n, data)
  {
    hide FreeEarlier;
    forall x, y | InGrid(n, x, y)
      ensures var k := |FreeEarlier(f, n, x, y)|;
              At(after, n, x, y) == if x != 6 && !At(f, n, x, y) && k < 8 * |data| then data[k / 8][k % 8]
                                    else At(before, n, x, y)
    {
      assert At(after, n, x, y) == Drawn(before, f, n, Stream(data), NumPairs(n), 0, x, y);
      if x != 6 { RankIsOrder(f, n, x, y); }
    }
  }

  class QrCode {
    const version: nat
    const size: nat
    const ecl: Ecc
    var mask: int
    var modules: Grid
    var isFunction: Grid

    ghost predicate Valid()
      reads this
    {
      ValidVersion(version) && size == Size(version) && Square(modules, size) && Square(isFunction, size)
    }

    method SetFunctionModule(x: int, y: int, isDark: bool)
      requires Valid() && InGrid(size, x, y)
      modifies this`modules, this`isFunction
      ensures Valid()
      ensures modules == Put(old(modules), size, x, y, isDark)
      ensures isFunction == Put(old(isFunction), size, x, y, true)
    {
      modules := modules[y := modules[y][x := isDark]];
      isFunction := isFunction[y := isFunction[y][x := true]];
    }

    method DrawTimingPatterns()
      requires Valid()
      modifies this`modules, this`isFunction
      ensures Valid()
      ensures forall x, y :: InGrid(size, x, y) ==>
        At(modules, size, x, y) == if InTiming(x, y) then TimingDark(x, y) else At(old(modules), size, x, y)
      ensures forall x, y :: InGrid(size, x, y) ==>
        At(isFunction, size, x, y) == (InTiming(x, y) || At(old(isFunction), size, x, y))
    {
      for i := 0 to size
        invariant Valid()
        invariant forall x, y :: InGrid(size, x, y) ==>
          At(modules, size, x, y) == if (x == 6 && y < i) || (y == 6 && x < i) then TimingDark(x, y)
            else At(old(modules), size, x, y)
        invariant forall x, y :: InGrid(size, x, y) ==>
          At(isFunction, size, x, y) == ((x == 6 && y < i) || (y == 6 && x < i) || At(old(isFunction), size, x, y))
      {
        SetFunctionModule(6, i, i % 2 == 0);
        SetFunctionModule(i, 6, i % 2 == 0);
      }
    }

    /** Draws the 9*9 finder pattern around (cx, cy); modules outside the grid are skipped. */
    method DrawFinderPattern(cx: int, cy: int)
      requires Valid()
      modifies this`modules, this`isFunction
      ensures Valid()
      ensures forall x, y :: InGrid(size, x, y) ==>
        At(modules, size, x, y) == if InFinderAt(cx, cy, x, y) then FinderDark(cx, cy, x, y)
          else At(old(modules), size, x, y)
      ensures forall x, y :: InGrid(size, x, y) ==>
        At(isFunction, size, x, y) == (InFinderAt(cx, cy, x, y) || At(old(isFunction), size, x, y))
    {
      for dy := -4 to 5
        invariant Valid()
        invariant forall x, y :: InGrid(size, x, y) ==>
          At(modules, size, x, y) == if InFinderAt(cx, cy, x, y) && y - cy < dy then FinderDark(cx, cy, x, y)
                                     else At(old(modules), size, x, y)
        invariant forall x, y :: InGrid(size, x, y) ==>
          At(isFunction, size, x, y) == ((InFinderAt(cx, cy, x, y) && y - cy < dy) || At(old(isFunction), size, x, y))
      {
        for dx := -4 to 5
          invariant Valid()
          invariant forall x, y :: InGrid(size, x, y) ==>
            At(modules, size, x, y) == if InFinderAt(cx, cy, x, y) && Before(x - cx, y - cy, dx, dy)
              then FinderDark(cx, cy, x, y)
                                       else At(old(modules), size, x, y)
          invariant forall x, y :: InGrid(size, x, y) ==>
            At(isFunction, size, x, y) == ((InFinderAt(cx, cy, x, y) && Before(x - cx, y - cy, dx, dy))
              || At(old(isFunction), size, x, y))
        {
          var dist := Distance(dx, dy);
          var xx, yy := cx + dx, cy + dy;
          if 0 <= xx < size && 0 <= yy < size {
            SetFunctionModule(xx, yy, dist != 2 && dist != 4);
          }
        }
      }
    }

    /** Draws the 5*5 alignment pattern around (cx, cy), which must lie inside the grid. */
    method DrawAlignmentPattern(cx: int, cy: int)
      requires Valid() && 2 <= cx < size - 2 && 2 <= cy < size - 2
      modifies this`modules, this`isFunction
      ensures Valid()
      ensures forall x, y :: InGrid(size, x, y) ==>
        At(modules, size, x, y) == if InAlignAt(cx, cy, x, y) then AlignDark(cx, cy, x, y)
          else At(old(modules), size, x, y)
      ensures forall x, y :: InGrid(size, x, y) ==>
        At(isFunction, size, x, y) == (InAlignAt(cx, cy, x, y) || At(old(isFunction), size, x, y))
    {
      for dy := -2 to 3
        invariant Valid()
        invariant forall x, y :: InGrid(size, x, y) ==>
          At(modules, size, x, y) == if InAlignAt(cx, cy, x, y) && y - cy < dy then AlignDark(cx, cy, x, y)
                                     else At(old(modules), size, x, y)
        invariant forall x, y :: InGrid(size, x, y) ==>
          At(isFunction, size, x, y) == ((InAlignAt(cx, cy, x, y) && y - cy < dy) || At(old(isFunction), size, x, y))
      {
        for dx := -2 to 3
          invariant Valid()
          invariant forall x, y :: InGrid(size, x, y) ==>
            At(modules, size, x, y) == if InAlignAt(cx, cy, x, y) && Before(x - cx, y - cy, dx, dy)
              then AlignDark(cx, cy, x, y)
                                       else At(old(modules), size, x, y)
          invariant forall x, y :: InGrid(size, x, y) ==>
            At(isFunction, size, x, y) == ((InAlignAt(cx, cy, x, y) && Before(x - cx, y - cy, dx, dy))
              || At(old(isFunction), size, x, y))
        {
          SetFunctionModule(cx + dx, cy + dy, Distance(dx, dy) != 1);
        }
      }
    }

    /** Ascending positions, built from the back by inserting at the front. */
    method GetAlignmentPatternPositions() returns (result: seq<int>)
      requires Valid()
      ensures result == AlignPositions(version)
    {
      if version == 1 {
        return [];
      }
      var numAlign := version / 7 + 2;
      var step := (version * 8 + numAlign * 3 + 5) / (numAlign * 4 - 4) * 2;
      result := [];
      var pos := size - 7;
      for i := 0 to numAlign - 1
        invariant pos == size - 7 - i * step
        invariant result == seq(i, k => size - 7 - (i - 1 - k) * step)
      {
        result := [pos] + result;
        pos := pos - step;
        assert (i + 1) * step == i * step + step;
      }
      result := [6] + result;
    }

    /** The alignment patterns before pattern (i, j) have been drawn over the grids g and f. */
    ghost predicate Aligned(g: Grid, f: Grid, i: nat, j: nat)
      requires Valid() && Square(g, size) && Square(f, size)
      requires var a := |AlignPositions(version)|; (i < a && j <= a) || (i == a && j == 0)
      reads this
    {
      forall x, y :: InGrid(size, x, y) ==>
        var paint := AlignPaint(AlignPositions(version), i, j, x, y);
        && At(modules, size, x, y) == (if paint.Some? then paint.value else At(g, size, x, y))
        && At(isFunction, size, x, y) == (paint.Some? || At(f, size, x, y))
    }

    /** All alignment patterns in row order, except on the three finder corners. */
    method DrawAlignmentPatterns()
      requires Valid()
      modifies this`modules, this`isFunction
      ensures Valid()
      ensures Aligned(old(modules), old(isFunction), |AlignPositions(version)|, 0)
    {
      hide Aligned, AlignPositions, At;
      var alignPatPos := GetAlignmentPatternPositions();
      ghost var g, f := modules, isFunction;
      NothingAligned(g, f);
      var numAlign := |alignPatPos|;
      for i := 0 to numAlign
        invariant Valid() && Aligned(g, f, i, 0)
      {
        for j := 0 to numAlign
          invariant Valid() && Aligned(g, f, i, j)
        {
          DrawAlignmentAt(alignPatPos, i, j, g, f);
        }
        NextAlignmentRow(g, f, i);
      }
    }

    lemma NothingAligned(g: Grid, f: Grid)
      requires Valid() && g == modules && f == isFunction
      ensures Aligned(g, f, 0, 0)
    {
    }

    lemma NextAlignmentRow(g: Grid, f: Grid, i: nat)
      requires Valid() && Square(g, size) && Square(f, size) && i < |AlignPositions(version)|
      requires Aligned(g, f, i, |AlignPositions(version)|)
      ensures Aligned(g, f, i + 1, 0)
    {
    }

    /** The body of the inner loop. */
    method DrawAlignmentAt(pos: seq<int>, i: nat, j: nat, ghost g: Grid, ghost f: Grid)
      requires Valid() && Square(g, size) && Square(f, size)
      requires pos == AlignPositions(version) && i < |pos| && j < |pos| && Aligned(g, f, i, j)
      modifies this`modules, this`isFunction
      ensures Valid() && Aligned(g, f, i, j + 1)
    {
      var numAlign := |pos|;
      if !((i == 0 && j == 0) || (i == 0 && j == numAlign - 1) || (i == numAlign - 1 && j == 0)) {
        AlignApart(version, i, i);
        AlignApart(version, j, j);
        DrawAlignmentPattern(pos[i], pos[j]);
      }
    }

    /** Both copies of the format bits and the dark module; nothing else changes. */
    method DrawFormatBits(msk: nat)
      requires Valid() && msk < 8
      modifies this`modules, this`isFunction
      ensures Valid()
      ensures forall x, y :: InGrid(size, x, y) ==>
        At(modules, size, x, y) == if InFormat(size, x, y) then FormatDark(size, FormatInfo(ecl, msk), x, y)
                                   else At(old(modules), size, x, y)
      ensures forall x, y :: InGrid(size, x, y) ==>
        At(isFunction, size, x, y) == (InFormat(size, x, y) || At(old(isFunction), size, x, y))
    {
      var bits := FormatInformation(ecl, msk);
      DrawFirstFormatCopy(bits);
      DrawSecondFormatCopy(bits);
    }

    method DrawFirstFormatCopy(bits: seq<bool>)
      requires Valid() && |bits| == 15
      modifies this`modules, this`isFunction
      ensures Valid()
      ensures forall x, y :: InGrid(size, x, y) ==>
        At(modules, size, x, y) == if InFormat(size, x, y) && x <= 8 && y <= 8 then FormatDark(size, bits, x, y)
                                   else At(old(modules), size, x, y)
      ensures forall x, y :: InGrid(size, x, y) ==>
        At(isFunction, size, x, y) == ((InFormat(size, x, y) && x <= 8 && y <= 8) || At(old(isFunction), size, x, y))
    {
      DrawFormatColumn(bits);
      label corner:
      for i := 9 to 15
        invariant Valid()
        invariant forall x, y :: InGrid(size, x, y) ==>
          At(modules, size, x, y) == if y == 8 && 14 - i < x <= 5 then bits[x] else At(old@corner(modules), size, x, y)
        invariant forall x, y :: InGrid(size, x, y) ==>
          At(isFunction, size, x, y) == ((y == 8 && 14 - i < x <= 5) || At(old@corner(isFunction), size, x, y))
      {
        SetFunctionModule(14 - i, 8, bits[14 - i]);
      }
    }

    /** Bits 0 to 8 of the first copy: down column 8, around the timing pattern, to (7, 8). */
    method DrawFormatColumn(bits: seq<bool>)
      requires Valid() && |bits| == 15
      modifies this`modules, this`isFunction
      ensures Valid()
      ensures forall x, y :: InGrid(size, x, y) ==>
        At(modules, size, x, y) == if InFormat(size, x, y) && 6 < x <= 8 && y <= 8 then FormatDark(size, bits, x, y)
                                   else At(old(modules), size, x, y)
      ensures forall x, y :: InGrid(size, x, y) ==>
        At(isFunction, size, x, y) == ((InFormat(size, x, y) && 6 < x <= 8 && y <= 8)
          || At(old(isFunction), size, x, y))
    {
      for i := 0 to 6
        invariant Valid()
        invariant forall x, y :: InGrid(size, x, y) ==>
          At(modules, size, x, y) == if x == 8 && y < i then bits[14 - y] else At(old(modules), size, x, y)
        invariant forall x, y :: InGrid(size, x, y) ==>
          At(isFunction, size, x, y) == ((x == 8 && y < i) || At(old(isFunction), size, x, y))
      {
        SetFunctionModule(8, i, bits[14 - i]);
      }
      SetFunctionModule(8, 7, bits[14 - 6]);
      SetFunctionModule(8, 8, bits[14 - 7]);
      SetFunctionModule(7, 8, bits[14 - 8]);
    }

    method DrawSecondFormatCopy(bits: seq<bool>)
      requires Valid() && |bits| == 15
      modifies this`modules, this`isFunction
      ensures Valid()
      ensures forall x, y :: InGrid(size, x, y) ==>
        At(modules, size, x, y) == if InFormat(size, x, y) && (x > 8 || y > 8) then FormatDark(size, bits, x, y)
                                   else At(old(modules), size, x, y)
      ensures forall x, y :: InGrid(size, x, y) ==>
        At(isFunction, size, x, y) == ((InFormat(size, x, y) && (x > 8 || y > 8)) || At(old(isFunction), size, x, y))
    {
      for i := 0 to 8
        invariant Valid()
        invariant forall x, y :: InGrid(size, x, y) ==>
          At(modules, size, x, y) == if y == 8 && x > size - 1 - i then bits[14 - (size - 1 - x)]
            else At(old(modules), size, x, y)
        invariant forall x, y :: InGrid(size, x, y) ==>
          At(isFunction, size, x, y) == ((y == 8 && x > size - 1 - i) || At(old(isFunction), size, x, y))
      {
        SetFunctionModule(size - 1 - i, 8, bits[14 - i]);
      }
      label right:
      for i := 8 to 15
        invariant Valid()
        invariant forall x, y :: InGrid(size, x, y) ==>
          At(modules, size, x, y) == if x == 8 && size - 7 <= y < size - 15 + i then bits[14 - (y - size + 15)]
                                     else At(old@right(modules), size, x, y)
        invariant forall x, y :: InGrid(size, x, y) ==>
          At(isFunction, size, x, y) == ((x == 8 && size - 7 <= y < size - 15 + i)
            || At(old@right(isFunction), size, x, y))
      {
        SetFunctionModule(8, size - 15 + i, bits[14 - i]);
      }
      SetFunctionModule(8, size - 8, true);
    }

    /** Both copies of the version bits, from version 7 on. */
    method DrawVersion()
      requires Valid()
      modifies this`modules, this`isFunction
      ensures Valid()
      ensures forall x, y :: InGrid(size, x, y) ==>
        At(modules, size, x, y) == if InVersion(version, x, y) then VersionDark(version, VersionInfo(version), x, y)
                                   else At(old(modules), size, x, y)
      ensures forall x, y :: InGrid(size, x, y) ==>
        At(isFunction, size, x, y) == (InVersion(version, x, y) || At(old(isFunction), size, x, y))
    {
      if version >= 7 {
        var bits := VersionInformation(version);
        DrawVersionCopies(bits);
      }
    }

    method DrawVersionCopies(bits: seq<bool>)
      requires Valid() && version >= 7 && |bits| == 18
      modifies this`modules, this`isFunction
      ensures Valid()
      ensures forall x, y :: InGrid(size, x, y) ==>
        At(modules, size, x, y) == if InVersion(version, x, y) then VersionDark(version, bits, x, y)
                                   else At(old(modules), size, x, y)
      ensures forall x, y :: InGrid(size, x, y) ==>
        At(isFunction, size, x, y) == (InVersion(version, x, y) || At(old(isFunction), size, x, y))
    {
      hide At, Square;
      for i := 0 to 18
        invariant Valid()
        invariant forall x, y :: InGrid(size, x, y) ==>
          At(modules, size, x, y) == if InVersion(version, x, y) && VersionIndex(version, x, y) < i
            then VersionDark(version, bits, x, y)
                                     else At(old(modules), size, x, y)
        invariant forall x, y :: InGrid(size, x, y) ==>
          At(isFunction, size, x, y) == ((InVersion(version, x, y) && VersionIndex(version, x, y) < i)
            || At(old(isFunction), size, x, y))
      {
        var bit := bits[17 - i];
        DrawVersionBit(i, bit);
      }
    }

    /** The body of the loop: bit i in both copies. */
    method DrawVersionBit(i: nat, bit: bool)
      requires Valid() && version >= 7 && i < 18
      modifies this`modules, this`isFunction
      ensures Valid()
      ensures forall x, y :: InGrid(size, x, y) ==>
        At(modules, size, x, y) == if InVersion(version, x, y) && VersionIndex(version, x, y) == i then bit
          else At(old(modules), size, x, y)
      ensures forall x, y :: InGrid(size, x, y) ==>
        At(isFunction, size, x, y) == ((InVersion(version, x, y) && VersionIndex(version, x, y) == i)
          || At(old(isFunction), size, x, y))
    {
      var a := size - 11 + i % 3;
      var b := i / 3;
      assert a - (size - 11) + 3 * b == i;
      SetFunctionModule(a, b, bit);
      SetFunctionModule(b, a, bit);
    }

    /** Timing and finder patterns; finders cover some timing modules. */
    method DrawFixedPatterns()
      requires Valid()
      requires forall x, y :: InGrid(size, x, y) ==> !At(modules, size, x, y) && !At(isFunction, size, x, y)
      modifies this`modules, this`isFunction
      ensures Valid()
      ensures forall x, y :: InGrid(size, x, y) ==> At(modules, size, x, y) == FixedDark(version, x, y)
      ensures forall x, y :: InGrid(size, x, y) ==>
        At(isFunction, size, x, y) == (InTiming(x, y) || InFinder(size, x, y))
    {
      DrawTimingPatterns();
      DrawFinderPattern(3, 3);
      DrawFinderPattern(size - 4, 3);
      DrawFinderPattern(3, size - 4);
    }

    /** Marks exactly the function modules of the version and paints them; all other modules stay light. */
    method DrawFunctionPatterns()
      requires Valid()
      requires forall x, y :: InGrid(size, x, y) ==> !At(modules, size, x, y) && !At(isFunction, size, x, y)
      modifies this`modules, this`isFunction
      ensures Valid()
      ensures isFunction == FunctionGrid(version)
      ensures forall x, y :: InGrid(size, x, y) && !InFormat(size, x, y) ==>
        At(modules, size, x, y) == PatternDark(version, x, y)
    {
      DrawFixedPatterns();
      DrawAlignmentPatterns();
      DrawFormatBits(0);
      DrawVersion();
      SameGrid(isFunction, FunctionGrid(version), size);
    }

    /** A module's colour; everything outside the symbol is light. */
    method GetModule(x: int, y: int) returns (dark: bool)
      requires Square(modules, size)
      ensures dark <==> InGrid(size, x, y) && At(modules, size, x, y)
    {
      dark := 0 <= x < size && 0 <= y < size && modules[y][x];
    }

    /** Draws the codewords over the free modules in scan order; false on a wrong codeword count. */
    method DrawCodewords(data: Poly) returns (ok: bool)
      requires Valid() && isFunction == FunctionGrid(version)
      modifies this`modules
      ensures Valid()
      ensures ok <==> |data| == RawCodewords(version)
      ensures !ok ==> modules == old(modules)
      ensures ok ==> DrawnUpTo(old(modules), modules, isFunction, size, Stream(data), NumPairs(size), 0)
      ensures ok ==> InOrder(old(modules), modules, isFunction, size, data)
    {
      hide RawDataModules, Rank, DrawnUpTo, InOrder;
      if |data| != RawCodewords(version) {
        return false;
      }
      ghost var blank, bits := modules, Stream(data);
      var i := 0;
      ghost var p := 0;
      ScanStarts(blank, isFunction, size, bits);
      var right := size - 1;
      while right >= 1
        invariant Valid() && InScan(size, p, 0)
        invariant right == if size - 1 - 2 * p >= 6 then size - 1 - 2 * p else size - 2 - 2 * p
        invariant DrawnUpTo(blank, modules, isFunction, size, bits, p, 0)
        invariant i == Min(Rank(isFunction, size, p, 0), |bits|)
        decreases right
      {
        if right == 6 {
          right := 5;
        }
        assert right == RightColumn(size, p);
        i := DrawColumnPair(data, right, i, p, blank);
        p := p + 1;
        right := right - 2;
      }
      EnoughFreeModules(version);
      assert i == 8 * |data|;
      DrawnIsInOrder(blank, modules, isFunction, size, data);
      ok := true;
    }

    /** One module of the scan: it takes the next codeword bit unless it is a function module. */
    method DrawModule(data: Poly, x: int, y: int, start: nat, ghost p: nat, ghost r: nat, ghost blank: Grid)
                      returns (i: nat)
      requires Valid() && InScan(size, p, r) && p < NumPairs(size) && r < 2 * size && Square(blank, size)
      requires CellAt(size, p, r) == Cell(x, y) && InGrid(size, x, y)
      requires DrawnUpTo(blank, modules, isFunction, size, Stream(data), p, r)
      requires start == Min(Rank(isFunction, size, p, r), |Stream(data)|)
      modifies this`modules
      ensures Valid()
      ensures DrawnUpTo(blank, modules, isFunction, size, Stream(data), p, r + 1)
      ensures i == Min(Rank(isFunction, size, p, r + 1), |Stream(data)|)
    {
      i := start;
      DrawStep(blank, modules, isFunction, size, Stream(data), p, r);
      if !isFunction[y][x] && i < |data| * 8 {
        modules := Put(modules, size, x, y, data[i / 8][i % 8]);
        i := i + 1;
      }
    }

    /** One column pair of the scan, top to bottom or bottom to top. */
    method DrawColumnPair(data: Poly, right: nat, start: nat, ghost p: nat, ghost blank: Grid) returns (i: nat)
      requires Valid() && ValidSize(size) && p < NumPairs(size) && right == RightColumn(size, p) && Square(blank, size)
      requires DrawnUpTo(blank, modules, isFunction, size, Stream(data), p, 0)
      requires start == Min(Rank(isFunction, size, p, 0), |Stream(data)|)
      modifies this`modules
      ensures Valid()
      ensures DrawnUpTo(blank, modules, isFunction, size, Stream(data), p + 1, 0)
      ensures i == Min(Rank(isFunction, size, p + 1, 0), |Stream(data)|)
    {
      hide DrawnUpTo, Rank, Stream, CellAt, RightColumn, Upward;
      ghost var bits := Stream(data);
      i := start;
      for vert := 0 to size
        invariant Valid()
        invariant DrawnUpTo(blank, modules, isFunction, size, bits, p, 2 * vert)
        invariant i == Min(Rank(isFunction, size, p, 2 * vert), |bits|)
      {
        for j := 0 to 2
          invariant Valid()
          invariant DrawnUpTo(blank, modules, isFunction, size, bits, p, 2 * vert + j)
          invariant i == Min(Rank(isFunction, size, p, 2 * vert + j), |bits|)
        {
          var x := right - j;
          var upward := Upward(right);
          var y := if upward then size - 1 - vert else vert;
          CellOfCounters(size, p, vert, j);
          i := DrawModule(data, x, y, i, p, 2 * vert + j, blank);
        }
      }
      NextPair(blank, modules, isFunction, size, bits, p);
    }

    /** Exclusive-ors the free modules with a mask; applying the same mask again undoes it. */
    method ApplyMask(msk: nat)
      requires Valid() && msk < 8
      modifies this`modules
      ensures Valid()
      ensures forall x, y :: InGrid(size, x, y) ==>
        At(modules, size, x, y) == (At(old(modules), size, x, y) != (MaskBit(msk, x, y) && !At(isFunction, size, x, y)))
      ensures forall x, y :: InGrid(size, x, y) ==>
        At(modules, size, x, y) == (At(old(modules), size, x, y) != (InTile(msk, x, y) && !At(isFunction, size, x, y)))
    {
      hide MaskBit, InTile;
      forall x: nat, y: nat
        ensures MaskBit(msk, x, y) == InTile(msk, x, y)
      {
        MaskIsTiled(msk, x, y);
      }
      for y := 0 to size
        invariant Valid()
        invariant forall a, b :: InGrid(size, a, b) ==>
          At(modules, size, a, b) == if b < y
            then At(old(modules), size, a, b) != (MaskBit(msk, a, b) && !At(isFunction, size, a, b))
                                     else At(old(modules), size, a, b)
      {
        for x := 0 to size
          invariant Valid()
          invariant forall a, b :: InGrid(size, a, b) ==>
            At(modules, size, a, b) == if Before(a, b, x, y)
              then At(old(modules), size, a, b) != (MaskBit(msk, a, b) && !At(isFunction, size, a, b))
                                       else At(old(modules), size, a, b)
        {
          var invert := MaskBit(msk, x, y);
          modules := Put(modules, size, x, y, modules[y][x] != (invert && !isFunction[y][x]));
        }
      }
    }

    /** Masking and drawing the format bits turns the unmasked drawing into the finished symbol. */
    method Finish(msk: nat, ghost codewords: Poly)
      requires Valid() && msk < 8 && isFunction == FunctionGrid(version)
      requires Unmasked(modules, version, codewords)
      modifies this`modules, this`isFunction
      ensures Valid() && isFunction == FunctionGrid(version)
      ensures modules == SymbolGrid(version, ecl, codewords, msk)
    {
      ApplyMask(msk);
      DrawFormatBits(msk);
      SameGrid(isFunction, FunctionGrid(version), size);
      SameGrid(modules, SymbolGrid(version, ecl, codewords, msk), size);
    }

    /** Undoing a trial mask leaves no trace outside the format bits. */
    method Undo(msk: nat, ghost codewords: Poly)
      requires Valid() && msk < 8 && isFunction == FunctionGrid(version)
      requires modules == SymbolGrid(version, ecl, codewords, msk)
      modifies this`modules
      ensures Valid()
      ensures Unmasked(modules, version, codewords)
    {
      ApplyMask(msk);
    }

    /** Applies mask i, scores the finished symbol and undoes the mask. */
    method TryMask(i: nat, ghost codewords: Poly) returns (penalty: nat)
      requires Valid() && i < 8 && isFunction == FunctionGrid(version)
      requires Unmasked(modules, version, codewords)
      modifies this`modules, this`isFunction
      ensures Valid() && isFunction == FunctionGrid(version)
      ensures Unmasked(modules, version, codewords)
      ensures penalty == MaskPenalty(version, ecl, codewords, i) <= SCORE_BOUND
    {
      Finish(i, codewords);
      penalty := PenaltyScore(modules, size);
      ScoreBound(modules, size);
      Undo(i, codewords);
    }

    /** Tries all eight masks in place, undoing each, and returns the lowest one with minimal penalty. */
    method ChooseMask(ghost codewords: Poly) returns (msk: nat)
      requires Valid() && isFunction == FunctionGrid(version)
      requires Unmasked(modules, version, codewords)
      modifies this`modules, this`isFunction
      ensures Valid() && isFunction == FunctionGrid(version)
      ensures Unmasked(modules, version, codewords)
      ensures msk < 8 && BestOf(version, ecl, codewords, msk, 8)
    {
      hide MaskPenalty, Unmasked;
      var minPenalty := LONG_MAX;
      msk := 0;
      for i := 0 to 8
        invariant Valid() && isFunction == FunctionGrid(version)
        invariant Unmasked(modules, version, codewords)
        invariant i == 0 ==> minPenalty == LONG_MAX
        invariant i > 0 ==> msk < i && BestOf(version, ecl, codewords, msk, i)
                            && minPenalty == MaskPenalty(version, ecl, codewords, msk)
      {
        var penalty := TryMask(i, codewords);
        if penalty < minPenalty {
          msk := i;
          minPenalty := penalty;
        }
      }
    }

    /** Function patterns and codewords on an empty grid. */
    method DrawUnmasked(dataCodewords: Poly) returns (ghost codewords: Poly)
      requires Valid() && |dataCodewords| == DataCodewords(version, ecl)
      requires forall x, y :: InGrid(size, x, y) ==> !At(modules, size, x, y) && !At(isFunction, size, x, y)
      modifies this`modules, this`isFunction
      ensures Valid() && isFunction == FunctionGrid(version)
      ensures codewords == Interleaved(LayoutFor(version, ecl), dataCodewords)
      ensures Unmasked(modules, version, codewords)
    {
      hide DataCodewords, RawCodewords, LayoutFor, Interleaved, Unmasked, DrawnUpTo, FunctionGrid;
      DrawFunctionPatterns();
      ghost var blank := modules;
      var layout := LayoutFor(version, ecl);
      var allCodewords := AddEccAndInterleave(layout, dataCodewords);
      codewords := allCodewords.value;
      InterleavedLength(layout, dataCodewords);
      var drawn := DrawCodewords(allCodewords.value);
      DrawnIsUnmasked(version, codewords, blank, modules);
    }

    /** The data must have the length the version and level ask for; a mask of -1 asks for the best one. */
    constructor (ver: nat, level: Ecc, dataCodewords: Poly, msk: int)
      requires ValidVersion(ver) && -1 <= msk <= 7 && |dataCodewords| == DataCodewords(ver, level)
      ensures version == ver && ecl == level && size == Size(ver) && 0 <= mask < 8 && isFunction == []
      ensures modules == SymbolGrid(ver, level, Interleaved(LayoutFor(ver, level), dataCodewords), mask)
      ensures msk != -1 ==> mask == msk
      ensures msk == -1 ==> BestOf(ver, level, Interleaved(LayoutFor(ver, level), dataCodewords), mask, 8)
    {
      hide DataCodewords, LayoutFor, Interleaved, BestOf, Unmasked, SymbolGrid, FunctionGrid;
      version := ver;
      ecl := level;
      size := ver * 4 + 17;
      mask := msk;
      modules := Blank(ver * 4 + 17);
      isFunction := Blank(ver * 4 + 17);
      new;
      ghost var codewords := DrawUnmasked(dataCodewords);
      if msk == -1 {
        var best := ChooseMask(codewords);
        mask := best;
      }
      Finish(mask, codewords);
      isFunction := [];
    }
  }

  /** The best mask has the least penalty, and among those with the least one the lowest number. */
  lemma BestIsLowest(v: nat, ecl: Ecc, codewords: Poly, m: nat, j: nat)
    requires ValidVersion(v) && m < 8 && j < 8 && BestOf(v, ecl, codewords, m, 8)
    ensures var best := Score(SymbolGrid(v, ecl, codewords, m), Size(v));
            var other := Score(SymbolGrid(v, ecl, codewords, j), Size(v));
            if j < m then best < other else best <= other
  {
    hide SymbolGrid, Score;
    assert MaskPenalty(v, ecl, codewords, j) == Score(SymbolGrid(v, ecl, codewords, j), Size(v));
    assert MaskPenalty(v, ecl, codewords, m) <= MaskPenalty(v, ecl, codewords, j);
  }

  /** Construction with its error cases: version and mask out of range, wrong number of data codewords. */
  method NewQrCode(ver: int, ecl: Ecc, dataCodewords: Poly, msk: int) returns (r: Option<QrCode>)
    ensures r.None? <==> !ValidVersion(ver) || msk < -1 || msk > 7 || |dataCodewords| != DataCodewords(ver, ecl)
    ensures r.Some? ==> r.value.version == ver && r.value.ecl == ecl && 0 <= r.value.mask < 8
    ensures r.Some? ==>
            r.value.modules == SymbolGrid(ver, ecl, Interleaved(LayoutFor(ver, ecl), dataCodewords), r.value.mask)
    ensures r.Some? ==> if msk != -1 then r.value.mask == msk
                        else BestOf(ver, ecl, Interleaved(LayoutFor(ver, ecl), dataCodewords), r.value.mask, 8)
  {
    hide DataCodewords, LayoutFor, Interleaved, BestOf, SymbolGrid, RawCodewords;
    if !ValidVersion(ver) || msk < -1 || msk > 7 {
      return None;
    }
    if |dataCodewords| != DataCodewords(ver, ecl) {
      return None;
    }
    var qr := new QrCode(ver, ecl, dataCodewords, msk);
    r := Some(qr);
  }

  method FormatInformation(ecl: Ecc, msk: nat) returns (bits: seq<bool>)
    requires msk < 8
    ensures bits == FormatInfo(ecl, msk)
  {
    var data := BitsOf(ecl.FormatBits() * 8 + msk, 5);
    var rem := Zeros(5) + data;
    for i := 0 to 10
      invariant rem == FormatRemainder(data, i)
    {
      rem := Xor(rem[1..] + [false], if rem[0] then FORMAT_DIVISOR else Zeros(10));
    }
    bits := Xor(data + rem, FORMAT_MASK);
  }

  method VersionInformation(v: nat) returns (bits: seq<bool>)
    ensures bits == VersionInfo(v)
  {
    var rem := BitsOf(v, 12);
    for i := 0 to 12
      invariant rem == VersionRemainder(v, i)
    {
      rem := Xor(rem[1..] + [false], if rem[0] then VERSION_DIVISOR else Zeros(12));
    }
    bits := BitsOf(v, 6) + rem;
  }
}
