// The scan finds room for every codeword: at every version the function patterns leave at least
// RawDataModules(v) modules free (deps/qrcodegen.cpp, lines 557 and 681-693).
module Capacity {
  import opened Grids
  import opened Versions
  import opened Patterns
  import opened Zigzag

  // ---- an upper bound on the function modules ----

  ghost function FinderRegion(n: nat): Region
    requires n >= 21
  {
    Box(0, 0, 8, 8) + Box(n - 8, 0, 8, 8) + Box(0, n - 8, 8, 8)
  }

  ghost function TimingRegion(n: nat): Region
    requires n >= 21
  {
    Box(8, 6, n - 16, 1) + Box(6, 8, 1, n - 16)
  }

  ghost function FormatRegion(n: nat): Region
    requires n >= 21
  {
    (Box(8, 0, 1, 6) + Box(8, 7, 1, 2) + Box(0, 8, 6, 1))
      + (Box(7, 8, 1, 1) + Box(n - 8, 8, 8, 1) + Box(8, n - 8, 1, 8))
  }

  ghost function VersionRegion(v: nat): Region {
    if v < 7 then {} else Box(Size(v) - 11, 0, 3, 6) + Box(0, Size(v) - 11, 6, 3)
  }

  lemma FinderRegionSize(n: nat)
    requires n >= 21
    ensures |FinderRegion(n)| <= 192
  {
    BoxSize(0, 0, 8, 8);
    BoxSize(n - 8, 0, 8, 8);
    BoxSize(0, n - 8, 8, 8);
  }

  lemma TimingRegionSize(n: nat)
    requires n >= 21
    ensures |TimingRegion(n)| <= 2 * (n - 16)
  {
    BoxSize(8, 6, n - 16, 1);
    BoxSize(6, 8, 1, n - 16);
  }

  lemma FormatRegionSize(n: nat)
    requires n >= 21
    ensures |FormatRegion(n)| <= 31
  {
    BoxSize(8, 0, 1, 6);
    BoxSize(8, 7, 1, 2);
    BoxSize(0, 8, 6, 1);
    BoxSize(7, 8, 1, 1);
    BoxSize(n - 8, 8, 8, 1);
    BoxSize(8, n - 8, 1, 8);
  }

  lemma VersionRegionSize(v: nat)
    ensures |VersionRegion(v)| <= if v >= 7 then 36 else 0
  {
    BoxSize(Size(v) - 11, 0, 3, 6);
    BoxSize(0, Size(v) - 11, 6, 3);
  }

  /** Pattern (i, j) without the modules it shares with the timing patterns. */
  ghost function AlignRegionAt(pos: seq<int>, i: nat, j: nat): Region
    requires i < |pos| && j < |pos|
  {
    var x, y := pos[i] - 2, pos[j] - 2;
    if i == 0 then Box(x, y, 2, 5) + Box(x + 3, y, 2, 5)
    else if j == 0 then Box(x, y, 5, 2) + Box(x, y + 3, 5, 2)
    else Box(x, y, 5, 5)
  }

  lemma AlignRegionSize(pos: seq<int>, i: nat, j: nat)
    requires i < |pos| && j < |pos|
    ensures |AlignRegionAt(pos, i, j)| <= if i == 0 || j == 0 then 20 else 25
  {
    var x, y := pos[i] - 2, pos[j] - 2;
    BoxSize(x, y, 2, 5); BoxSize(x + 3, y, 2, 5);
    BoxSize(x, y, 5, 2); BoxSize(x, y + 3, 5, 2);
    BoxSize(x, y, 5, 5);
  }

  ghost function AlignRegion(pos: seq<int>, i: nat, j: nat): Region
    requires (i < |pos| && j <= |pos|) || (i == |pos| && j == 0)
    decreases i, j
  {
    if j > 0 then
      AlignRegion(pos, i, j - 1) + (if AlignCorner(|pos|, i, j - 1) then {} else AlignRegionAt(pos, i, j - 1))
    else if i > 0 then AlignRegion(pos, i - 1, |pos|)
    else {}
  }

  /** The area of row i's patterns before column j. */
  function RowArea(a: nat, i: nat, j: nat): nat
    requires i < a && j <= a
    decreases j
  {
    if j == 0 then 0
    else RowArea(a, i, j - 1) + (if AlignCorner(a, i, j - 1) then 0 else if i == 0 || j == 1 then 20 else 25)
  }

  function AlignArea(a: nat, i: nat): nat
    requires i <= a
    decreases i
  {
    if i == 0 then 0 else AlignArea(a, i - 1) + RowArea(a, i - 1, a)
  }

  lemma {:induction false} RowAreaClosedForm(a: nat, i: nat, j: nat)
    requires a >= 2 && i < a && 1 <= j <= a
    ensures RowArea(a, i, j) == if i == 0 then 20 * (if j == a then a - 2 else j - 1)
                                else (if i == a - 1 then 0 else 20) + 25 * (j - 1)
    decreases j
  {
    if j > 1 { RowAreaClosedForm(a, i, j - 1); }
  }

  lemma {:induction false} AlignAreaClosedForm(a: nat, i: nat)
    requires a >= 2 && 1 <= i <= a
    ensures AlignArea(a, i) == 20 * (a - 2) + (if i == a then (a - 2) * 20 else (i - 1) * 20) + 25 * ((i - 1) * (a - 1))
  {
    RowAreaClosedForm(a, i - 1, a);
    if i > 1 {
      AlignAreaClosedForm(a, i - 1);
      assert (i - 1) * (a - 1) == (i - 2) * (a - 1) + (a - 1);
    } else {
      assert AlignArea(a, 0) == 0;
    }
  }

  lemma {:induction false} AlignRegionBound(pos: seq<int>, i: nat, j: nat)
    requires (i < |pos| && j <= |pos|) || (i == |pos| && j == 0)
    ensures |AlignRegion(pos, i, j)| <= AlignArea(|pos|, i) + (if i < |pos| then RowArea(|pos|, i, j) else 0)
    decreases i, j
  {
    if j > 0 {
      AlignRegionBound(pos, i, j - 1);
      AlignRegionSize(pos, i, j - 1);
    } else if i > 0 {
      AlignRegionBound(pos, i - 1, |pos|);
    }
  }

  lemma {:induction false} PaintedInRegion(pos: seq<int>, i: nat, j: nat, x: int, y: int)
    requires (i < |pos| && j <= |pos|) || (i == |pos| && j == 0)
    requires |pos| > 0 ==> pos[0] == 6
    requires AlignPaint(pos, i, j, x, y).Some? && x != 6 && y != 6
    ensures (x, y) in AlignRegion(pos, i, j)
    decreases i, j
  {
    if j > 0 {
      if !AlignCorner(|pos|, i, j - 1) && InAlignAt(pos[i], pos[j - 1], x, y) {
        assert (x, y) in AlignRegionAt(pos, i, j - 1);
      } else {
        PaintedInRegion(pos, i, j - 1, x, y);
      }
    } else if i > 0 {
      PaintedInRegion(pos, i - 1, |pos|, x, y);
    }
  }

  ghost function FunctionRegion(v: nat): Region
    requires ValidVersion(v)
  {
    var pos := AlignPositions(v);
    FinderRegion(Size(v)) + TimingRegion(Size(v)) + FormatRegion(Size(v)) + VersionRegion(v)
    + AlignRegion(pos, |pos|, 0)
  }

  lemma FunctionsInRegion(v: nat, x: int, y: int)
    requires ValidVersion(v) && InGrid(Size(v), x, y) && IsFunction(v, x, y)
    ensures (x, y) in FunctionRegion(v)
  {
    var n := Size(v);
    if InFinder(n, x, y) {
      assert (x, y) in FinderRegion(n);
    } else if InTiming(x, y) {
      assert (x, y) in TimingRegion(n);
    } else if InFormat(n, x, y) {
      assert (x, y) in FormatRegion(n);
    } else if InVersion(v, x, y) {
      assert (x, y) in VersionRegion(v);
    } else {
      PaintedInRegion(AlignPositions(v), |AlignPositions(v)|, 0, x, y);
    }
  }

  lemma FunctionRegionBound(v: nat)
    requires ValidVersion(v)
    ensures |FunctionRegion(v)| <= Size(v) * Size(v) - RawDataModules(v)
  {
    var pos := AlignPositions(v);
    FinderRegionSize(Size(v));
    TimingRegionSize(Size(v));
    FormatRegionSize(Size(v));
    VersionRegionSize(v);
    AlignRegionBound(pos, |pos|, 0);
    AreasAddUp(v);
  }

  /** The region's parts add up to exactly what RawDataModules leaves out of the square. */
  lemma AreasAddUp(v: nat)
    requires ValidVersion(v)
    ensures var a := |AlignPositions(v)|;
            192 + 2 * (Size(v) - 16) + 31 + (if v >= 7 then 36 else 0) + AlignArea(a, a)
            == Size(v) * Size(v) - RawDataModules(v)
  {
    Squares(v);
    RawClosedForm(v);
    if v >= 2 {
      hide AlignArea, RawDataModules;
      var a := NumAlign(v);
      AlignAreaClosedForm(a, a);
      Expand(a);
      AddUp(v, v * v, (25 * a - 10) * a - 55, Size(v) * Size(v), RawDataModules(v));
    }
  }

  lemma AddUp(v: int, square: int, area: int, modules: int, raw: int)
    requires v >= 2 && modules == 16 * square + 136 * v + 289
    requires raw == 16 * square + 128 * v + 64 - area - (if v >= 7 then 36 else 0)
    ensures 192 + 2 * (4 * v + 1) + 31 + (if v >= 7 then 36 else 0) + area == modules - raw
  {
  }

  lemma RawClosedForm(v: nat)
    requires ValidVersion(v)
    ensures var a := NumAlign(v);
            RawDataModules(v) == 16 * (v * v) + 128 * v + 64
                                 - (if v >= 2 then (25 * a - 10) * a - 55 else 0) - (if v >= 7 then 36 else 0)
  {
    Squares(v);
  }

  lemma Squares(v: nat)
    ensures Size(v) * Size(v) == 16 * (v * v) + 136 * v + 289
    ensures (16 * v + 128) * v == 16 * (v * v) + 128 * v
  {
  }

  lemma Expand(a: nat)
    requires a >= 2
    ensures 20 * (a - 2) + (a - 2) * 20 + 25 * ((a - 1) * (a - 1)) == (25 * a - 10) * a - 55
  {
  }

  // ---- the scan visits every free module ----

  ghost function FreeVisited(f: Grid, n: nat, p: nat, r: nat): Region
    requires Square(f, n) && InScan(n, p, r)
  {
    set x: int, y: int | 0 <= x < n && 0 <= y < n && x != 6 && !At(f, n, x, y) && VisitedBefore(n, x, y, p, r) :: (x, y)
  }

  lemma {:induction false} RankCounts(f: Grid, n: nat, p: nat, r: nat)
    requires Square(f, n) && InScan(n, p, r)
    ensures Rank(f, n, p, r) == |FreeVisited(f, n, p, r)|
    decreases p, r
  {
    hide PairOf, StepOf, CellAt;
    var visited := FreeVisited(f, n, p, r);
    if r > 0 {
      RankCounts(f, n, p, r - 1);
      VisitedOnce(n, p, r - 1);
      var c := CellAt(n, p, r - 1);
      var before := FreeVisited(f, n, p, r - 1);
      forall x, y | InGrid(n, x, y) && x != 6 && PairOf(n, x) == p && StepOf(n, x, y) == r - 1
        ensures x == c.x && y == c.y
      {
        VisitedAtItsStep(n, x, y);
      }
      if At(f, n, c.x, c.y) {
        assert visited == before;
      } else {
        assert visited == before + {(c.x, c.y)};
      }
    } else if p > 0 {
      RankCounts(f, n, p - 1, 2 * n);
      assert visited == FreeVisited(f, n, p - 1, 2 * n);
    } else {
      assert visited == {};
    }
  }

  /** The free modules that come before (x, y) in the order of the scan. */
  ghost function FreeEarlier(f: Grid, n: nat, x: int, y: int): Region
    requires Square(f, n)
  {
    set a: int, b: int | 0 <= a < n && 0 <= b < n && a != 6 && !At(f, n, a, b) && Earlier(n, a, b, x, y) :: (a, b)
  }

  /** The rank of a module is the number of free modules before it. */
  lemma RankIsOrder(f: Grid, n: nat, x: int, y: int)
    requires ValidSize(n) && Square(f, n) && InGrid(n, x, y) && x != 6
    ensures RankOf(f, n, x, y) == |FreeEarlier(f, n, x, y)|
  {
    hide PairOf, StepOf, VisitedBefore, Earlier, Rank;
    RankCounts(f, n, PairOf(n, x), StepOf(n, x, y));
    var visited := FreeVisited(f, n, PairOf(n, x), StepOf(n, x, y));
    forall a: int, b: int | InGrid(n, a, b) && a != 6
      ensures VisitedBefore(n, a, b, PairOf(n, x), StepOf(n, x, y)) <==> Earlier(n, a, b, x, y)
    {
      ScanIsOrdered(n, a, b, x, y);
    }
    assert visited == FreeEarlier(f, n, x, y);
  }

  /** At every version the free modules hold all raw codewords. */
  lemma EnoughFreeModules(v: nat)
    requires ValidVersion(v)
    ensures ValidSize(Size(v))
    ensures FreeModules(FunctionGrid(v), Size(v)) >= RawDataModules(v) >= 8 * RawCodewords(v)
  {
    var n, f := Size(v), FunctionGrid(v);
    var free := FreeVisited(f, n, NumPairs(n), 0);
    RankCounts(f, n, NumPairs(n), 0);
    FunctionRegionBound(v);
    BoxSize(0, 0, n, n);
    FreeOrFunction(v, f);
    SubsetSize(Box(0, 0, n, n), free + FunctionRegion(v));
  }

  lemma FreeOrFunction(v: nat, f: Grid)
    requires ValidVersion(v) && Square(f, Size(v))
    requires forall x, y :: InGrid(Size(v), x, y) ==> At(f, Size(v), x, y) == IsFunction(v, x, y)
    ensures Box(0, 0, Size(v), Size(v)) <= FreeVisited(f, Size(v), NumPairs(Size(v)), 0) + FunctionRegion(v)
  {
    hide IsFunction, FunctionRegion, FreeVisited, RawDataModules, VisitedBefore;
    var n := Size(v);
    forall x: int, y: int | (x, y) in Box(0, 0, n, n)
      ensures (x, y) in FreeVisited(f, n, NumPairs(n), 0) + FunctionRegion(v)
    {
      assert InGrid(n, x, y);
      if IsFunction(v, x, y) {
        FunctionsInRegion(v, x, y);
      } else {
        ColumnSix(v, y);
        FreeIsVisited(f, n, x, y);
      }
    }
  }

  lemma ColumnSix(v: nat, y: int)
    requires ValidVersion(v) && InGrid(Size(v), 6, y)
    ensures IsFunction(v, 6, y)
  {
  }

  /** The scan ends behind the last pair. */
  lemma FreeIsVisited(f: Grid, n: nat, x: int, y: int)
    requires ValidSize(n) && Square(f, n) && InGrid(n, x, y) && x != 6 && !At(f, n, x, y)
    ensures (x, y) in FreeVisited(f, n, NumPairs(n), 0)
  {
  }
}
