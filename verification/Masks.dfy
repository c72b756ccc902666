// The eight mask patterns: their conditions, and the tiles they repeat over the grid
// (deps/qrcodegen.cpp, lines 563-584; ISO/IEC 18004:2015, section 7.8.2).
module Masks {
  /** Whether mask pattern m inverts the module at (x, y). */
  predicate MaskBit(m: nat, x: nat, y: nat)
    requires m < 8
  {
    match m
    case 0 => (x + y) % 2 == 0
    case 1 => y % 2 == 0
    case 2 => x % 3 == 0
    case 3 => (x + y) % 3 == 0
    case 4 => (x / 3 + y / 2) % 2 == 0
    case 5 => x * y % 2 + x * y % 3 == 0
    case 6 => (x * y % 2 + x * y % 3) % 2 == 0
    case _ => ((x + y) % 2 + x * y % 3) % 2 == 0
  }

  /** The upper left corner of each pattern, up to where it repeats in both directions; '#' is inverted. */
  const MASK_TILES: seq<seq<string>> := [
    ["#.", ".#"],
    ["#", "."],
    ["#.."],
    ["#..", "..#", ".#."],
    ["###...", "###...", "...###", "...###"],
    ["######", "#.....", "#..#..", "#.#.#.", "#..#..", "#....."],
    ["######", "###...", "##.##.", "#.#.#.", "#.##.#", "#...##"],
    ["#.#.#.", "...###", "#...##", ".#.#.#", "###...", ".###.."]
  ]

  /** The pattern with this tile inverts the module. */
  predicate Tiled(tile: seq<string>, x: nat, y: nat)
    requires |tile| > 0 && |tile[0]| > 0 && forall i :: 0 <= i < |tile| ==> |tile[i]| == |tile[0]|
  {
    tile[y % |tile|][x % |tile[0]|] == '#'
  }

  lemma TilesAreRectangles(m: nat)
    requires m < 8
    ensures |MASK_TILES| == 8
    ensures var tile := MASK_TILES[m];
            |tile| > 0 && |tile[0]| > 0 && forall i :: 0 <= i < |tile| ==> |tile[i]| == |tile[0]|
  {
  }

  /** The module at (x, y) is one that the tile of pattern m inverts. */
  predicate InTile(m: nat, x: nat, y: nat)
    requires m < 8
  {
    TilesAreRectangles(m);
    Tiled(MASK_TILES[m], x, y)
  }

  // ---- remainders ----

  lemma RemaindersOf6(x: nat)
    ensures x % 2 == x % 6 % 2 && x % 3 == x % 6 % 3 && x / 3 % 2 == x % 6 / 3
  {
  }

  lemma RemaindersOf4(y: nat)
    ensures y / 2 % 2 == y % 4 / 2
  {
  }

  lemma Twice(q: nat, c: nat)
    ensures (2 * q + c) % 2 == c % 2
  {
  }

  lemma Thrice(q: nat, c: nat)
    ensures (3 * q + c) % 3 == c % 3
  {
  }

  lemma SumRemainder(x: nat, y: nat)
    ensures (x + y) % 2 == (x % 2 + y % 2) % 2 && (x + y) % 3 == (x % 3 + y % 3) % 3
  {
    Twice(x / 2 + y / 2, x % 2 + y % 2);
    Thrice(x / 3 + y / 3, x % 3 + y % 3);
  }

  lemma ProductRemainder(x: nat, y: nat)
    ensures x * y % 2 == (x % 2) * (y % 2) && x * y % 3 == (x % 3) * (y % 3) % 3
  {
    Split(x, y, 2);
    Split(x, y, 3);
    Twice(x / 2 * y + x % 2 * (y / 2), x % 2 * (y % 2));
    Thrice(x / 3 * y + x % 3 * (y / 3), x % 3 * (y % 3));
    if x % 2 == 0 { assert x % 2 * (y % 2) == 0; } else { assert x % 2 * (y % 2) == y % 2; }
  }

  lemma Split(x: nat, y: nat, k: nat)
    requires k > 0
    ensures x * y == k * (x / k * y + x % k * (y / k)) + x % k * (y % k)
  {
    var a, r, b, s := x / k, x % k, y / k, y % k;
    Expand(k, a, r, b, s);
    assert x == k * a + r && y == k * b + s;
  }

  lemma Expand(k: nat, a: nat, r: nat, b: nat, s: nat)
    ensures (k * a + r) * (k * b + s) == k * (a * (k * b + s) + r * b) + r * s
  {
    calc {
      (k * a + r) * (k * b + s);
      k * a * (k * b + s) + r * (k * b + s);
      { assert r * (k * b + s) == k * (r * b) + r * s; assert k * a * (k * b + s) == k * (a * (k * b + s)); }
      k * (a * (k * b + s)) + k * (r * b) + r * s;
      k * (a * (k * b + s) + r * b) + r * s;
    }
  }

  // ---- the tiles ----

  lemma SmallTiles(m: nat, x: nat, y: nat)
    requires m < 4
    ensures MaskBit(m, x, y) == InTile(m, x, y)
  {
    SumRemainder(x, y);
  }

  lemma BandTile(x: nat, y: nat)
    ensures MaskBit(4, x, y) == InTile(4, x, y)
  {
    RemaindersOf6(x);
    RemaindersOf4(y);
    SumRemainder(x / 3, y / 2);
  }

  lemma FifthTile(r: nat, s: nat)
    requires r < 6 && s < 6
    ensures InTile(5, r, s) == ((r % 2) * (s % 2) + (r % 3) * (s % 3) % 3 == 0)
  {
    if s == 0 {} else if s == 1 {} else if s == 2 {} else if s == 3 {} else if s == 4 {} else {}
  }

  lemma SixthTile(r: nat, s: nat)
    requires r < 6 && s < 6
    ensures InTile(6, r, s) == (((r % 2) * (s % 2) + (r % 3) * (s % 3) % 3) % 2 == 0)
  {
    if s == 0 {} else if s == 1 {} else if s == 2 {} else if s == 3 {} else if s == 4 {} else {}
  }

  lemma SeventhTile(r: nat, s: nat)
    requires r < 6 && s < 6
    ensures InTile(7, r, s) == (((r % 2 + s % 2) % 2 + (r % 3) * (s % 3) % 3) % 2 == 0)
  {
    if s == 0 {} else if s == 1 {} else if s == 2 {} else if s == 3 {} else if s == 4 {} else {}
  }

  /** What the last three conditions come to for the remainders of x and y. */
  lemma ProductTile(m: nat, r: nat, s: nat)
    requires 5 <= m < 8 && r < 6 && s < 6
    ensures var two, three := (r % 2) * (s % 2), (r % 3) * (s % 3) % 3;
            InTile(m, r, s) ==
            if m == 5 then two + three == 0
            else if m == 6 then (two + three) % 2 == 0
            else ((r % 2 + s % 2) % 2 + three) % 2 == 0
  {
    hide InTile;
    if m == 5 { FifthTile(r, s); } else if m == 6 { SixthTile(r, s); } else { SeventhTile(r, s); }
  }

  lemma LargeTiles(m: nat, x: nat, y: nat)
    requires 5 <= m < 8
    ensures MaskBit(m, x, y) == InTile(m, x, y)
  {
    hide InTile, Tiled;
    RemaindersOf6(x);
    RemaindersOf6(y);
    SumRemainder(x, y);
    ProductRemainder(x, y);
    ProductTile(m, x % 6, y % 6);
    SixBySix(m, x, y);
    hide *;
    var two, three := x % 2 * (y % 2), x % 3 * (y % 3) % 3;
    assert MaskBit(m, x, y) == (if m == 5 then two + three == 0 else if m == 6 then (two + three) % 2 == 0
                                else ((x % 2 + y % 2) % 2 + three) % 2 == 0) by {
      Condition(m, x, y, two, three);
    }
  }

  lemma Condition(m: nat, x: nat, y: nat, two: nat, three: nat)
    requires 5 <= m < 8 && x * y % 2 == two && x * y % 3 == three && (x + y) % 2 == (x % 2 + y % 2) % 2
    ensures MaskBit(m, x, y) == (if m == 5 then two + three == 0 else if m == 6 then (two + three) % 2 == 0
                                 else ((x % 2 + y % 2) % 2 + three) % 2 == 0)
  {
  }

  lemma SixBySix(m: nat, x: nat, y: nat)
    requires 5 <= m < 8
    ensures InTile(m, x, y) == InTile(m, x % 6, y % 6)
  {
  }

  /** Every pattern repeats its tile over the whole plane. */
  lemma MaskIsTiled(m: nat, x: nat, y: nat)
    requires m < 8
    ensures MaskBit(m, x, y) == InTile(m, x, y)
  {
    if m < 4 { SmallTiles(m, x, y); } else if m == 4 { BandTile(x, y); } else { LargeTiles(m, x, y); }
  }

  /** A chessboard: every module differs from its neighbours. */
  lemma Chessboard(x: nat, y: nat)
    ensures MaskBit(0, x + 1, y) == MaskBit(0, x, y + 1) == !MaskBit(0, x, y) && MaskBit(0, 0, 0)
  {
  }

  /** Rows, every other one inverted. */
  lemma RowStripes(x: nat, y: nat)
    ensures MaskBit(1, x + 1, y) == MaskBit(1, x, y) == !MaskBit(1, x, y + 1) && MaskBit(1, 0, 0)
  {
  }

  /** Columns, one in three inverted. */
  lemma ColumnStripes(x: nat, y: nat)
    ensures MaskBit(2, x, y + 1) == MaskBit(2, x, y) && MaskBit(2, 0, 0)
    ensures MaskBit(2, x, y) ==> !MaskBit(2, x + 1, y) && !MaskBit(2, x + 2, y) && MaskBit(2, x + 3, y)
  {
    Thrice(x / 3, x % 3 + 1);
    Thrice(x / 3, x % 3 + 2);
    Thrice(x / 3, x % 3 + 3);
  }

  /** Diagonals, one in three inverted. */
  lemma DiagonalStripes(x: nat, y: nat)
    ensures MaskBit(3, x + 1, y) == MaskBit(3, x, y + 1) && MaskBit(3, 0, 0)
    ensures MaskBit(3, x, y) ==> !MaskBit(3, x + 1, y) && !MaskBit(3, x + 2, y) && MaskBit(3, x + 3, y)
  {
    assert x + 1 + y == x + (y + 1);
    ColumnStripes(x + y, 0);
    assert MaskBit(3, x, y) == MaskBit(2, x + y, 0);
    assert MaskBit(3, x + 1, y) == MaskBit(2, x + y + 1, 0);
    assert MaskBit(3, x + 2, y) == MaskBit(2, x + y + 2, 0);
    assert MaskBit(3, x + 3, y) == MaskBit(2, x + y + 3, 0);
  }
}
