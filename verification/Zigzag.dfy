// The codeword scan: column pairs from right to left, alternately upwards and downwards, jumping
// over the vertical timing pattern in column 6 (drawCodewords; ISO/IEC 18004:2015, section 7.7.3).
module Zigzag {
  import opened Grids

  /** A grid size the scan is used on: 4v + 17 for some v >= 1. */
  predicate ValidSize(n: nat) {
    n >= 21 && n % 4 == 1
  }

  function NumPairs(n: nat): nat { n / 2 }

  /** The right column of pair p; from column 6 leftwards the pairs are shifted by one. */
  function RightColumn(n: nat, p: nat): nat
    requires ValidSize(n) && p < NumPairs(n)
  {
    var right := n - 1 - 2 * p;
    if right <= 6 then right - 1 else right
  }

  /** `((right + 1) & 2) == 0`. */
  predicate Upward(right: nat) {
    (right + 1) / 2 % 2 == 0
  }

  datatype Cell = Cell(x: int, y: int)

  /** The module visited at step r of pair p: vertical counter r / 2, then left or right column. */
  function CellAt(n: nat, p: nat, r: nat): Cell
    requires ValidSize(n) && p < NumPairs(n) && r < 2 * n
  {
    var right := RightColumn(n, p);
    Cell(right - r % 2, if Upward(right) then n - 1 - r / 2 else r / 2)
  }

  lemma CellOfCounters(n: nat, p: nat, vert: nat, j: nat)
    requires ValidSize(n) && p < NumPairs(n) && vert < n && j < 2
    ensures var right := RightColumn(n, p);
            var c := Cell(right - j, if Upward(right) then n - 1 - vert else vert);
            CellAt(n, p, 2 * vert + j) == c && InGrid(n, c.x, c.y)
  {
    assert (2 * vert + j) / 2 == vert && (2 * vert + j) % 2 == j;
  }

  /** The right column of the pair that column x belongs to. */
  function PairedRight(x: nat): nat {
    if x > 6 then 2 * (x / 2 + x % 2) else 2 * (x / 2) + 1
  }

  lemma Halves(n: nat, x: nat)
    requires ValidSize(n)
    ensures n == 2 * (n / 2) + 1 && x == 2 * (x / 2) + x % 2
  {
    TwiceHalf(n - 1);
  }

  lemma TwiceHalf(e: nat)
    requires e % 2 == 0
    ensures 2 * (e / 2) == e
  {
  }

  /** The pair in which, and the step at which, the scan visits a module outside column 6. */
  function PairOf(n: nat, x: int): (p: nat)
    requires ValidSize(n) && 0 <= x < n && x != 6
    ensures p < NumPairs(n) && RightColumn(n, p) == PairedRight(x)
  {
    Halves(n, x);
    if x > 6 then n / 2 - (x / 2 + x % 2) else n / 2 - 1 - x / 2
  }

  function StepOf(n: nat, x: int, y: int): (r: nat)
    requires ValidSize(n) && InGrid(n, x, y) && x != 6
    ensures r < 2 * n
  {
    var right := PairedRight(x);
    2 * (if Upward(right) then n - 1 - y else y) + (right - x)
  }

  /** Every module outside column 6 is visited, at the step computed for it. */
  lemma VisitedAtItsStep(n: nat, x: int, y: int)
    requires ValidSize(n) && InGrid(n, x, y) && x != 6
    ensures CellAt(n, PairOf(n, x), StepOf(n, x, y)) == Cell(x, y)
  {
  }

  /** No module is visited twice: pair and step are determined by the module. */
  lemma VisitedOnce(n: nat, p: nat, r: nat)
    requires ValidSize(n) && p < NumPairs(n) && r < 2 * n
    ensures var c := CellAt(n, p, r);
            InGrid(n, c.x, c.y) && c.x != 6 && PairOf(n, c.x) == p && StepOf(n, c.x, c.y) == r
  {
    var c := CellAt(n, p, r);
    ColumnOfPair(n, p, r % 2);
    StepCounters(r);
  }

  lemma StepCounters(r: nat)
    ensures r == 2 * (r / 2) + r % 2
  {
  }

  lemma HalfOf(h: nat, b: nat, x: nat)
    requires x == 2 * h + b && b < 2
    ensures x / 2 == h && x % 2 == b
  {
  }

  /** Both columns of a pair lead back to the pair. */
  lemma ColumnOfPair(n: nat, p: nat, j: nat)
    requires ValidSize(n) && p < NumPairs(n) && j < 2
    ensures var right := RightColumn(n, p);
            0 < right < n && right - j != 6 && 0 <= right - j && PairedRight(right - j) == right
              && PairOf(n, right - j) == p
  {
    var k := n / 2 - p;
    Halves(n, 0);
    assert n - 1 - 2 * p == 2 * k && k >= 1;
    if k >= 4 {
      HalfOf(k - j, j, 2 * k - j);
    } else {
      HalfOf(k - 1, 1 - j, 2 * k - 1 - j);
    }
  }

  // ---- the order of the scan ----

  /** Pairs from the right edge to the left, upwards in every other one; in each row the right column comes first. */
  lemma ScanOrder(n: nat, p: nat, r: nat)
    requires ValidSize(n) && p < NumPairs(n) && r < 2 * n
    ensures CellAt(n, p, r).y == if p % 2 == 0 then n - 1 - r / 2 else r / 2
    ensures CellAt(n, p, r).x == (if n - 1 - 2 * p > 6 then n - 1 - 2 * p else n - 2 - 2 * p) - r % 2
  {
    UpwardPairs(n, p);
  }

  lemma UpwardPairs(n: nat, p: nat)
    requires ValidSize(n) && p < NumPairs(n)
    ensures Upward(RightColumn(n, p)) <==> p % 2 == 0
  {
    var k := n / 2 - p;
    Halves(n, 0);
    assert (RightColumn(n, p) + 1) / 2 == k;
    assert n / 2 % 2 == 0;
  }

  /** The scan starts in the lower right corner, and every pair starts in the row where the one before it ends. */
  lemma ScanIsConnected(n: nat, p: nat)
    requires ValidSize(n) && p < NumPairs(n)
    ensures CellAt(n, 0, 0) == Cell(n - 1, n - 1)
    ensures p + 1 < NumPairs(n) ==> CellAt(n, p + 1, 0).y == CellAt(n, p, 2 * n - 1).y
  {
    hide CellAt;
    ScanOrder(n, 0, 0);
    ScanOrder(n, p, 2 * n - 1);
    HalfOf(n - 1, 1, 2 * n - 1);
    if p + 1 < NumPairs(n) {
      ScanOrder(n, p + 1, 0);
      OtherDirection(p);
    }
  }

  lemma OtherDirection(p: nat)
    ensures (p + 1) % 2 == 0 <==> p % 2 != 0
  {
  }

  /** The number of a column's pair, from the right. */
  function PairNumber(n: nat, x: int): int { if x > 6 then (n - 1 - x) / 2 else (n - 2 - x) / 2 }

  /** Module (a, b) comes before (x, y): in a pair further right, or sooner in the same pair's direction. */
  predicate Earlier(n: nat, a: int, b: int, x: int, y: int) {
    var p := PairNumber(n, a);
    || p < PairNumber(n, x)
    || (p == PairNumber(n, x) && (if p % 2 == 0 then b > y else b < y))
    || (p == PairNumber(n, x) && b == y && a > x)
  }

  /** The scan visits the modules in this order. */
  lemma ScanIsOrdered(n: nat, a: int, b: int, x: int, y: int)
    requires ValidSize(n) && InGrid(n, a, b) && InGrid(n, x, y) && a != 6 && x != 6
    ensures VisitedBefore(n, a, b, PairOf(n, x), StepOf(n, x, y)) <==> Earlier(n, a, b, x, y)
  {
    PairNumbers(n, a);
    PairNumbers(n, x);
    UpwardPairs(n, PairOf(n, a));
    UpwardPairs(n, PairOf(n, x));
    var p := PairOf(n, x);
    if PairOf(n, a) == p {
      SameColumns(n, a);
      SameColumns(n, x);
      hide PairOf, RightColumn, PairedRight, Upward, PairNumber;
    }
  }

  lemma PairNumbers(n: nat, x: int)
    requires ValidSize(n) && 0 <= x < n && x != 6
    ensures PairOf(n, x) == PairNumber(n, x)
  {
    Halves(n, x);
  }

  lemma SameColumns(n: nat, x: int)
    requires ValidSize(n) && 0 <= x < n && x != 6
    ensures 0 <= RightColumn(n, PairOf(n, x)) - x <= 1 && PairedRight(x) == RightColumn(n, PairOf(n, x))
  {
    Halves(n, x);
  }

  // ---- the free modules, in scan order ----

  /** A point in the scan: r steps of pair p are done, and all pairs before it. */
  predicate InScan(n: nat, p: nat, r: nat) {
    ValidSize(n) && ((p < NumPairs(n) && r <= 2 * n) || (p == NumPairs(n) && r == 0))
  }

  /** How many non-function modules the scan has visited on the way to this point. */
  function Rank(f: Grid, n: nat, p: nat, r: nat): nat
    requires InScan(n, p, r) && Square(f, n)
    decreases p, r
  {
    if r > 0 then
      VisitedOnce(n, p, r - 1);
      var c := CellAt(n, p, r - 1);
      Rank(f, n, p, r - 1) + if At(f, n, c.x, c.y) then 0 else 1
    else if p > 0 then Rank(f, n, p - 1, 2 * n)
    else 0
  }

  /** The number of non-function modules outside column 6. */
  function FreeModules(f: Grid, n: nat): nat
    requires ValidSize(n) && Square(f, n)
  {
    Rank(f, n, NumPairs(n), 0)
  }

  /** The rank of a module: how many free modules the scan visits before it. */
  function RankOf(f: Grid, n: nat, x: int, y: int): nat
    requires ValidSize(n) && Square(f, n) && InGrid(n, x, y) && x != 6
  {
    Rank(f, n, PairOf(n, x), StepOf(n, x, y))
  }

  predicate VisitedBefore(n: nat, x: int, y: int, p: nat, r: nat)
    requires ValidSize(n) && InGrid(n, x, y) && x != 6
  {
    PairOf(n, x) < p || (PairOf(n, x) == p && StepOf(n, x, y) < r)
  }

  /** What the scan up to a point leaves at (x, y): the module of rank k gets bit k, all others stay. */
  ghost predicate Drawn(g: Grid, f: Grid, n: nat, bits: seq<bool>, p: nat, r: nat, x: int, y: int)
    requires Square(g, n) && Square(f, n) && InGrid(n, x, y) && InScan(n, p, r)
  {
    if x != 6 && !At(f, n, x, y) && VisitedBefore(n, x, y, p, r) && RankOf(f, n, x, y) < |bits|
    then bits[RankOf(f, n, x, y)]
    else At(g, n, x, y)
  }

  ghost predicate DrawnUpTo(g: Grid, h: Grid, f: Grid, n: nat, bits: seq<bool>, p: nat, r: nat)
    requires Square(g, n) && Square(h, n) && Square(f, n) && InScan(n, p, r)
  {
    forall x, y :: InGrid(n, x, y) ==> At(h, n, x, y) == Drawn(g, f, n, bits, p, r, x, y)
  }

  /** One step of the scan: the visited module takes the next bit if it is free and bits remain. */
  lemma DrawStep(g: Grid, h: Grid, f: Grid, n: nat, bits: seq<bool>, p: nat, r: nat)
    requires Square(g, n) && Square(h, n) && Square(f, n) && InScan(n, p, r) && r < 2 * n && p < NumPairs(n)
    requires DrawnUpTo(g, h, f, n, bits, p, r)
    ensures var c := CellAt(n, p, r);
            var k := Rank(f, n, p, r);
            InGrid(n, c.x, c.y)
            && DrawnUpTo(g, if !At(f, n, c.x, c.y) && k < |bits| then Put(h, n, c.x, c.y, bits[k]) else h,
                         f, n, bits, p, r + 1)
  {
    var c, k := CellAt(n, p, r), Rank(f, n, p, r);
    VisitedOnce(n, p, r);
    forall x, y | InGrid(n, x, y)
      ensures Drawn(g, f, n, bits, p, r + 1, x, y)
              == if x == c.x && y == c.y && !At(f, n, x, y) && k < |bits| then bits[k]
                 else Drawn(g, f, n, bits, p, r, x, y)
    {
      if x != 6 && PairOf(n, x) == p && StepOf(n, x, y) == r { VisitedAtItsStep(n, x, y); }
    }
  }

  lemma ScanStarts(g: Grid, f: Grid, n: nat, bits: seq<bool>)
    requires Square(g, n) && Square(f, n) && ValidSize(n)
    ensures DrawnUpTo(g, g, f, n, bits, 0, 0) && Rank(f, n, 0, 0) == 0
  {
  }

  lemma NextPair(g: Grid, h: Grid, f: Grid, n: nat, bits: seq<bool>, p: nat)
    requires Square(g, n) && Square(h, n) && Square(f, n) && ValidSize(n) && p < NumPairs(n)
    requires DrawnUpTo(g, h, f, n, bits, p, 2 * n)
    ensures DrawnUpTo(g, h, f, n, bits, p + 1, 0)
    ensures Rank(f, n, p + 1, 0) == Rank(f, n, p, 2 * n)
  {
    forall x, y | InGrid(n, x, y)
      ensures Drawn(g, f, n, bits, p, 2 * n, x, y) == Drawn(g, f, n, bits, p + 1, 0, x, y)
    {
    }
  }

  // ---- reading back ----

  /** The non-function modules in scan order. */
  function ReadBits(g: Grid, f: Grid, n: nat, p: nat, r: nat): (bits: seq<bool>)
    requires Square(g, n) && Square(f, n) && InScan(n, p, r)
    ensures |bits| == Rank(f, n, p, r)
    decreases p, r
  {
    if r > 0 then
      VisitedOnce(n, p, r - 1);
      var c := CellAt(n, p, r - 1);
      if At(f, n, c.x, c.y) then ReadBits(g, f, n, p, r - 1)
      else ReadBits(g, f, n, p, r - 1) + [At(g, n, c.x, c.y)]
    else if p > 0 then ReadBits(g, f, n, p - 1, 2 * n)
    else []
  }

  /** Reading in scan order returns the bits that were drawn, whatever was on the grid before. */
  lemma {:induction false} ReadsBackDrawn(blank: Grid, g: Grid, f: Grid, n: nat, bits: seq<bool>, p: nat, r: nat,
                                          k: nat)
    requires Square(blank, n) && Square(g, n) && Square(f, n) && InScan(n, p, r)
    requires DrawnUpTo(blank, g, f, n, bits, NumPairs(n), 0)
    requires k < Rank(f, n, p, r) && k < |bits|
    ensures ReadBits(g, f, n, p, r)[k] == bits[k]
    decreases p, r
  {
    hide RightColumn, Upward, PairOf, StepOf;
    if r == 0 {
      ReadsBackDrawn(blank, g, f, n, bits, p - 1, 2 * n, k);
    } else if k < Rank(f, n, p, r - 1) {
      ReadsBackDrawn(blank, g, f, n, bits, p, r - 1, k);
    } else {
      VisitedOnce(n, p, r - 1);
      var c := CellAt(n, p, r - 1);
      assert At(g, n, c.x, c.y) == Drawn(blank, f, n, bits, NumPairs(n), 0, c.x, c.y);
    }
  }
}
