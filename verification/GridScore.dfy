// The penalty of a whole grid (getPenaltyScore): every row and every column as a line, the 2*2
// blocks of one colour, and the balance of dark and light modules.
module GridScore {
  import opened Grids
  import opened Penalty

  function Row(g: Grid, n: nat, y: nat): (l: Line)
    requires Square(g, n) && y < n
    ensures |l| == n
  {
    g[y]
  }

  function Column(g: Grid, n: nat, x: nat): (l: Line)
    requires Square(g, n) && x < n
    ensures |l| == n
  {
    seq(n, y requires 0 <= y < n => At(g, n, x, y))
  }

  ghost function RowsScore(g: Grid, n: nat, k: nat): nat
    requires Square(g, n) && k <= n
  {
    if k == 0 then 0 else RowsScore(g, n, k - 1) + LineScore(Row(g, n, k - 1))
  }

  ghost function ColumnsScore(g: Grid, n: nat, k: nat): nat
    requires Square(g, n) && k <= n
  {
    if k == 0 then 0 else ColumnsScore(g, n, k - 1) + LineScore(Column(g, n, k - 1))
  }

  /** A 2*2 block of one colour with its top left corner at (x, y). */
  predicate OneColour(g: Grid, n: nat, x: int, y: int)
    requires Square(g, n)
  {
    && 0 <= x < n - 1 && 0 <= y < n - 1
    && At(g, n, x, y) == At(g, n, x + 1, y) == At(g, n, x, y + 1) == At(g, n, x + 1, y + 1)
  }

  /** (x, y) comes before (a, b) in row order. */
  predicate Before(x: int, y: int, a: int, b: int) { y < b || (y == b && x < a) }

  ghost function BlocksBefore(g: Grid, n: nat, a: int, b: int): set<(int, int)>
    requires Square(g, n)
  {
    set x: int, y: int | 0 <= x < n && 0 <= y < n && OneColour(g, n, x, y) && Before(x, y, a, b) :: (x, y)
  }

  ghost function DarkBefore(g: Grid, n: nat, a: int, b: int): set<(int, int)>
    requires Square(g, n)
  {
    set x: int, y: int | 0 <= x < n && 0 <= y < n && At(g, n, x, y) && Before(x, y, a, b) :: (x, y)
  }

  ghost function Blocks(g: Grid, n: nat): set<(int, int)>
    requires Square(g, n)
  {
    set x: int, y: int | 0 <= x < n && 0 <= y < n && OneColour(g, n, x, y) :: (x, y)
  }

  ghost function DarkModules(g: Grid, n: nat): set<(int, int)>
    requires Square(g, n)
  {
    set x: int, y: int | 0 <= x < n && 0 <= y < n && At(g, n, x, y) :: (x, y)
  }

  // ---- balance ----

  /** (45 - 5k)% <= dark/total <= (55 + 5k)%. */
  predicate Balanced(dark: nat, total: nat, k: int) {
    (45 - 5 * k) * total <= 100 * dark <= (55 + 5 * k) * total
  }

  /** The smallest k >= 0 for which the colours are balanced. */
  ghost predicate LeastBalance(dark: nat, total: nat, k: int) {
    k >= 0 && Balanced(dark, total, k) && forall j :: 0 <= j < k ==> !Balanced(dark, total, j)
  }

  /** |20 dark - 10 total|. */
  function Deviation(dark: nat, total: nat): nat {
    if 20 * dark >= 10 * total then 20 * dark - 10 * total else 10 * total - 20 * dark
  }

  lemma BalancedMeans(dark: nat, total: nat, k: int)
    ensures Balanced(dark, total, k) <==> Deviation(dark, total) <= (k + 1) * total
  {
    assert (45 - 5 * k) * total == 45 * total - 5 * (k * total);
    assert (55 + 5 * k) * total == 55 * total + 5 * (k * total);
    assert (k + 1) * total == k * total + total;
  }

  lemma Ceiling(a: nat, total: nat, k: int)
    requires total > 0 && k == (a + total - 1) / total - 1
    ensures k * total < a <= (k + 1) * total
  {
    var q := (a + total - 1) / total;
    assert q * total <= a + total - 1 < q * total + total;
    assert q * total == k * total + total;
  }

  lemma LessFactor(a: int, b: int, total: nat)
    requires a * total < b * total
    ensures a < b
  {
  }

  lemma LessFactorIff(a: int, b: int, total: nat)
    requires a <= b
    ensures a * total <= b * total
  {
  }

  /** The source's closed form, with its assertion that k lies in 0..9. */
  lemma BalanceFormula(dark: nat, total: nat, k: int)
    requires total % 2 == 1 && dark <= total
    requires k == (Deviation(dark, total) + total - 1) / total - 1
    ensures 0 <= k <= 9 && LeastBalance(dark, total, k)
  {
    var a := Deviation(dark, total);
    Ceiling(a, total, k);
    NeverEven(dark, total);
    LessFactor(0, k + 1, total);
    LessFactor(k, 10, total);
    BalancedMeans(dark, total, k);
    forall j | 0 <= j < k
      ensures !Balanced(dark, total, j)
    {
      BalancedMeans(dark, total, j);
      LessFactorIff(j + 1, k, total);
    }
  }

  /** The size is odd, so the colours are never exactly balanced. */
  lemma NeverEven(dark: nat, total: nat)
    requires total % 2 == 1 && dark <= total
    ensures 0 < Deviation(dark, total) <= 10 * total
  {
  }

  lemma DarkModulesFit(g: Grid, n: nat)
    requires Square(g, n)
    ensures |DarkModules(g, n)| <= n * n
  {
    BoxSize(0, 0, n, n);
    SubsetSize(DarkModules(g, n), Box(0, 0, n, n));
  }

  lemma OddSquare(n: nat)
    requires n % 2 == 1
    ensures n * n % 2 == 1
  {
    var h := n / 2;
    assert n * n == 2 * (2 * (h * h) + 2 * h) + 1;
  }

  // ---- the score ----

  /** The balance level of a grid. */
  ghost function Balance(g: Grid, n: nat): (k: nat)
    requires Square(g, n) && n % 2 == 1
    ensures k <= 9 && LeastBalance(|DarkModules(g, n)|, n * n, k)
  {
    DarkModulesFit(g, n);
    OddSquare(n);
    var dark := |DarkModules(g, n)|;
    BalanceFormula(dark, n * n, (Deviation(dark, n * n) + n * n - 1) / (n * n) - 1);
    (Deviation(dark, n * n) + n * n - 1) / (n * n) - 1
  }

  ghost function Score(g: Grid, n: nat): nat
    requires Square(g, n) && n % 2 == 1
  {
    RowsScore(g, n, n) + ColumnsScore(g, n, n) + PENALTY_N2 * |Blocks(g, n)| + PENALTY_N4 * Balance(g, n)
  }

  // ---- the upper bound that the source asserts ----

  const SCORE_BOUND: nat := 2568888

  /** The least value LONG_MAX may have. */
  const LONG_MAX: nat := 0x7FFF_FFFF

  /** Runs of n modules are penalized with less than n in all. */
  lemma {:induction false} RunsBound(l: Line, b: nat)
    requires b <= |l|
    ensures RunsPenalty(l, b) <= b
  {
    if b > 0 {
      if RunEndsAt(l, b) {
        var a := RunStart(l, b);
        RunsBound(l, a);
        RunsFlat(l, a, b - 1);
      } else {
        RunsBound(l, b - 1);
      }
    }
  }

  /** Some window ends at e. */
  ghost predicate WindowEnds(l: Line, e: int) {
    exists n: nat, left: nat, right: nat :: right >= 1 && Window(l, e, n, left, right)
  }

  lemma NoWindowsAt(l: Line, e: int)
    requires !WindowEnds(l, e)
    ensures WindowsAt(l, e) == 0
  {
    hide Window;
    if n: nat :| WideLeft(l, e, n) { PositiveUnit(l, e, n, 4 * n, n); }
    if n: nat :| WideRight(l, e, n) { PositiveUnit(l, e, n, n, 4 * n); }
  }

  lemma PositiveUnit(l: Line, e: int, n: nat, left: nat, right: nat)
    requires Window(l, e, n, left, right)
    ensures n >= 1 && Dark(l, e - 7 * n) && e >= 7
  {
  }

  lemma WindowNeedsSeven(l: Line, e: int)
    requires WindowEnds(l, e)
    ensures e >= 7
  {
    var n: nat, left: nat, right: nat :| right >= 1 && Window(l, e, n, left, right);
    PositiveUnit(l, e, n, left, right);
  }

  /** A window's last module is dark, so none ends just before it, nor, by the 1:1:3:1:1 ratio, one earlier. */
  lemma WindowsApart(l: Line, e: int)
    requires WindowEnds(l, e)
    ensures !WindowEnds(l, e - 1) && !WindowEnds(l, e - 2)
  {
    var n: nat, left: nat, right: nat :| right >= 1 && Window(l, e, n, left, right);
    if WindowEnds(l, e - 1) {
      var m: nat, a: nat, b: nat :| b >= 1 && Window(l, e - 1, m, a, b);
      TooClose(l, e, n, left, right, m, a, b);
    }
    if WindowEnds(l, e - 2) {
      var m: nat, a: nat, b: nat :| b >= 1 && Window(l, e - 2, m, a, b);
      TooClose(l, e, n, left, right, m, a, b);
    }
  }

  lemma TooClose(l: Line, e: int, n: nat, left: nat, right: nat, m: nat, a: nat, b: nat)
    requires Window(l, e, n, left, right) && b >= 1
    ensures !Window(l, e - 1, m, a, b) && !Window(l, e - 2, m, a, b)
  {
    assert Dark(l, e - 1);
    var modules := [Dark(l, e - 2), Dark(l, e - 4), Dark(l, e - 5), Dark(l, e - 6), Dark(l, e - 7)];
    var edge := [Dark(l, e - 2 - m), Dark(l, e - 3 - m)];
    if Window(l, e - 2, m, a, b) {
      assert false;
    }
  }

  lemma {:induction false} WindowsBound(l: Line, b: int)
    requires b >= -1
    ensures b < 7 ==> Windows(l, b) == 0
    ensures b >= 7 ==> 3 * Windows(l, b) <= 2 * (b - 4)
    decreases b + 1
  {
    hide WindowEnds, WindowsAt;
    if b >= 0 {
      WindowsBound(l, b - 1);
      if WindowEnds(l, b) {
        WindowNeedsSeven(l, b);
        WindowsApart(l, b);
        NoWindowsAt(l, b - 1);
        NoWindowsAt(l, b - 2);
        WindowsBound(l, b - 3);
        AtMostTwo(l, b);
        assert Windows(l, b - 2) == Windows(l, b - 3);
      } else {
        NoWindowsAt(l, b);
      }
    }
  }

  lemma AtMostTwo(l: Line, e: int)
    ensures WindowsAt(l, e) <= 2
  {
  }

  lemma LineBound(l: Line)
    ensures 3 * LineScore(l) <= 83 * |l|
  {
    hide RunsPenalty, Windows;
    RunsBound(l, |l|);
    WindowsBound(l, |l|);
  }

  lemma {:induction false} RowsBound(g: Grid, n: nat, k: nat)
    requires Square(g, n) && k <= n
    ensures 3 * RowsScore(g, n, k) <= 83 * (k * n)
    ensures 3 * ColumnsScore(g, n, k) <= 83 * (k * n)
  {
    hide LineScore;
    if k > 0 {
      RowsBound(g, n, k - 1);
      LineBound(Row(g, n, k - 1));
      LineBound(Column(g, n, k - 1));
      assert k * n == (k - 1) * n + n;
    }
  }

  lemma BlocksBound(g: Grid, n: nat)
    requires Square(g, n)
    ensures |Blocks(g, n)| <= n * n
  {
    BoxSize(0, 0, n, n);
    SubsetSize(Blocks(g, n), Box(0, 0, n, n));
  }

  lemma SquareBound(n: nat)
    requires n <= 177
    ensures n * n <= 31329
  {
    assert n * n <= 177 * n;
  }

  /** The source's upper bound; no score reaches the initial minimum of the mask search. */
  lemma ScoreBound(g: Grid, n: nat)
    requires Square(g, n) && n % 2 == 1 && n <= 177
    ensures Score(g, n) <= SCORE_BOUND < LONG_MAX
  {
    RowsBound(g, n, n);
    BlocksBound(g, n);
    hide RowsScore, ColumnsScore, Blocks, Balance;
    SquareBound(n);
  }

  // ---- the scorer ----

  lemma BlockStep(g: Grid, n: nat, x: nat, y: nat)
    requires Square(g, n) && x < n - 1 && y < n - 1
    ensures |BlocksBefore(g, n, x + 1, y)| == |BlocksBefore(g, n, x, y)| + if OneColour(g, n, x, y) then 1 else 0
  {
    if OneColour(g, n, x, y) {
      assert BlocksBefore(g, n, x + 1, y) == BlocksBefore(g, n, x, y) + {(x, y)};
    } else {
      assert BlocksBefore(g, n, x + 1, y) == BlocksBefore(g, n, x, y);
    }
  }

  lemma BlockRowDone(g: Grid, n: nat, y: nat)
    requires Square(g, n) && y < n - 1
    ensures BlocksBefore(g, n, 0, y + 1) == BlocksBefore(g, n, n - 1, y)
  {
  }

  method CountBlocks(g: Grid, n: nat) returns (count: nat)
    requires Square(g, n) && n > 0
    ensures count == |Blocks(g, n)|
  {
    count := 0;
    assert BlocksBefore(g, n, 0, 0) == {};
    for y := 0 to n - 1
      invariant count == |BlocksBefore(g, n, 0, y)|
    {
      for x := 0 to n - 1
        invariant count == |BlocksBefore(g, n, x, y)|
      {
        BlockStep(g, n, x, y);
        var color := At(g, n, x, y);
        if color == At(g, n, x + 1, y) && color == At(g, n, x, y + 1) && color == At(g, n, x + 1, y + 1) {
          count := count + 1;
        }
      }
      BlockRowDone(g, n, y);
    }
    assert BlocksBefore(g, n, 0, n - 1) == Blocks(g, n);
  }

  lemma DarkStep(g: Grid, n: nat, x: nat, y: nat)
    requires Square(g, n) && x < n && y < n
    ensures |DarkBefore(g, n, x + 1, y)| == |DarkBefore(g, n, x, y)| + if At(g, n, x, y) then 1 else 0
  {
    if At(g, n, x, y) {
      assert DarkBefore(g, n, x + 1, y) == DarkBefore(g, n, x, y) + {(x, y)};
    } else {
      assert DarkBefore(g, n, x + 1, y) == DarkBefore(g, n, x, y);
    }
  }

  lemma DarkRowDone(g: Grid, n: nat, y: nat)
    requires Square(g, n) && y < n
    ensures DarkBefore(g, n, 0, y + 1) == DarkBefore(g, n, n, y)
  {
  }

  method CountDark(g: Grid, n: nat) returns (dark: nat)
    requires Square(g, n)
    ensures dark == |DarkModules(g, n)|
  {
    dark := 0;
    assert DarkBefore(g, n, 0, 0) == {};
    for y := 0 to n
      invariant dark == |DarkBefore(g, n, 0, y)|
    {
      for x := 0 to n
        invariant dark == |DarkBefore(g, n, x, y)|
      {
        DarkStep(g, n, x, y);
        if At(g, n, x, y) {
          dark := dark + 1;
        }
      }
      DarkRowDone(g, n, y);
    }
    assert DarkBefore(g, n, 0, n) == DarkModules(g, n);
  }

  /** The streaming scorer computes the declarative score. */
  method PenaltyScore(g: Grid, n: nat) returns (score: nat)
    requires Square(g, n) && n % 2 == 1
    ensures score == Score(g, n)
  {
    var result := 0;
    for y := 0 to n
      invariant result == RowsScore(g, n, y)
    {
      var line := ScoreLine(Row(g, n, y));
      result := result + line;
    }
    for x := 0 to n
      invariant result == RowsScore(g, n, n) + ColumnsScore(g, n, x)
    {
      var line := ScoreLine(Column(g, n, x));
      result := result + line;
    }
    var blocks := CountBlocks(g, n);
    result := result + blocks * PENALTY_N2;
    var dark := CountDark(g, n);
    var total := n * n;
    var k := (Deviation(dark, total) + total - 1) / total - 1;
    DarkModulesFit(g, n);
    OddSquare(n);
    BalanceFormula(dark, total, k);
    score := result + k * PENALTY_N4;
  }
}
