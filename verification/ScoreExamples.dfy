// Scores that can be worked out by hand: a line and a grid of one colour, and a line that shows a finder
// pattern (ISO/IEC 18004:2015, table 11).
module ScoreExamples {
  import opened Grids
  import opened Penalty
  import opened GridScore

  lemma WindowShows(l: Line, e: int, n: nat, left: nat, right: nat)
    requires Window(l, e, n, left, right)
    ensures e - 7 * n >= 0 && Dark(l, e - 7 * n)
    ensures 0 <= e - 6 * n < e - 5 * n && !Dark(l, e - 6 * n) && Dark(l, e - 5 * n)
  {
    var a, b, c := e - 7 * n, e - 6 * n, e - 5 * n;
    assert a < b < c < e - 2 * n;
    assert Dark(l, a);
    assert !Dark(l, b);
    assert Dark(l, c);
  }

  /** A window contains both colours. */
  lemma NoWindowInOneColour(l: Line, c: bool, e: int)
    requires forall i :: 0 <= i < |l| ==> l[i] == c
    ensures WindowsAt(l, e) == 0
  {
    forall n: nat, left: nat, right: nat
      ensures !Window(l, e, n, left, right)
    {
      if Window(l, e, n, left, right) {
        WindowShows(l, e, n, left, right);
        assert false;
      }
    }
  }

  lemma {:induction false} NoWindows(l: Line, c: bool, b: int)
    requires forall i :: 0 <= i < |l| ==> l[i] == c
    ensures Windows(l, b) == 0
    decreases b
  {
    hide WindowsAt;
    if b >= 0 {
      NoWindows(l, c, b - 1);
      NoWindowInOneColour(l, c, b);
    }
  }

  lemma {:induction false} OneRun(l: Line, c: bool, b: nat)
    requires b < |l| && forall i :: 0 <= i < |l| ==> l[i] == c
    ensures RunsPenalty(l, b) == 0
  {
    hide RunStart;
    if b > 0 { OneRun(l, c, b - 1); }
  }

  lemma {:induction false} RunFromStart(l: Line, c: bool, b: nat)
    requires 0 < b <= |l| && forall i :: 0 <= i < |l| ==> l[i] == c
    ensures RunStart(l, b) == 0
  {
    if b > 1 { RunFromStart(l, c, b - 1); }
  }

  /** A line of one colour scores three for its first five modules and one for every other. */
  lemma SolidLine(l: Line, c: bool)
    requires |l| >= 5 && forall i :: 0 <= i < |l| ==> l[i] == c
    ensures LineScore(l) == |l| - 2
  {
    NoWindows(l, c, |l|);
    OneRun(l, c, |l| - 1);
    RunFromStart(l, c, |l|);
    hide RunStart, Windows;
  }

  // ---- a finder pattern ----

  /** Dark, light, three dark, light, dark: the windows with the wide border on the left and on the right. */
  lemma FinderLine(l: Line)
    requires l == [true, false, true, true, true, false, true]
    ensures LineScore(l) == 80
  {
    FinderWindows(l);
    FinderRuns(l);
    hide RunsPenalty, Windows;
  }

  lemma FinderWindows(l: Line)
    requires l == [true, false, true, true, true, false, true]
    ensures Windows(l, 7) == 2
  {
    assert WideLeft(l, 7, 1) && WideRight(l, 7, 1);
    ShortLine(l, 6);
    hide WindowsAt, Windows;
    LastWindows(l);
    hide *;
  }

  lemma LastWindows(l: Line)
    requires WideLeft(l, 7, 1) && WideRight(l, 7, 1)
    ensures Windows(l, 7) == Windows(l, 6) + 2
  {
  }

  lemma {:induction false} ShortLine(l: Line, b: int)
    requires b < 7
    ensures Windows(l, b) == 0
    decreases b
  {
    if b >= 0 {
      ShortLine(l, b - 1);
      forall n: nat, left: nat, right: nat
        ensures !Window(l, b, n, left, right)
      {
        if Window(l, b, n, left, right) {
          WindowShows(l, b, n, left, right);
          assert false;
        }
      }
    }
  }

  lemma FinderRuns(l: Line)
    requires l == [true, false, true, true, true, false, true]
    ensures RunsPenalty(l, 7) == 0
  {
    ShortRuns(l, 7);
  }

  lemma {:induction false} ShortRuns(l: Line, b: nat)
    requires l == [true, false, true, true, true, false, true] && b <= 7
    ensures RunsPenalty(l, b) == 0
  {
    if b > 0 {
      ShortRuns(l, b - 1);
      assert l[1] != l[4] && l[2] != l[5] && l[5] != l[6];
      var a := RunStart(l, b);
      hide RunStart;
    }
  }

  // ---- the border of a finder pattern ----

  /** Three dark modules in a row stand only at s, and no fourth one behind them. */
  ghost predicate OneCore(l: Line, s: int) {
    (forall k :: Dark(l, k) && Dark(l, k + 1) && Dark(l, k + 2) ==> k == s) && !Dark(l, s + 3)
  }

  /** With one such place there is at most one place for a window, of unit one. */
  lemma OnlyWindow(l: Line, s: int, e: int, n: nat, left: nat, right: nat)
    requires OneCore(l, s) && Window(l, e, n, left, right)
    ensures n == 1 && e == s + 5
  {
    var k := e - 5 * n;
    assert k + 3 <= e - 2 * n;
    assert Dark(l, k) && Dark(l, k + 1) && Dark(l, k + 2);
    if n >= 2 {
      WideCore(l, e, n, left, right);
      assert false;
    }
  }

  lemma WideCore(l: Line, e: int, n: nat, left: nat, right: nat)
    requires Window(l, e, n, left, right) && n >= 2
    ensures Dark(l, e - 5 * n + 3)
  {
    assert e - 5 * n + 3 < e - 2 * n;
  }

  lemma BorderIsLight(l: Line, e: int, left: nat, right: nat)
    requires left > 0 && right > 0
    ensures Window(l, e, 1, left, right) ==> !Dark(l, e - 7 - left) && !Dark(l, e + right - 1)
  {
  }

  lemma UnitOne(l: Line, s: int, e: int, n: nat)
    requires OneCore(l, s)
    ensures WideLeft(l, e, n) || WideRight(l, e, n) ==> n == 1
  {
    if WideLeft(l, e, n) { OnlyWindow(l, s, e, n, 4 * n, n); }
    if WideRight(l, e, n) { OnlyWindow(l, s, e, n, n, 4 * n); }
  }

  lemma {:induction false} WindowsOnlyAt(l: Line, s: int, b: int)
    requires OneCore(l, s) && s + 5 >= 0
    ensures Windows(l, b) == if b < s + 5 then 0 else WindowsAt(l, s + 5)
    decreases b
  {
    hide OneCore, WindowsAt;
    if b >= 0 {
      WindowsOnlyAt(l, s, b - 1);
      if b != s + 5 { NoWindowAt(l, s, b); }
    }
  }

  lemma NoWindowAt(l: Line, s: int, e: int)
    requires OneCore(l, s) && e != s + 5
    ensures WindowsAt(l, e) == 0
  {
    forall n: nat, left: nat, right: nat
      ensures !Window(l, e, n, left, right)
    {
      if Window(l, e, n, left, right) {
        OnlyWindow(l, s, e, n, left, right);
        assert false;
      }
    }
  }

  const NARROW: Line := [true, false, false, false] + [true, false, true, true, true, false, true]
                        + [false, false, false, true]
  const WIDE: Line := [true, false, false, false, false] + [true, false, true, true, true, false, true]
                      + [false, false, false, true]

  /** Three light modules on each side are too few. */
  lemma NarrowBorders()
    ensures Windows(NARROW, 15) == 0
  {
    var l := NARROW;
    assert OneCore(l, 6) && Dark(l, 0) && Dark(l, 14);
    WindowsOnlyAt(l, 6, 15);
    forall n: nat
      ensures !WideLeft(l, 11, n) && !WideRight(l, 11, n)
    {
      UnitOne(l, 6, 11, n);
      BorderIsLight(l, 11, 4, 1);
      BorderIsLight(l, 11, 1, 4);
    }
  }

  /** Four on one side and three on the other make one window. */
  lemma WideBorder()
    ensures Windows(WIDE, 16) == 1
  {
    var l := WIDE;
    assert OneCore(l, 7) && Dark(l, 15);
    WindowsOnlyAt(l, 7, 16);
    assert WideLeft(l, 12, 1);
    forall n: nat
      ensures !WideRight(l, 12, n)
    {
      UnitOne(l, 7, 12, n);
      BorderIsLight(l, 12, 1, 4);
    }
  }

  // ---- a grid of one colour ----

  lemma {:induction false} SolidRows(g: Grid, n: nat, c: bool, k: nat)
    requires Square(g, n) && n >= 5 && k <= n && forall x, y :: InGrid(n, x, y) ==> At(g, n, x, y) == c
    ensures RowsScore(g, n, k) == k * (n - 2) && ColumnsScore(g, n, k) == k * (n - 2)
  {
    hide LineScore;
    if k > 0 {
      SolidRows(g, n, c, k - 1);
      var row, column := Row(g, n, k - 1), Column(g, n, k - 1);
      forall i | 0 <= i < n
        ensures row[i] == c && column[i] == c
      {
        assert At(g, n, i, k - 1) == c && At(g, n, k - 1, i) == c;
      }
      SolidLine(row, c);
      SolidLine(column, c);
      assert k * (n - 2) == (k - 1) * (n - 2) + (n - 2);
    }
  }

  lemma SolidBlocks(g: Grid, n: nat, c: bool)
    requires Square(g, n) && n >= 5 && forall x, y :: InGrid(n, x, y) ==> At(g, n, x, y) == c
    ensures |Blocks(g, n)| == (n - 1) * (n - 1)
  {
    BoxSize(0, 0, n - 1, n - 1);
    assert Blocks(g, n) == Box(0, 0, n - 1, n - 1);
  }

  lemma SolidBalance(g: Grid, n: nat, c: bool)
    requires Square(g, n) && n % 2 == 1 && forall x, y :: InGrid(n, x, y) ==> At(g, n, x, y) == c
    ensures Balance(g, n) == 9
  {
    var k, total, dark := Balance(g, n), n * n, |DarkModules(g, n)|;
    if c {
      BoxSize(0, 0, n, n);
      assert DarkModules(g, n) == Box(0, 0, n, n);
    } else {
      assert DarkModules(g, n) == {};
    }
    hide Balance;
    OddSquare(n);
    if k < 9 { BalancedMeans(dark, total, k); FarFromBalance(total, k); }
  }

  lemma FarFromBalance(total: nat, k: int)
    requires total > 0 && k < 9
    ensures (k + 1) * total < 10 * total
  {
  }

  /** A grid of one colour: all its lines, all its blocks, and the worst balance. */
  lemma SolidGrid(g: Grid, n: nat, c: bool)
    requires Square(g, n) && n >= 5 && n % 2 == 1 && forall x, y :: InGrid(n, x, y) ==> At(g, n, x, y) == c
    ensures Score(g, n) == 2 * n * (n - 2) + 3 * ((n - 1) * (n - 1)) + 90
  {
    hide RowsScore, ColumnsScore, Blocks, Balance;
    SolidRows(g, n, c, n);
    SolidBlocks(g, n, c);
    SolidBalance(g, n, c);
    assert 2 * n * (n - 2) == n * (n - 2) + n * (n - 2);
  }
}
