// The function patterns as pictures: what finder and alignment patterns look like, where alignment
// patterns are, and which modules are function modules (ISO/IEC 18004:2015, sections 6.3.3 to 6.3.6 and
// annex E).
module Pictures {
  import opened Grids
  import opened Versions
  import opened Patterns

  /** A finder pattern with its separator. */
  const FINDER: seq<string> := [
    ".........",
    ".#######.",
    ".#.....#.",
    ".#.###.#.",
    ".#.###.#.",
    ".#.###.#.",
    ".#.....#.",
    ".#######.",
    "........."
  ]

  const ALIGNMENT: seq<string> := [
    "#####",
    "#...#",
    "#.#.#",
    "#...#",
    "#####"
  ]

  predicate DarkIn(picture: seq<string>, x: int, y: int) {
    0 <= y < |picture| && 0 <= x < |picture[y]| && picture[y][x] == '#'
  }

  lemma FinderRow(dx: int, dy: int)
    requires -4 <= dx <= 4 && -4 <= dy <= 4
    ensures DarkIn(FINDER, dx + 4, dy + 4) == (Distance(dx, dy) != 2 && Distance(dx, dy) != 4)
  {
    assert |FINDER[dy + 4]| == 9;
  }

  /** The modules of a finder pattern, and no others, have the colours of its picture. */
  lemma FinderIsPicture(cx: int, cy: int, dx: int, dy: int)
    ensures InFinderAt(cx, cy, cx + dx, cy + dy) <==> -4 <= dx <= 4 && -4 <= dy <= 4
    ensures InFinderAt(cx, cy, cx + dx, cy + dy) ==>
              (FinderDark(cx, cy, cx + dx, cy + dy) <==> DarkIn(FINDER, dx + 4, dy + 4))
  {
    hide DarkIn;
    assert cx + dx - cx == dx && cy + dy - cy == dy;
    if -4 <= dx <= 4 && -4 <= dy <= 4 { FinderRow(dx, dy); }
  }

  lemma AlignmentRow(dx: int, dy: int)
    requires -2 <= dx <= 2 && -2 <= dy <= 2
    ensures DarkIn(ALIGNMENT, dx + 2, dy + 2) == (Distance(dx, dy) != 1)
  {
    assert |ALIGNMENT[dy + 2]| == 5;
  }

  lemma AlignmentIsPicture(cx: int, cy: int, dx: int, dy: int)
    ensures InAlignAt(cx, cy, cx + dx, cy + dy) <==> -2 <= dx <= 2 && -2 <= dy <= 2
    ensures InAlignAt(cx, cy, cx + dx, cy + dy) ==>
              (AlignDark(cx, cy, cx + dx, cy + dy) <==> DarkIn(ALIGNMENT, dx + 2, dy + 2))
  {
    hide DarkIn;
    assert cx + dx - cx == dx && cy + dy - cy == dy;
    if -2 <= dx <= 2 && -2 <= dy <= 2 { AlignmentRow(dx, dy); }
  }

  // ---- where alignment patterns are ----

  /**
   * From 6 to the seventh row before the end, the distances equal from the second position on. The distance is
   * the least even number that reaches from one end to the other; only version 32 uses 26 instead of 28.
   */
  lemma AlignmentPositions(v: nat)
    requires 2 <= v <= 40
    ensures var pos := AlignPositions(v);
            && |pos| == v / 7 + 2 && pos[0] == 6 && pos[|pos| - 1] == 4 * v + 10
            && forall k :: 1 <= k < |pos| - 1 ==> pos[k + 1] - pos[k] == AlignStep(v)
    ensures AlignStep(v) % 2 == 0
    ensures if v == 32 then AlignStep(v) == 26
            else (v / 7 + 1) * (AlignStep(v) - 2) < 4 * v + 4 <= (v / 7 + 1) * AlignStep(v)
  {
    StepIsLeast(v);
    hide AlignStep;
    Gaps(NumAlign(v), AlignStep(v), Size(v) - 7, AlignPositions(v));
  }

  lemma Gaps(a: nat, s: nat, last: int, pos: seq<int>)
    requires a >= 2 && pos == [6] + seq(a - 1, k => last - (a - 2 - k) * s)
    ensures |pos| == a && pos[0] == 6 && pos[a - 1] == last
    ensures forall k :: 1 <= k < a - 1 ==> pos[k + 1] - pos[k] == s
  {
    assert pos[a - 1] == last - (a - 2 - (a - 2)) * s;
    forall k | 1 <= k < a - 1
      ensures pos[k + 1] - pos[k] == s
    {
      Distribute(a - 2 - k, s);
      assert pos[k] == last - (a - 1 - k) * s && pos[k + 1] == last - (a - 2 - k) * s;
    }
  }

  lemma Distribute(k: int, s: int)
    ensures (k + 1) * s == k * s + s
  {
  }

  lemma StepIsLeast(v: nat)
    requires 2 <= v <= 40
    ensures AlignStep(v) % 2 == 0
    ensures if v == 32 then AlignStep(v) == 26
            else (v / 7 + 1) * (AlignStep(v) - 2) < 4 * v + 4 <= (v / 7 + 1) * AlignStep(v)
  {
    var a := v / 7 + 2;
    var e := a * 4 - 4;
    var q := (v * 8 + a * 3 + 5) / e;
    Quotient(v, 7);
    Quotient(v * 8 + a * 3 + 5, e);
    LeastStep(v, a, q);
  }

  lemma LeastStep(v: nat, a: nat, q: nat)
    requires 2 <= v <= 40 && 7 * (a - 2) <= v < 7 * (a - 1)
    requires (a * 4 - 4) * q <= v * 8 + a * 3 + 5 < (a * 4 - 4) * q + (a * 4 - 4)
    ensures if v == 32 then q == 13 else (a - 1) * (q * 2 - 2) < 4 * v + 4 <= (a - 1) * (q * 2)
  {
    if a == 2 {
    } else if a == 3 {
    } else if a == 4 {
    } else if a == 5 {
    } else if a == 6 {
    } else {
      assert a == 7;
    }
  }

  // ---- which modules are function modules ----

  /** (x, y) is in the alignment pattern at a pair of positions, other than the three in finder corners. */
  ghost predicate InSomeAlignment(pos: seq<int>, x: int, y: int) {
    exists i, j :: 0 <= i < |pos| && 0 <= j < |pos| && IsCentre(pos, i, j, x, y)
  }

  predicate IsCentre(pos: seq<int>, i: int, j: int, x: int, y: int)
    requires 0 <= i < |pos| && 0 <= j < |pos|
  {
    var last := |pos| - 1;
    && (i, j) != (0, 0) && (i, j) != (0, last) && (i, j) != (last, 0)
    && pos[i] - 2 <= x <= pos[i] + 2 && pos[j] - 2 <= y <= pos[j] + 2
  }

  lemma {:induction false} PaintIsAlignment(pos: seq<int>, i: nat, j: nat, x: int, y: int)
    requires (i < |pos| && j <= |pos|) || (i == |pos| && j == 0)
    ensures AlignPaint(pos, i, j, x, y).Some? ==> InSomeAlignment(pos, x, y)
    decreases i, j
  {
    if j > 0 {
      if !AlignCorner(|pos|, i, j - 1) && InAlignAt(pos[i], pos[j - 1], x, y) {
        assert IsCentre(pos, i, j - 1, x, y);
      } else {
        PaintIsAlignment(pos, i, j - 1, x, y);
      }
    } else if i > 0 {
      PaintIsAlignment(pos, i - 1, |pos|, x, y);
    }
  }

  lemma AlignmentIsPainted(v: nat, x: int, y: int)
    requires ValidVersion(v)
    ensures AlignmentPaint(v, x, y).Some? <==> InSomeAlignment(AlignPositions(v), x, y)
  {
    var pos := AlignPositions(v);
    PaintIsAlignment(pos, |pos|, 0, x, y);
    if i, j :| 0 <= i < |pos| && 0 <= j < |pos| && IsCentre(pos, i, j, x, y) {
      AlignShows(v, i, j, |pos|, 0, x, y);
    }
  }

  /** Timing lines, three corners, the strips beside them, the version blocks, and alignment patterns. */
  lemma FunctionModules(v: nat, x: int, y: int)
    requires ValidVersion(v) && InGrid(4 * v + 17, x, y)
    ensures var n := 4 * v + 17;
            IsFunction(v, x, y) <==>
              || x == 6 || y == 6
              || (x <= 8 && y <= 8) || (x <= 8 && y >= n - 8) || (x >= n - 8 && y <= 8)
              || (v >= 7 && x <= 5 && n - 11 <= y <= n - 9) || (v >= 7 && y <= 5 && n - 11 <= x <= n - 9)
              || InSomeAlignment(AlignPositions(v), x, y)
  {
    hide AlignPositions, InSomeAlignment, AlignmentPaint;
    AlignmentIsPainted(v, x, y);
    var n := 4 * v + 17;
    FinderIsPicture(3, 3, x - 3, y - 3);
    FinderIsPicture(n - 4, 3, x - (n - 4), y - 3);
    FinderIsPicture(3, n - 4, x - 3, y - (n - 4));
  }
}
