// Square grids of modules, addressed as the source addresses them: row y, column x.
module Grids {
  type Grid = seq<seq<bool>>

  predicate Square(g: Grid, n: nat) {
    |g| == n && forall y :: 0 <= y < n ==> |g[y]| == n
  }

  function Min(a: nat, b: nat): nat { if a < b then a else b }

  predicate InGrid(n: nat, x: int, y: int) {
    0 <= x < n && 0 <= y < n
  }

  function At(g: Grid, n: nat, x: int, y: int): bool
    requires Square(g, n) && InGrid(n, x, y)
  {
    g[y][x]
  }

  function Put(g: Grid, n: nat, x: int, y: int, v: bool): (r: Grid)
    requires Square(g, n) && InGrid(n, x, y)
    ensures Square(r, n)
    ensures forall a, b :: InGrid(n, a, b) ==> At(r, n, a, b) == if a == x && b == y then v else At(g, n, a, b)
  {
    g[y := g[y][x := v]]
  }

  /** All modules light. */
  function Blank(n: nat): (g: Grid)
    ensures Square(g, n)
    ensures forall x, y :: InGrid(n, x, y) ==> !At(g, n, x, y)
  {
    seq(n, y => seq(n, x => false))
  }

  lemma SameGrid(g: Grid, h: Grid, n: nat)
    requires Square(g, n) && Square(h, n)
    requires forall x, y :: InGrid(n, x, y) ==> At(g, n, x, y) == At(h, n, x, y)
    ensures g == h
  {
    forall y | 0 <= y < n
      ensures g[y] == h[y]
    {
      forall x | 0 <= x < n
        ensures g[y][x] == h[y][x]
      {
        assert At(g, n, x, y) == At(h, n, x, y);
      }
    }
  }

  // ---- counting modules ----

  /** A set of (x, y) positions. */
  type Region = set<(int, int)>

  ghost function Box(x0: int, y0: int, w: nat, h: nat): Region {
    set x: int, y: int | x0 <= x < x0 + w && y0 <= y < y0 + h :: (x, y)
  }

  lemma {:induction false} LineSize(x0: int, y0: int, w: nat)
    ensures |Box(x0, y0, w, 1)| == w
  {
    if w == 0 {
      assert Box(x0, y0, 0, 1) == {};
    } else {
      LineSize(x0, y0, w - 1);
      assert Box(x0, y0, w, 1) == Box(x0, y0, w - 1, 1) + {(x0 + w - 1, y0)};
    }
  }

  lemma BoxSplit(x0: int, y0: int, w: nat, h: nat)
    requires h > 0
    ensures |Box(x0, y0, w, h)| == |Box(x0, y0, w, h - 1)| + |Box(x0, y0 + h - 1, w, 1)|
  {
    var above, line := Box(x0, y0, w, h - 1), Box(x0, y0 + h - 1, w, 1);
    assert Box(x0, y0, w, h) == above + line;
    assert above * line == {};
  }

  lemma {:induction false} BoxSize(x0: int, y0: int, w: nat, h: nat)
    ensures |Box(x0, y0, w, h)| == w * h
  {
    if h == 0 {
      assert Box(x0, y0, w, 0) == {};
    } else {
      BoxSize(x0, y0, w, h - 1);
      LineSize(x0, y0 + h - 1, w);
      BoxSplit(x0, y0, w, h);
      assert w * h == w * (h - 1) + w;
    }
  }

  lemma SubsetSize(a: Region, b: Region)
    requires a <= b
    ensures |a| <= |b|
  {
    assert b == a + (b - a);
  }
}
