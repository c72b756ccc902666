// The mask penalty of ISO/IEC 18004:2015, section 7.8.3: a declarative score over run ends, 2*2
// blocks, finder-like windows and colour balance, and the streaming scorer that computes it with a
// seven-entry run history (deps/qrcodegen.cpp, lines 587-661 and 751-776).
module Penalty {
  const PENALTY_N1 := 3
  const PENALTY_N2 := 3
  const PENALTY_N3 := 40
  const PENALTY_N4 := 10

  type Line = seq<bool>

  /** The colour at i; everything outside the line is light. */
  predicate Dark(l: Line, i: int) { 0 <= i < |l| && l[i] }

  ghost predicate AllDark(l: Line, a: int, b: int) { forall i :: a <= i < b ==> Dark(l, i) }

  ghost predicate AllLight(l: Line, a: int, b: int) { forall i :: a <= i < b ==> !Dark(l, i) }

  // ---- N1: maximal runs inside the line ----

  /** A maximal run [a, b) of one colour. */
  ghost predicate MaximalRun(l: Line, a: int, b: int) {
    && 0 <= a < b <= |l|
    && (forall i :: a <= i < b ==> l[i] == l[a])
    && (a > 0 ==> l[a - 1] != l[a])
    && (b < |l| ==> l[b] != l[a])
  }

  function RunPenalty(length: nat): nat {
    if length < 5 then 0 else PENALTY_N1 + (length - 5)
  }

  /** The start of the run that contains position b - 1. */
  function RunStart(l: Line, b: nat): (a: nat)
    requires 0 < b <= |l|
    ensures a < b
    ensures forall i :: a <= i < b ==> l[i] == l[b - 1]
    ensures a > 0 ==> l[a - 1] != l[b - 1]
  {
    if b > 1 && l[b - 2] == l[b - 1] then RunStart(l, b - 1) else b - 1
  }

  predicate RunEndsAt(l: Line, b: nat)
    requires 0 < b <= |l|
  {
    b == |l| || l[b] != l[b - 1]
  }

  /** The penalty of all maximal runs that end at or before b. */
  function RunsPenalty(l: Line, b: nat): nat
    requires b <= |l|
  {
    if b == 0 then 0
    else RunsPenalty(l, b - 1) + (if RunEndsAt(l, b) then RunPenalty(b - RunStart(l, b)) else 0)
  }

  // ---- N3: finder-like windows ----

  /** A 1:1:3:1:1 pattern of unit n that ends at e, with `left` and `right` light modules around it. */
  ghost predicate Window(l: Line, e: int, n: nat, left: nat, right: nat) {
    && n >= 1
    && AllLight(l, e - 7 * n - left, e - 7 * n)
    && AllDark(l, e - 7 * n, e - 6 * n)
    && AllLight(l, e - 6 * n, e - 5 * n)
    && AllDark(l, e - 5 * n, e - 2 * n)
    && AllLight(l, e - 2 * n, e - n)
    && AllDark(l, e - n, e)
    && AllLight(l, e, e + right)
  }

  ghost predicate WideLeft(l: Line, e: int, n: nat) { Window(l, e, n, 4 * n, n) }

  ghost predicate WideRight(l: Line, e: int, n: nat) { Window(l, e, n, n, 4 * n) }

  /** The windows that end at e: with the wide light border on the left, and with it on the right. */
  ghost function WindowsAt(l: Line, e: int): nat {
    (if exists n: nat :: WideLeft(l, e, n) then 1 else 0) + (if exists n: nat :: WideRight(l, e, n) then 1 else 0)
  }

  ghost function Windows(l: Line, b: int): nat {
    if b < 0 then 0 else Windows(l, b - 1) + WindowsAt(l, b)
  }

  ghost function LineScore(l: Line): nat {
    RunsPenalty(l, |l|) + PENALTY_N3 * Windows(l, |l|)
  }

  // ---- the run history ----

  /** The length of the run of colour `dark` that ends at e, inside the light border of |l| modules. */
  function BackRun(l: Line, e: int, dark: bool): (r: nat)
    requires e >= -|l|
    ensures e - r >= -|l|
    decreases e + |l|
  {
    if e > -|l| && Dark(l, e - 1) == dark then 1 + BackRun(l, e - 1, dark) else 0
  }

  lemma {:induction false} BackRunIsMaximal(l: Line, e: int, dark: bool)
    requires e >= -|l|
    ensures var a := e - BackRun(l, e, dark);
            (forall i :: a <= i < e ==> Dark(l, i) == dark) && (a > -|l| ==> Dark(l, a - 1) != dark)
    decreases e + |l|
  {
    if e > -|l| && Dark(l, e - 1) == dark { BackRunIsMaximal(l, e - 1, dark); }
  }

  lemma {:induction false} BackRunIs(l: Line, a: int, e: int, dark: bool)
    requires -|l| <= a <= e
    requires forall i :: a <= i < e ==> Dark(l, i) == dark
    requires a > -|l| ==> Dark(l, a - 1) != dark
    ensures BackRun(l, e, dark) == e - a
    decreases e - a
  {
    if a < e { BackRunIs(l, a, e - 1, dark); }
  }

  /** [a, e) is the run of colour `dark` that ends at e. */
  predicate Run(l: Line, a: int, e: int, dark: bool) {
    -|l| <= a <= e && BackRun(l, e, dark) == e - a
  }

  /** The last run lengths, latest first and of alternating colours, with the edges between them. */
  ghost predicate Traces(l: Line, h: seq<nat>, b: seq<int>, dark: bool) {
    && |h| == 7 && |b| == 8
    && forall i {:trigger h[i]} :: 0 <= i < 7 ==>
       h[i] == b[i] - b[i + 1] && Run(l, b[i + 1], b[i], dark == (i % 2 == 0))
  }

  predicate Core(h: seq<nat>)
    requires |h| == 7
  {
    h[1] > 0 && h[2] == h[1] && h[3] == h[1] * 3 && h[4] == h[1] && h[5] == h[1]
  }

  /** What finderPenaltyCountPatterns returns. */
  function Patterns(h: seq<nat>): nat
    requires |h| == 7
  {
    (if Core(h) && h[0] >= h[1] * 4 && h[6] >= h[1] then 1 else 0)
    + (if Core(h) && h[6] >= h[1] * 4 && h[0] >= h[1] then 1 else 0)
  }

  /** A light run ends at x: at a dark module, or a full border behind the line. */
  predicate LightRunEnds(l: Line, x: int) {
    x >= -|l| && (Dark(l, x) || x == 2 * |l|)
  }

  lemma DarkRunIs(l: Line, a: int, e: int)
    requires a <= e && AllDark(l, a, e) && -|l| <= a && !Dark(l, a - 1)
    ensures BackRun(l, e, true) == e - a
  {
    BackRunIs(l, a, e, true);
  }

  lemma LightRunIs(l: Line, a: int, e: int)
    requires a <= e && AllLight(l, a, e) && -|l| <= a && Dark(l, a - 1)
    ensures BackRun(l, e, false) == e - a
  {
    BackRunIs(l, a, e, false);
  }

  lemma LightRunAtLeast(l: Line, a: int, e: int)
    requires -|l| <= a <= e && AllLight(l, a, e)
    ensures BackRun(l, e, false) >= e - a
  {
    BackRunIsMaximal(l, e, false);
  }

  /** The runs a window consists of, from its end backwards. */
  lemma WindowRuns(l: Line, e: int, n: nat, left: nat, right: nat)
    requires Window(l, e, n, left, right) && 1 <= left <= 4 * n && e >= -|l|
    ensures e >= 7 * n && e <= |l|
    ensures BackRun(l, e, true) == n
    ensures BackRun(l, e - n, false) == n
    ensures BackRun(l, e - 2 * n, true) == 3 * n
    ensures BackRun(l, e - 5 * n, false) == n
    ensures BackRun(l, e - 6 * n, true) == n
    ensures BackRun(l, e - 7 * n, false) >= left
  {
    hide BackRun;
    assert Dark(l, e - 1) && Dark(l, e - 7 * n);
    assert !Dark(l, e - n - 1);
    DarkRunIs(l, e - n, e);
    assert Dark(l, e - 2 * n - 1);
    LightRunIs(l, e - 2 * n, e - n);
    assert !Dark(l, e - 5 * n - 1);
    DarkRunIs(l, e - 5 * n, e - 2 * n);
    assert Dark(l, e - 6 * n - 1);
    LightRunIs(l, e - 6 * n, e - 5 * n);
    assert !Dark(l, e - 7 * n - 1);
    DarkRunIs(l, e - 7 * n, e - 6 * n);
    LightRunAtLeast(l, e - 7 * n - left, e - 7 * n);
  }

  /** The runs behind a traced history. */
  lemma TracedRuns(l: Line, h: seq<nat>, b: seq<int>)
    requires Traces(l, h, b, false)
    ensures && b[0] - b[1] == h[0] && Run(l, b[1], b[0], false)
            && b[1] - b[2] == h[1] && Run(l, b[2], b[1], true)
            && b[2] - b[3] == h[2] && Run(l, b[3], b[2], false)
            && b[3] - b[4] == h[3] && Run(l, b[4], b[3], true)
            && b[4] - b[5] == h[4] && Run(l, b[5], b[4], false)
            && b[5] - b[6] == h[5] && Run(l, b[6], b[5], true)
            && b[6] - b[7] == h[6] && Run(l, b[7], b[6], false)
  {
    assert h[0] == b[0] - b[1] && h[1] == b[1] - b[2] && h[2] == b[2] - b[3] && h[3] == b[3] - b[4];
    assert h[4] == b[4] - b[5] && h[5] == b[5] - b[6] && h[6] == b[6] - b[7];
  }

  /** A window at the start of the last light run shows in the history. */
  lemma WindowInHistory(l: Line, h: seq<nat>, b: seq<int>, n: nat, left: nat, right: nat)
    requires Traces(l, h, b, false) && LightRunEnds(l, b[0])
    requires 1 <= left <= 4 * n && 1 <= right <= 4 * n && Window(l, b[1], n, left, right)
    ensures Core(h) && h[1] == n && h[6] >= left && h[0] >= right
  {
    hide BackRun, Dark;
    TracedRuns(l, h, b);
    WindowRuns(l, b[1], n, left, right);
    LightRunReaches(l, b[1], b[0], right);
  }

  lemma LightRunReaches(l: Line, e: int, x: int, right: nat)
    requires e <= x && LightRunEnds(l, x) && AllLight(l, e, e + right) && right <= |l| && e <= |l|
    ensures x - e >= right
  {
  }

  lemma RunColour(l: Line, a: int, e: int, dark: bool)
    requires Run(l, a, e, dark)
    ensures if dark then AllDark(l, a, e) else AllLight(l, a, e)
  {
    BackRunIsMaximal(l, e, dark);
  }

  /** A core in the history with enough light around it is a window. */
  lemma HistoryHasWindow(l: Line, h: seq<nat>, b: seq<int>, left: nat, right: nat)
    requires Traces(l, h, b, false) && Core(h) && h[6] >= left && h[0] >= right
    ensures Window(l, b[1], h[1], left, right)
  {
    TracedRuns(l, h, b);
    RunColour(l, b[1], b[0], false);
    RunColour(l, b[2], b[1], true);
    RunColour(l, b[3], b[2], false);
    RunColour(l, b[4], b[3], true);
    RunColour(l, b[5], b[4], false);
    RunColour(l, b[6], b[5], true);
    RunColour(l, b[7], b[6], false);
  }

  /** The streaming count at the end of a light run is the number of windows ending at its start. */
  lemma PatternsAreWindows(l: Line, h: seq<nat>, b: seq<int>)
    requires Traces(l, h, b, false) && LightRunEnds(l, b[0])
    ensures Patterns(h) == WindowsAt(l, b[1])
  {
    var n := h[1];
    if Core(h) && h[0] >= n * 4 && h[6] >= n {
      HistoryHasWindow(l, h, b, n, 4 * n);
      assert WideRight(l, b[1], n);
    }
    if Core(h) && h[6] >= n * 4 && h[0] >= n {
      HistoryHasWindow(l, h, b, 4 * n, n);
      assert WideLeft(l, b[1], n);
    }
    if m: nat :| WideLeft(l, b[1], m) { WindowInHistory(l, h, b, m, 4 * m, m); }
    if m: nat :| WideRight(l, b[1], m) { WindowInHistory(l, h, b, m, m, 4 * m); }
  }

  lemma WindowEndsDark(l: Line, e: int, n: nat, left: nat, right: nat)
    requires Window(l, e, n, left, right) && right >= 1
    ensures Dark(l, e - 1) && !Dark(l, e)
  {
  }

  /** No window ends where no dark run ends. */
  lemma {:induction false} WindowsFlat(l: Line, a: int, b: int)
    requires a <= b
    requires forall e :: a < e <= b ==> !(Dark(l, e - 1) && !Dark(l, e))
    ensures Windows(l, a) == Windows(l, b)
    decreases b - a
  {
    if a < b {
      WindowsFlat(l, a, b - 1);
      assert WindowsAt(l, b) == 0 by {
        if n: nat :| WideLeft(l, b, n) { WindowEndsDark(l, b, n, 4 * n, n); }
        if n: nat :| WideRight(l, b, n) { WindowEndsDark(l, b, n, n, 4 * n); }
      }
    }
  }

  /** Closing the run [b[0], x) puts its length in front of the history. */
  lemma PushTraces(l: Line, h: seq<nat>, b: seq<int>, colour: bool, x: int)
    requires Traces(l, h, b, !colour) && -|l| <= b[0] <= x
    requires forall i :: b[0] <= i < x ==> Dark(l, i) == colour
    requires b[0] > -|l| ==> Dark(l, b[0] - 1) != colour
    ensures Traces(l, [x - b[0]] + h[..6], [x] + b[..7], colour)
  {
    hide BackRun;
    BackRunIs(l, b[0], x, colour);
    var g, c := [x - b[0]] + h[..6], [x] + b[..7];
    forall i | 0 <= i < 7
      ensures g[i] == c[i] - c[i + 1] && Run(l, c[i + 1], c[i], colour == (i % 2 == 0))
    {
      if i > 0 { assert h[i - 1] == b[i - 1] - b[i]; }
    }
  }

  // ---- the streaming scorer ----

  function Pushed(h: seq<nat>, length: nat, size: nat): (r: seq<nat>)
    requires |h| == 7
    ensures |r| == 7
  {
    [if h[0] == 0 then length + size else length] + h[..6]
  }

  method AddHistory(length: nat, history: array<nat>, size: nat)
    requires history.Length == 7
    modifies history
    ensures history[..] == Pushed(old(history[..]), length, size)
  {
    var currentRunLength := length;
    if history[0] == 0 {
      currentRunLength := currentRunLength + size;
    }
    for k := 0 to 6
      invariant forall i :: 0 <= i <= 6 - k ==> history[i] == old(history[i])
      invariant forall i :: 7 - k <= i < 7 ==> history[i] == old(history[i - 1])
    {
      history[6 - k] := history[5 - k];
    }
    history[0] := currentRunLength;
  }

  /** The source asserts `n <= size * 3` on entry. */
  method CountPatterns(history: array<nat>, size: nat) returns (count: nat)
    requires history.Length == 7 && history[1] <= size * 3
    ensures count == Patterns(history[..])
  {
    var n := history[1];
    var core := n > 0 && history[2] == n && history[3] == n * 3 && history[4] == n && history[5] == n;
    count := (if core && history[0] >= n * 4 && history[6] >= n then 1 else 0)
             + (if core && history[6] >= n * 4 && history[0] >= n then 1 else 0);
  }

  /** The scorer's state before module x: the open run, and the closed runs behind it. */
  ghost predicate Scanning(l: Line, x: nat, colour: bool, run: nat, h: seq<nat>, b: seq<int>) {
    && x <= |l| && run <= x
    && Traces(l, h, b, !colour)
    && b[0] == (if h[0] == 0 then x - run - |l| else x - run)
    && (h[0] == 0 <==> b[0] == -|l|)
    && (h[0] == 0 ==> !colour)
    && (h[0] != 0 ==> run > 0)
    && (b[0] > -|l| ==> Dark(l, b[0] - 1) != colour)
    && (forall i :: b[0] <= i < x ==> Dark(l, i) == colour)
  }

  /** The penalties counted so far: closed runs and the open one; windows before the open light run. */
  ghost predicate Counted(l: Line, x: nat, colour: bool, run: nat, b: seq<int>, runs: nat, windows: nat) {
    && x <= |l| && run <= x && |b| > 0
    && (forall i :: x - run <= i < x ==> l[i] == colour)
    && (x - run > 0 ==> l[x - run - 1] != colour)
    && runs == RunsPenalty(l, x - run) + RunPenalty(run)
    && windows == Windows(l, if colour then x - 1 else b[0] - 1)
  }

  lemma {:induction false} RunStartIs(l: Line, a: nat, b: nat)
    requires a < b <= |l|
    requires forall i :: a <= i < b ==> l[i] == l[a]
    requires a > 0 ==> l[a - 1] != l[a]
    ensures RunStart(l, b) == a
  {
    if a < b - 1 { RunStartIs(l, a, b - 1); }
  }

  lemma {:induction false} RunsFlat(l: Line, a: nat, b: nat)
    requires a <= b <= |l|
    requires forall i :: a < i <= b ==> !RunEndsAt(l, i)
    ensures RunsPenalty(l, a) == RunsPenalty(l, b)
    decreases b - a
  {
    if a < b { RunsFlat(l, a, b - 1); }
  }

  /** A run is scored once, where it ends. */
  lemma RunCloses(l: Line, a: nat, b: nat)
    requires a <= b <= |l|
    requires forall i :: a <= i < b ==> l[i] == l[a]
    requires 0 < a < b ==> l[a - 1] != l[a]
    requires b == |l| || (a < b ==> l[b] != l[a])
    ensures RunsPenalty(l, b) == RunsPenalty(l, a) + RunPenalty(b - a)
  {
    if a < b {
      RunStartIs(l, a, b);
      RunsFlat(l, a, b - 1);
    }
  }

  /** Maximal runs are exactly the intervals the score is summed over. */
  lemma RunsAreMaximal(l: Line, a: nat, b: nat)
    requires 0 < b <= |l|
    ensures MaximalRun(l, a, b) <==> RunEndsAt(l, b) && a == RunStart(l, b)
  {
    if MaximalRun(l, a, b) { RunStartIs(l, a, b); }
  }

  lemma {:induction false} DarkRunFits(l: Line, e: int)
    requires e >= -|l|
    ensures BackRun(l, e, true) <= if e < 0 then 0 else e
    decreases e + |l|
  {
    if e > -|l| { DarkRunFits(l, e - 1); }
  }

  /** The history bound of the source: after a light run, entry 1 is a dark run of the line. */
  lemma HistoryBound(l: Line, h: seq<nat>, b: seq<int>)
    requires Traces(l, h, b, false) && b[1] <= |l|
    ensures h[1] <= |l|
  {
    assert h[1] == b[1] - b[2];
    DarkRunFits(l, b[1]);
  }

  /** The increment that takes an open run's penalty from length - 1 to length. */
  function RunIncrement(length: nat): nat {
    if length == 5 then PENALTY_N1 else if length > 5 then 1 else 0
  }

  lemma RunGoesOn(l: Line, x: nat, colour: bool, run: nat, h: seq<nat>, b: seq<int>, runs: nat, windows: nat)
    requires x < |l| && l[x] == colour
    requires Scanning(l, x, colour, run, h, b) && Counted(l, x, colour, run, b, runs, windows)
    ensures Scanning(l, x + 1, colour, run + 1, h, b)
    ensures Counted(l, x + 1, colour, run + 1, b, runs + RunIncrement(run + 1), windows)
  {
    if colour { WindowsFlat(l, x - 1, x); }
  }

  lemma ScanChanges(l: Line, x: nat, colour: bool, run: nat, h: seq<nat>, b: seq<int>)
    requires x < |l| && l[x] != colour
    requires Scanning(l, x, colour, run, h, b)
    ensures |h| == 7 && |b| == 8
    ensures Traces(l, Pushed(h, run, |l|), [x] + b[..7], colour)
    ensures Scanning(l, x + 1, !colour, 1, Pushed(h, run, |l|), [x] + b[..7])
  {
    PushTraces(l, h, b, colour, x);
    assert [x - b[0]] + h[..6] == Pushed(h, run, |l|);
  }

  /** A light run that ends at a dark module: the history counts the windows that end at its start. */
  lemma LightRunScored(l: Line, x: nat, run: nat, h: seq<nat>, b: seq<int>)
    requires x < |l| && l[x] && Scanning(l, x, false, run, h, b)
    ensures |h| == 7 && |b| == 8
    ensures Pushed(h, run, |l|)[1] <= |l|
    ensures Windows(l, x) == Windows(l, b[0] - 1) + Patterns(Pushed(h, run, |l|))
  {
    hide BackRun, Window, Patterns, Windows, WindowsAt;
    var g, c := Pushed(h, run, |l|), [x] + b[..7];
    ScanChanges(l, x, false, run, h, b);
    HistoryBound(l, g, c);
    PatternsAreWindows(l, g, c);
    WindowsFlat(l, b[0], x);
    WindowsStep(l, b[0]);
  }

  lemma WindowsStep(l: Line, e: int)
    ensures Windows(l, e) == Windows(l, e - 1) + WindowsAt(l, e)
  {
    if e < 0 {
      assert WindowsAt(l, e) == 0 by {
        if n: nat :| WideLeft(l, e, n) { WindowEndsDark(l, e, n, 4 * n, n); }
        if n: nat :| WideRight(l, e, n) { WindowEndsDark(l, e, n, n, 4 * n); }
      }
    }
  }

  lemma CountChanges(l: Line, x: nat, colour: bool, run: nat, h: seq<nat>, b: seq<int>, runs: nat, windows: nat)
    requires x < |l| && l[x] != colour
    requires Scanning(l, x, colour, run, h, b) && Counted(l, x, colour, run, b, runs, windows)
    ensures Counted(l, x + 1, !colour, 1, [x] + b[..7], runs,
                    if colour then windows else windows + Patterns(Pushed(h, run, |l|)))
    ensures !colour ==> Pushed(h, run, |l|)[1] <= |l|
  {
    ScanningShape(l, x, colour, run, h, b);
    hide Scanning, RunStart, RunsPenalty, Windows, Patterns, Pushed;
    RunCloses(l, x - run, x);
    if !colour { LightRunScored(l, x, run, h, b); }
  }

  /** Before the first module: no history, and an open light run that starts with the border. */
  lemma ScanStarts(l: Line, h: seq<nat>, b: seq<int>)
    requires |l| > 0 && h == seq(7, i => 0) && b == seq(8, i => -|l|)
    ensures Scanning(l, 0, false, 0, h, b) && Counted(l, 0, false, 0, b, 0, 0)
  {
    EmptyRun(l);
    assert Traces(l, h, b, true) by {
      hide BackRun;
      assert forall i :: 0 <= i < 7 ==> h[i] == b[i] - b[i + 1];
    }
  }

  lemma EmptyRun(l: Line)
    ensures Run(l, -|l|, -|l|, false) && Run(l, -|l|, -|l|, true)
    ensures forall i :: -|l| <= i < 0 ==> !Dark(l, i)
  {
  }

  lemma PushedLength(h: seq<nat>, length: nat, size: nat)
    requires |h| == 7
    ensures Pushed(h, length, size)[0] == if h[0] == 0 then length + size else length
  {
  }

  lemma LastLightRun(l: Line, run: nat, h: seq<nat>, b: seq<int>)
    requires |l| > 0 && Scanning(l, |l|, false, run, h, b)
    ensures |h| == 7 && |b| == 8
    ensures Traces(l, h, b, true) && -|l| <= b[0] <= |l|
    ensures AllLight(l, b[0], |l|) && (b[0] > -|l| ==> Dark(l, b[0] - 1))
    ensures (if h[0] == 0 then run + |l| + |l| else run + |l|) == 2 * |l| - b[0]
  {
    hide Traces;
    ScanningShape(l, |l|, false, run, h, b);
  }

  lemma ScanningShape(l: Line, x: nat, colour: bool, run: nat, h: seq<nat>, b: seq<int>)
    requires Scanning(l, x, colour, run, h, b)
    ensures |h| == 7 && |b| == 8
  {
  }

  /** Behind the last module a light run goes on into the border. */
  lemma ScanEndsLight(l: Line, run: nat, h: seq<nat>, b: seq<int>)
    requires |l| > 0 && Scanning(l, |l|, false, run, h, b)
    ensures var last := Pushed(h, run + |l|, |l|);
            last[1] <= |l| && Windows(l, |l|) == Windows(l, b[0] - 1) + Patterns(last)
  {
    hide *;
    LastLightRun(l, run, h, b);
    PushedLength(h, run + |l|, |l|);
    BorderCloses(l, run + |l|, h, b);
  }

  /** Behind the last module a dark run is closed and the border follows. */
  lemma ScanEndsDark(l: Line, run: nat, h: seq<nat>, b: seq<int>)
    requires |l| > 0 && Scanning(l, |l|, true, run, h, b)
    ensures var last := Pushed(Pushed(h, run, |l|), |l|, |l|);
            last[1] <= |l| && Windows(l, |l|) == Windows(l, |l| - 1) + Patterns(last)
  {
    PushTraces(l, h, b, true, |l|);
    assert [|l| - b[0]] + h[..6] == Pushed(h, run, |l|);
    BorderCloses(l, |l|, Pushed(h, run, |l|), [|l|] + b[..7]);
  }

  lemma BorderCloses(l: Line, length: nat, h: seq<nat>, b: seq<int>)
    requires |l| > 0 && Traces(l, h, b, true) && -|l| <= b[0] <= |l|
    requires AllLight(l, b[0], |l|) && (b[0] > -|l| ==> Dark(l, b[0] - 1))
    requires Pushed(h, length, |l|)[0] == 2 * |l| - b[0]
    ensures var last := Pushed(h, length, |l|);
            last[1] <= |l| && Windows(l, |l|) == Windows(l, b[0] - 1) + Patterns(last)
  {
    var last, c := Pushed(h, length, |l|), [2 * |l|] + b[..7];
    PushTraces(l, h, b, false, 2 * |l|);
    assert [2 * |l| - b[0]] + h[..6] == last;
    HistoryBound(l, last, c);
    PatternsAreWindows(l, last, c);
    WindowsFlat(l, b[0], |l|);
    if b[0] == -|l| { WindowsFlat(l, b[0] - 1, b[0]); }
  }

  /** What the counts amount to when the line ends. */
  lemma ScanDone(l: Line, colour: bool, run: nat, b: seq<int>, runs: nat, windows: nat, last: nat)
    requires Counted(l, |l|, colour, run, b, runs, windows)
    requires Windows(l, |l|) == Windows(l, if colour then |l| - 1 else b[0] - 1) + last
    ensures LineScore(l) == runs + (windows + last) * PENALTY_N3
  {
    RunCloses(l, |l| - run, |l|);
  }

  method ScoreLine(l: Line) returns (score: nat)
    requires |l| > 0
    ensures score == LineScore(l)
  {
    hide Scanning, Counted, Pushed, Patterns, Windows, LineScore;
    var runs: nat, windows: nat := 0, 0;
    var runColour, run: nat := false, 0;
    var history := new nat[7](i => 0);
    ghost var b := seq(8, i => -|l|);
    ScanStarts(l, history[..], b);
    for x := 0 to |l|
      invariant Scanning(l, x, runColour, run, history[..], b)
      invariant Counted(l, x, runColour, run, b, runs, windows)
    {
      if l[x] == runColour {
        RunGoesOn(l, x, runColour, run, history[..], b, runs, windows);
        run := run + 1;
        if run == 5 {
          runs := runs + PENALTY_N1;
        } else if run > 5 {
          runs := runs + 1;
        }
      } else {
        ScanChanges(l, x, runColour, run, history[..], b);
        CountChanges(l, x, runColour, run, history[..], b, runs, windows);
        AddHistory(run, history, |l|);
        b := [x] + b[..7];
        if !runColour {
          var patterns := CountPatterns(history, |l|);
          windows := windows + patterns;
        }
        runColour := l[x];
        run := 1;
      }
    }
    ScanningShape(l, |l|, runColour, run, history[..], b);
    var last := TerminateAndCount(l, runColour, run, history, b);
    ScanDone(l, runColour, run, b, runs, windows, last);
    windows := windows + last;
    score := runs + windows * PENALTY_N3;
  }

  method TerminateAndCount(l: Line, runColour: bool, run: nat, history: array<nat>, ghost b: seq<int>)
                           returns (count: nat)
    requires |l| > 0 && history.Length == 7
    requires Scanning(l, |l|, runColour, run, history[..], b)
    modifies history
    ensures Windows(l, |l|) == Windows(l, if runColour then |l| - 1 else b[0] - 1) + count
  {
    hide Windows, Patterns, Scanning, Pushed;
    ScanningShape(l, |l|, runColour, run, history[..], b);
    var currentRunLength := run;
    if !runColour {
      ScanEndsLight(l, run, history[..], b);
    } else {
      ScanEndsDark(l, run, history[..], b);
      AddHistory(currentRunLength, history, |l|);
      currentRunLength := 0;
    }
    currentRunLength := currentRunLength + |l|;
    AddHistory(currentRunLength, history, |l|);
    count := CountPatterns(history, |l|);
  }
}
