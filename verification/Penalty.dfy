/** The penalty score that ranks masks (frontend/js/qrcodegen.js, getPenaltyScore and the
    finderPenalty helpers). */
module Penalty {
  import opened Grids

  const PENALTY_N1 := 3
  const PENALTY_N2 := 3
  const PENALTY_N3 := 40
  const PENALTY_N4 := 10

  type Line = seq<bool>

  // ---- maximal runs ----

  // Lengths of the maximal runs of a line, light and dark in turn; the first is light and is 0
  // for a line that starts dark or is empty.
  function Runs(line: Line): (r: seq<nat>)
    ensures |r| >= 1
  {
    if line == [] then [0]
    else
      var n := |line| - 1;
      Extend(Runs(line[..n]), line[n])
  }

  // The runs after one more module.
  function Extend(r: seq<nat>, dark: bool): (s: seq<nat>)
    requires |r| >= 1
    ensures |s| >= 1
  {
    if dark == LastIsDark(r) then r[|r| - 1 := r[|r| - 1] + 1] else r + [1]
  }

  predicate LastIsDark(r: seq<nat>) {
    |r| % 2 == 0
  }

  // Runs with nothing empty but perhaps the first.
  predicate Proper(r: seq<nat>) {
    |r| >= 1 && forall i :: 0 < i < |r| ==> r[i] > 0
  }

  function Repeat(dark: bool, n: nat): (s: Line)
    ensures |s| == n
  {
    seq(n, _ => dark)
  }

  // The line that has these runs.
  function Render(r: seq<nat>): Line {
    if r == [] then [] else Render(r[..|r| - 1]) + Repeat(LastIsDark(r), r[|r| - 1])
  }

  lemma {:induction false} RenderPush(r: seq<nat>, n: nat)
    ensures Render(r + [n]) == Render(r) + Repeat(LastIsDark(r + [n]), n)
  {
    assert (r + [n])[..|r|] == r;
  }

  lemma {:induction false} RepeatMore(dark: bool, n: nat)
    ensures Repeat(dark, n + 1) == Repeat(dark, n) + [dark]
    ensures Repeat(dark, 0) == []
  {
  }

  lemma {:induction false} RenderGrow(p: seq<nat>, k: nat)
    ensures Render(p + [k + 1]) == Render(p + [k]) + [LastIsDark(p + [k])]
  {
    var dark := LastIsDark(p + [k]);
    RenderPush(p, k);
    RenderPush(p, k + 1);
    assert LastIsDark(p + [k + 1]) == dark;
    var a, b := Render(p), Repeat(dark, k);
    RepeatMore(dark, k);
    assert a + (b + [dark]) == (a + b) + [dark];
  }

  lemma {:induction false} RenderNewRun(r: seq<nat>)
    ensures Render(r + [1]) == Render(r) + [LastIsDark(r + [1])]
  {
    var dark := LastIsDark(r + [1]);
    RenderPush(r, 1);
    RepeatMore(dark, 0);
    assert Repeat(dark, 1) == [dark];
  }

  lemma {:induction false} RenderExtend(r: seq<nat>, dark: bool)
    requires |r| >= 1
    ensures Render(Extend(r, dark)) == Render(r) + [dark]
  {
    var m := |r| - 1;
    var p, k := r[..m], r[m];
    if dark == LastIsDark(r) {
      assert r == p + [k];
      assert r[m := k + 1] == p + [k + 1];
      RenderGrow(p, k);
    } else {
      RenderNewRun(r);
      assert LastIsDark(r + [1]) == dark;
    }
  }

  lemma {:induction false} ProperExtend(r: seq<nat>, dark: bool)
    requires Proper(r)
    ensures Proper(Extend(r, dark))
  {
  }

  lemma {:induction false} RunsRender(line: Line)
    ensures Proper(Runs(line)) && Render(Runs(line)) == line
  {
    if line == [] {
      RenderPush([], 0);
      assert [] + [0] == [0 as nat];
    } else {
      var n := |line| - 1;
      RunsRender(line[..n]);
      RenderExtend(Runs(line[..n]), line[n]);
      ProperExtend(Runs(line[..n]), line[n]);
      assert line == line[..n] + [line[n]];
    }
  }

  // The runs before the last module was added.
  function Shrink(r: seq<nat>): (s: seq<nat>)
    requires Proper(r) && r != [0]
    ensures Proper(s) && Extend(s, LastIsDark(r)) == r
  {
    var m := |r| - 1;
    if r[m] == 1 && m > 0 then r[..m] else r[m := r[m] - 1]
  }

  /** Runs is the decomposition into maximal runs: no other proper list renders to the line. */
  lemma {:induction false} RunsUnique(r: seq<nat>)
    requires Proper(r)
    ensures Runs(Render(r)) == r
    decreases |Render(r)|
  {
    if r == [0] {
      RunsRender([]);
    } else {
      var s := Shrink(r);
      RenderExtend(s, LastIsDark(r));
      RunsUnique(s);
      RunsPush(Render(s), LastIsDark(r));
    }
  }

  lemma {:induction false} RunsPush(line: Line, dark: bool)
    ensures Runs(line + [dark]) == Extend(Runs(line), dark)
  {
    assert (line + [dark])[..|line|] == line;
  }

  function Total(r: seq<nat>): nat {
    if r == [] then 0 else Total(r[..|r| - 1]) + r[|r| - 1]
  }

  lemma {:induction false} RunsTotal(line: Line)
    ensures Total(Runs(line)) == |line|
  {
    if line == [] {
      assert Total([0]) == Total([]) + 0;
    } else {
      var n := |line| - 1;
      var r := Runs(line[..n]);
      RunsTotal(line[..n]);
      var s := Extend(r, line[n]);
      assert s[..|s| - 1] == if line[n] == LastIsDark(r) then r[..|r| - 1] else r;
    }
  }

  // ---- cost of runs ----

  // A run of five costs 3 and every further module 1.
  function RunCost(length: nat): nat {
    if length >= 5 then length - 2 else 0
  }

  function RunsCost(r: seq<nat>): nat {
    if r == [] then 0 else RunsCost(r[..|r| - 1]) + RunCost(r[|r| - 1])
  }

  lemma {:induction false} RunsCostBound(r: seq<nat>)
    ensures RunsCost(r) <= Total(r)
  {
    if r != [] {
      RunsCostBound(r[..|r| - 1]);
    }
  }

  // ---- finder-like patterns ----

  // The completed runs seen by the finder test: light borders of the given width are added to
  // the first run and to the end of the line.
  function PadFirst(r: seq<nat>, size: nat): (s: seq<nat>)
    requires |r| >= 1
    ensures |s| == |r|
  {
    r[0 := r[0] + size]
  }

  function Padded(r: seq<nat>, size: nat): (s: seq<nat>)
    requires |r| >= 1
    ensures |s| >= 1 && |s| % 2 == 1
  {
    var s := PadFirst(r, size);
    if LastIsDark(r) then s + [size] else s[|s| - 1 := s[|s| - 1] + size]
  }

  // Runs t-5 .. t-1 are dark, light, dark, light, dark of widths n, n, 3n, n, n.
  predicate IsCore(s: seq<nat>, t: nat, n: nat) {
    && 6 <= t < |s| && n > 0
    && s[t - 1] == n && s[t - 2] == n && s[t - 3] == 3 * n && s[t - 4] == n && s[t - 5] == n
  }

  // How many of the two finder-like patterns end with light run t: a core with light margins
  // of at least 4n on one side and n on the other.
  function PatternsAt(s: seq<nat>, t: nat): nat {
    if 6 <= t < |s| && IsCore(s, t, s[t - 1]) then
      var n := s[t - 1];
      (if s[t] >= 4 * n && s[t - 6] >= n then 1 else 0)
      + (if s[t - 6] >= 4 * n && s[t] >= n then 1 else 0)
    else 0
  }

  // Patterns ending with any of the light runs.
  function Patterns(s: seq<nat>): nat {
    if s == [] then 0
    else
      var t := |s| - 1;
      Patterns(s[..t]) + (if t % 2 == 0 then PatternsAt(s, t) else 0)
  }

  // The seven latest completed runs, latest first.
  function History(s: seq<nat>): (h: seq<nat>)
    ensures |h| == 7
  {
    seq(7, i requires 0 <= i < 7 => if i < |s| then s[|s| - 1 - i] else 0)
  }

  /** finderPenaltyAddHistory. */
  function AddHistory(length: nat, history: seq<nat>, size: nat): (h: seq<nat>)
    requires |history| == 7
    ensures |h| == 7
  {
    [if history[0] == 0 then length + size else length] + history[..6]
  }

  /** finderPenaltyCountPatterns. Its assertion on the entry before the latest is stated where it is
      called (see DarkRunsFit). */
  function CountPatterns(h: seq<nat>): nat
    requires |h| == 7
  {
    var n := h[1];
    var core := n > 0 && h[2] == n && h[3] == n * 3 && h[4] == n && h[5] == n;
    (if core && h[0] >= n * 4 && h[6] >= n then 1 else 0)
    + (if core && h[6] >= n * 4 && h[0] >= n then 1 else 0)
  }

  lemma {:induction false} HistoryCounts(s: seq<nat>)
    requires |s| >= 1
    ensures CountPatterns(History(s)) == PatternsAt(s, |s| - 1)
  {
    var h := History(s);
    assert h[5] > 0 ==> |s| >= 6;
    assert h[6] == if |s| >= 7 then s[|s| - 7] else 0;
  }

  /** Counting on the seven-entry history when a light run has ended finds exactly the patterns
      that end there, at the start of a line too, where the history is not yet full. */
  lemma {:induction false} PushCounts(s: seq<nat>, length: nat)
    ensures Patterns(s + [length])
         == Patterns(s) + (if |s| % 2 == 0 then CountPatterns(History(s + [length])) else 0)
  {
    assert (s + [length])[..|s|] == s;
    HistoryCounts(s + [length]);
  }

  lemma {:induction false} HistoryPush(s: seq<nat>, length: nat, size: nat)
    requires size > 0 && (s != [] ==> s[|s| - 1] > 0)
    ensures AddHistory(length, History(s), size) == History(s + [if s == [] then length + size else length])
  {
    var h := History(s);
    assert h[0] == 0 <==> s == [];
  }

  // The score of one line: runs and finder-like patterns.
  function LineScore(line: Line): nat {
    RunsCost(Runs(line)) + PENALTY_N3 * Patterns(Padded(Runs(line), |line|))
  }

  // The completed runs, the last one being still open.
  function Completed(r: seq<nat>, size: nat): seq<nat>
    requires |r| >= 1
  {
    PadFirst(r, size)[..|r| - 1]
  }

  // A completed list never ends in an empty run.
  lemma {:induction false} CompletedEndsPositive(r: seq<nat>, size: nat)
    requires Proper(r) && size > 0
    ensures Completed(r, size) != [] ==> Completed(r, size)[|r| - 2] > 0
  {
  }

  // The score while the last run is open.
  function OpenScore(r: seq<nat>, size: nat): nat
    requires |r| >= 1
  {
    RunsCost(r) + PENALTY_N3 * Patterns(Completed(r, size))
  }

  lemma {:induction false} RunsCostPush(r: seq<nat>, n: nat)
    ensures RunsCost(r + [n]) == RunsCost(r) + RunCost(n)
  {
    assert (r + [n])[..|r|] == r;
  }

  // One more module of the open run's colour.
  lemma {:induction false} SameColour(r: seq<nat>, size: nat)
    requires Proper(r)
    ensures var s := Extend(r, LastIsDark(r));
      && Proper(s) && LastIsDark(s) == LastIsDark(r) && s[|s| - 1] == r[|r| - 1] + 1
      && Completed(s, size) == Completed(r, size)
      && OpenScore(s, size) == OpenScore(r, size) + RunCost(r[|r| - 1] + 1) - RunCost(r[|r| - 1])
  {
    var s, m := Extend(r, LastIsDark(r)), |r| - 1;
    assert r == r[..m] + [r[m]] && s == r[..m] + [r[m] + 1];
    RunsCostPush(r[..m], r[m]);
    RunsCostPush(r[..m], r[m] + 1);
    assert Completed(s, size) == Completed(r, size);
  }

  // What is pushed to the history when the open run ends.
  function Ended(r: seq<nat>, size: nat): nat
    requires |r| >= 1
  {
    if |r| == 1 then r[0] + size else r[|r| - 1]
  }

  // A module of the other colour.
  lemma {:induction false} OtherColour(r: seq<nat>, size: nat)
    requires Proper(r)
    ensures var s := Extend(r, !LastIsDark(r));
      && Proper(s) && LastIsDark(s) == !LastIsDark(r) && s[|s| - 1] == 1
      && Completed(s, size) == Completed(r, size) + [Ended(r, size)]
      && RunsCost(s) == RunsCost(r)
  {
    RunsCostPush(r, 1);
  }

  ghost predicate ScanState(r: seq<nat>, size: nat, runColor: bool, run: nat, history: seq<nat>, result: nat) {
    && Proper(r) && runColor == LastIsDark(r) && run == r[|r| - 1]
    && history == History(Completed(r, size))
    && result == OpenScore(r, size)
  }

  /** The scan of one row or column inside getPenaltyScore. */
  method ScanLine(line: Line) returns (result: nat)
    requires |line| > 0
    ensures result == LineScore(line)
  {
    var size := |line|;
    var runColor := false;
    var run := 0;
    var history: seq<nat> := [0, 0, 0, 0, 0, 0, 0];
    result := 0;
    ghost var r: seq<nat> := Runs([]);
    ScanStarts(size);
    for x := 0 to size
      invariant r == Runs(line[..x])
      invariant ScanState(r, size, runColor, run, history, result)
    {
      RunsTotal(line[..x]);
      run, runColor, history, result := ScanModule(r, line[x], run, runColor, history, size, result);
      assert line[..x + 1] == line[..x] + [line[x]];
      RunsPush(line[..x], line[x]);
      r := Extend(r, line[x]);
    }
    assert line[..size] == line;
    RunsTotal(line);
    var patterns := TerminateAndCount(r, run, runColor, history, size);
    result := result + patterns * PENALTY_N3;
  }

  lemma {:induction false} ScanStarts(size: nat)
    ensures ScanState(Runs([]), size, false, 0, [0, 0, 0, 0, 0, 0, 0], 0)
  {
    assert RunsCost([0]) == RunsCost([]) + RunCost(0);
    assert Completed([0], size) == [];
  }

  // One turn of the loop.
  method ScanModule(ghost r: seq<nat>, dark: bool, run: nat, runColor: bool, history: seq<nat>, size: nat, before: nat)
    returns (n: nat, color: bool, h: seq<nat>, result: nat)
    requires ScanState(r, size, runColor, run, history, before) && size > 0 && Total(r) <= size
    ensures ScanState(Extend(r, dark), size, color, n, h, result)
  {
    n, color, h, result := run, runColor, history, before;
    if dark == color {
      n, result := GrowRun(r, run, runColor, history, size, before);
    } else {
      h, result := CompleteRun(r, run, runColor, history, size, before);
      color := dark;
      n := 1;
    }
  }

  lemma {:induction false} EndedPushed(r: seq<nat>, size: nat)
    requires Proper(r) && size > 0
    ensures AddHistory(r[|r| - 1], History(Completed(r, size)), size)
         == History(Completed(r, size) + [Ended(r, size)])
  {
    CompletedEndsPositive(r, size);
    HistoryPush(Completed(r, size), r[|r| - 1], size);
  }

  lemma {:induction false} EndedCounts(r: seq<nat>, size: nat)
    requires Proper(r)
    ensures var s := Completed(r, size) + [Ended(r, size)];
      Patterns(s) == Patterns(Completed(r, size)) + (if LastIsDark(r) then 0 else CountPatterns(History(s)))
  {
    PushCounts(Completed(r, size), Ended(r, size));
  }

  // The open run ends and a run of the other colour begins.
  lemma {:induction false} RunEnds(r: seq<nat>, size: nat)
    requires Proper(r) && size > 0
    ensures var s := Extend(r, !LastIsDark(r));
      && Proper(s) && LastIsDark(s) == !LastIsDark(r) && s[|s| - 1] == 1
      && AddHistory(r[|r| - 1], History(Completed(r, size)), size) == History(Completed(s, size))
      && OpenScore(s, size) == OpenScore(r, size)
           + (if LastIsDark(r) then 0 else PENALTY_N3 * CountPatterns(History(Completed(s, size))))
  {
    OtherColour(r, size);
    EndedPushed(r, size);
    EndedCounts(r, size);
  }

  lemma {:induction false} RunAtMostTotal(r: seq<nat>, i: nat)
    requires i < |r|
    ensures r[i] <= Total(r)
  {
    if i < |r| - 1 {
      RunAtMostTotal(r[..|r| - 1], i);
    }
  }

  /** The assertion of finderPenaltyCountPatterns. It is called when a light run has been pushed on
      the history, or at the end of a line, after a last dark run, when the border has been. Each
      time the entry before that is at most three times the length of the line. */
  lemma {:induction false} DarkRunsFit(r: seq<nat>, size: nat)
    requires Proper(r) && Total(r) <= size
    ensures var h := History(Completed(r, size));
      if LastIsDark(r) then AddHistory(size, AddHistory(r[|r| - 1], h, size), size)[1] <= size * 3
      else forall length: nat :: AddHistory(length, h, size)[1] <= size * 3
  {
    RunAtMostTotal(r, |r| - 1);
    if |r| > 1 {
      RunAtMostTotal(r, |r| - 2);
    }
  }

  // The branch taken when the colour stays the same.
  method GrowRun(ghost r: seq<nat>, run: nat, runColor: bool, ghost history: seq<nat>, size: nat, before: nat)
    returns (n: nat, result: nat)
    requires ScanState(r, size, runColor, run, history, before)
    ensures ScanState(Extend(r, runColor), size, runColor, n, history, result)
  {
    SameColour(r, size);
    n, result := run + 1, before;
    if n == 5 {
      result := result + PENALTY_N1;
    } else if n > 5 {
      result := result + 1;
    }
  }

  // The branch taken when the colour changes: the run is pushed, and patterns are counted when
  // it was light.
  method CompleteRun(ghost r: seq<nat>, run: nat, runColor: bool, history: seq<nat>, size: nat, before: nat)
    returns (h: seq<nat>, result: nat)
    requires ScanState(r, size, runColor, run, history, before) && size > 0 && Total(r) <= size
    ensures ScanState(Extend(r, !runColor), size, !runColor, 1, h, result)
  {
    RunEnds(r, size);
    DarkRunsFit(r, size);
    h := AddHistory(run, history, size);
    result := before;
    if !runColor {
      assert h[1] <= size * 3;
      result := result + CountPatterns(h) * PENALTY_N3;
    }
  }

  lemma {:induction false} PaddedEnds(r: seq<nat>, size: nat)
    requires Proper(r) && size > 0
    ensures var c, last := Completed(r, size), r[|r| - 1];
      Padded(r, size) ==
        if LastIsDark(r) then (c + [last]) + [size]
        else c + [if c == [] then last + size + size else last + size]
  {
  }

  // A line that ends dark: its last run, then the light border.
  lemma {:induction false} DarkEnd(r: seq<nat>, size: nat)
    requires Proper(r) && size > 0 && LastIsDark(r)
    ensures var c, last := Completed(r, size), r[|r| - 1];
      Patterns(Padded(r, size)) == Patterns(c) + CountPatterns(AddHistory(size, AddHistory(last, History(c), size), size))
  {
    var c, last := Completed(r, size), r[|r| - 1];
    PaddedEnds(r, size);
    CompletedEndsPositive(r, size);
    HistoryPush(c, last, size);
    PushCounts(c, last);
    HistoryPush(c + [last], size, size);
    PushCounts(c + [last], size);
  }

  // A line that ends light: its last run together with the border.
  lemma {:induction false} LightEnd(r: seq<nat>, size: nat)
    requires Proper(r) && size > 0 && !LastIsDark(r)
    ensures var c, last := Completed(r, size), r[|r| - 1];
      Patterns(Padded(r, size)) == Patterns(c) + CountPatterns(AddHistory(last + size, History(c), size))
  {
    var c, last := Completed(r, size), r[|r| - 1];
    PaddedEnds(r, size);
    CompletedEndsPositive(r, size);
    HistoryPush(c, last + size, size);
    PushCounts(c, if c == [] then last + size + size else last + size);
  }

  /** finderPenaltyTerminateAndCount. */
  method TerminateAndCount(ghost r: seq<nat>, currentRun: nat, runColor: bool, history: seq<nat>, size: nat)
    returns (count: nat)
    requires Proper(r) && size > 0 && Total(r) <= size && runColor == LastIsDark(r) && currentRun == r[|r| - 1]
    requires history == History(Completed(r, size))
    ensures Patterns(Completed(r, size)) + count == Patterns(Padded(r, size))
  {
    var length, h := currentRun, history;
    DarkRunsFit(r, size);
    if runColor {
      DarkEnd(r, size);
      h := AddHistory(length, h, size);
      length := 0;
    } else {
      LightEnd(r, size);
    }
    length := length + size;
    h := AddHistory(length, h, size);
    assert h[1] <= size * 3;
    count := CountPatterns(h);
  }

  // ---- balance of dark and light ----

  function Abs(n: int): nat {
    if n < 0 then -n else n
  }

  // Least k with |a| <= k * b, for b > 0.
  function CeilDiv(a: nat, b: nat): (k: int)
    requires b > 0
  {
    (a + b - 1) / b
  }

  // The balance term before weighting.
  function Balance(dark: nat, total: nat): int
    requires total > 0
  {
    CeilDiv(Abs(dark * 20 - total * 10), total) - 1
  }

  // The share of dark modules lies within 5 (k + 1) percent of one half.
  predicate Balanced(dark: nat, total: nat, k: int) {
    (45 - 5 * k) * total <= 100 * dark <= (55 + 5 * k) * total
  }

  lemma {:induction false} CeilDivLeast(a: nat, b: nat, k: nat)
    requires b > 0
    ensures a <= k * b <==> CeilDiv(a, b) <= k
  {
    var q, r := (a + b - 1) / b, (a + b - 1) % b;
    assert a + b - 1 == q * b + r;
    if q <= k {
      assert q * b <= k * b;
    } else {
      assert (k + 1) * b <= q * b;
      assert (k + 1) * b == k * b + b;
    }
  }

  /** For an odd total, k is at least 0 and is the smallest number with the dark share in
      [45 - 5k, 55 + 5k] percent; it is at most 9. */
  lemma {:induction false} BalanceIsLeast(dark: nat, total: nat, k: nat)
    requires total % 2 == 1 && dark <= total
    ensures 0 <= Balance(dark, total) <= 9
    ensures Balanced(dark, total, k) <==> Balance(dark, total) <= k
  {
    var a := Abs(dark * 20 - total * 10);
    CeilDivLeast(a, total, k + 1);
    CeilDivLeast(a, total, 0);
    CeilDivLeast(a, total, 10);
    assert a != 0;
    BalancedMeans(dark, total, k);
  }

  lemma {:induction false} BalancedMeans(dark: nat, total: nat, k: nat)
    ensures Balanced(dark, total, k) <==> Abs(dark * 20 - total * 10) <= (k + 1) * total
  {
    var kt := k * total;
    assert (45 - 5 * k) * total == 45 * total - 5 * kt;
    assert (55 + 5 * k) * total == 55 * total + 5 * kt;
    assert (k + 1) * total == kt + total;
  }

  // ---- the score of a grid ----

  // The columns of a grid, as lines.
  function Columns(g: Grid): (h: Grid)
    requires Square(g, |g|)
    ensures Square(h, |g|)
  {
    seq(|g|, x requires 0 <= x < |g| => seq(|g|, y requires 0 <= y < |g| => g[y][x]))
  }

  // The scores of the first n lines together.
  function Scores(lines: seq<Line>, n: nat): nat
    requires n <= |lines|
  {
    if n == 0 then 0 else Scores(lines, n - 1) + LineScore(lines[n - 1])
  }

  // The 2*2 block with its top left corner at (x, y) has one colour.
  predicate Uniform(g: Grid, x: nat, y: nat)
    requires Square(g, |g|) && x + 1 < |g| && y + 1 < |g|
  {
    g[y][x] == g[y][x + 1] && g[y][x] == g[y + 1][x] && g[y][x] == g[y + 1][x + 1]
  }

  function BlocksInRow(g: Grid, y: nat, n: nat): nat
    requires Square(g, |g|) && y + 1 < |g| && n < |g|
  {
    if n == 0 then 0 else BlocksInRow(g, y, n - 1) + (if Uniform(g, n - 1, y) then 1 else 0)
  }

  function Blocks(g: Grid, n: nat): nat
    requires Square(g, |g|) && n < |g|
  {
    if n == 0 then 0 else Blocks(g, n - 1) + BlocksInRow(g, n - 1, |g| - 1)
  }

  function DarkIn(line: Line): nat {
    if line == [] then 0 else DarkIn(line[..|line| - 1]) + (if line[|line| - 1] then 1 else 0)
  }

  function Dark(g: Grid, n: nat): nat
    requires n <= |g|
  {
    if n == 0 then 0 else Dark(g, n - 1) + DarkIn(g[n - 1])
  }

  function Score(g: Grid): int
    requires Square(g, |g|) && |g| > 0
  {
    Scores(g, |g|) + Scores(Columns(g), |g|) + PENALTY_N2 * Blocks(g, |g| - 1)
    + PENALTY_N4 * GridBalance(g)
  }

  // The balance term of a grid (spelled out by GridBalanceIs).
  function GridBalance(g: Grid): int
    requires Square(g, |g|) && |g| > 0
  {
    GridBalanceAt(g, |g|)
  }

  // The depth plays no part: it keeps proofs that only pass the number on from looking inside.
  function GridBalanceAt(g: Grid, depth: nat): int
    requires Square(g, |g|) && |g| > 0
    decreases depth
  {
    if depth > 0 then GridBalanceAt(g, depth - 1) else Balance(Dark(g, |g|), |g| * |g|)
  }

  lemma {:induction false} GridBalanceAtIs(g: Grid, depth: nat)
    requires Square(g, |g|) && |g| > 0
    ensures GridBalanceAt(g, depth) == Balance(Dark(g, |g|), |g| * |g|)
    decreases depth
  {
    if depth > 0 {
      GridBalanceAtIs(g, depth - 1);
    }
  }

  lemma {:induction false} GridBalanceIs(g: Grid)
    requires Square(g, |g|) && |g| > 0
    ensures GridBalance(g) == Balance(Dark(g, |g|), |g| * |g|)
  {
    GridBalanceAtIs(g, |g|);
  }

  // ---- the score is bounded ----

  // Two finder-like patterns cannot end with consecutive light runs.
  lemma {:induction false} NoTwoPatterns(s: seq<nat>, t: nat)
    requires t + 2 < |s|
    ensures PatternsAt(s, t) == 0 || PatternsAt(s, t + 2) == 0
  {
  }

  lemma {:induction false} PatternsAtPrefix(s: seq<nat>, n: nat, t: nat)
    requires t < n <= |s|
    ensures PatternsAt(s[..n], t) == PatternsAt(s, t)
  {
  }

  lemma {:induction false} PatternsBound(s: seq<nat>)
    requires |s| % 2 == 1
    ensures Patterns(s) <= (|s| + 1) / 2 + (if PatternsAt(s, |s| - 1) > 0 then 1 else 0)
  {
    var t := |s| - 1;
    if t >= 2 {
      assert s[..t][..t - 1] == s[..t - 1];
      PatternsBound(s[..t - 1]);
      PatternsAtPrefix(s, t - 1, t - 2);
      NoTwoPatterns(s, t - 2);
      assert Patterns(s[..t]) == Patterns(s[..t - 1]);
    }
  }

  lemma {:induction false} ProperLength(r: seq<nat>)
    requires Proper(r)
    ensures |r| <= Total(r) + 1
  {
    if |r| > 1 {
      ProperLength(r[..|r| - 1]);
    }
  }

  lemma {:induction false} LineScoreBound(line: Line)
    requires |line| <= 177
    ensures LineScore(line) <= 177 + 40 * 91
  {
    var r := Runs(line);
    RunsRender(line);
    RunsTotal(line);
    RunsCostBound(r);
    ProperLength(r);
    PatternsBound(Padded(r, |line|));
  }

  lemma {:induction false} ScoresPush(lines: seq<Line>, n: nat, before: nat, last: nat)
    requires 0 < n <= |lines| && Scores(lines, n - 1) <= before && LineScore(lines[n - 1]) <= last
    ensures Scores(lines, n) <= before + last
  {
  }

  // Lines that score at most 3817 each.
  predicate Moderate(lines: seq<Line>, n: nat)
    requires n <= |lines|
  {
    n == 0 || (Moderate(lines, n - 1) && LineScore(lines[n - 1]) <= 3817)
  }

  lemma {:induction false} AllModerate(lines: seq<Line>, n: nat)
    requires n <= |lines| && forall i :: 0 <= i < n ==> |lines[i]| <= 177
    ensures Moderate(lines, n)
  {
    if n > 0 {
      AllModerate(lines, n - 1);
      LineScoreBound(lines[n - 1]);
    }
  }

  lemma {:induction false} ScoresBound(lines: seq<Line>, n: nat)
    requires n <= |lines| && Moderate(lines, n)
    ensures Scores(lines, n) <= 3817 * n
  {
    if n > 0 {
      ScoresBound(lines, n - 1);
      ScoresPush(lines, n, 3817 * (n - 1), 3817);
    }
  }

  lemma {:induction false} DarkBound(g: Grid, n: nat)
    requires Square(g, |g|) && n <= |g|
    ensures Dark(g, n) <= n * |g|
  {
    if n > 0 {
      DarkBound(g, n - 1);
      DarkInBound(g[n - 1]);
      assert n * |g| == (n - 1) * |g| + |g|;
    }
  }

  lemma {:induction false} DarkInBound(line: Line)
    ensures DarkIn(line) <= |line|
  {
    if line != [] {
      DarkInBound(line[..|line| - 1]);
    }
  }

  lemma {:induction false} BlocksInRowBound(g: Grid, y: nat, n: nat)
    requires Square(g, |g|) && y + 1 < |g| && n < |g|
    ensures BlocksInRow(g, y, n) <= n
  {
    if n > 0 {
      BlocksInRowBound(g, y, n - 1);
    }
  }

  lemma {:induction false} BlocksBound(g: Grid, n: nat)
    requires Square(g, |g|) && n < |g| <= 177
    ensures Blocks(g, n) <= 176 * n
  {
    if n > 0 {
      BlocksBound(g, n - 1);
      BlocksInRowBound(g, n - 1, |g| - 1);
    }
  }

  lemma {:induction false} OddSquare(n: nat)
    requires n % 2 == 1
    ensures (n * n) % 2 == 1
  {
    var m := n / 2;
    assert n == 2 * m + 1;
    assert n * n == 2 * (m * n) + n;
  }

  lemma {:induction false} GridBalanceBound(g: Grid)
    requires Square(g, |g|) && |g| % 2 == 1
    ensures 0 <= Balance(Dark(g, |g|), |g| * |g|) <= 9
  {
    OddSquare(|g|);
    DarkBound(g, |g|);
    BalanceIsLeast(Dark(g, |g|), |g| * |g|, 0);
  }

  lemma {:induction false} GridBalanceFits(g: Grid)
    requires Square(g, |g|) && |g| % 2 == 1
    ensures 0 <= GridBalance(g) <= 9
  {
    GridBalanceIs(g);
    GridBalanceBound(g);
  }

  /** Both assertions of getPenaltyScore hold for every symbol size: this one and that of
      GridBalanceFits. */
  lemma {:induction false} ScoreBound(g: Grid)
    requires Square(g, |g|) && |g| % 2 == 1 && |g| <= 177
    ensures 0 <= Score(g) <= 2568888
  {
    GridBalanceFits(g);
    AllBlocksBound(g);
    LinesBound(g);
    LinesBound(Columns(g));
    TermsBound(Scores(g, |g|), Scores(Columns(g), |g|), Blocks(g, |g| - 1), GridBalance(g));
  }

  lemma {:induction false} AllBlocksBound(g: Grid)
    requires Square(g, |g|) && 0 < |g| <= 177
    ensures Blocks(g, |g| - 1) <= 30976
  {
    BlocksBound(g, |g| - 1);
  }

  lemma {:induction false} TermsBound(rows: nat, columns: nat, blocks: nat, balance: nat)
    requires rows <= 675609 && columns <= 675609 && blocks <= 30976 && balance <= 9
    ensures rows + columns + PENALTY_N2 * blocks + PENALTY_N4 * balance <= 2568888
  {
  }

  lemma {:induction false} LinesBound(g: Grid)
    requires Square(g, |g|) && |g| <= 177
    ensures Scores(g, |g|) <= 675609
  {
    AllModerate(g, |g|);
    ScoresBound(g, |g|);
  }

  /** getPenaltyScore. Its assertions cannot fail, so it always returns the score. */
  method GetPenaltyScore(modules: Grid) returns (result: int)
    requires Square(modules, |modules|) && |modules| % 2 == 1 && |modules| <= 177
    ensures result == Score(modules)
    ensures 0 <= result <= 2568888
  {
    var rows := ScanLines(modules);
    var columns := ScanLines(Columns(modules));
    var blocks := CountBlocks(modules);
    var k := MeasureBalance(modules);
    result := rows + columns + blocks * PENALTY_N2 + k * PENALTY_N4;
    ScoreBound(modules);
  }

  // The loops over rows and over columns, which differ only in the lines they read.
  method ScanLines(lines: seq<Line>) returns (result: nat)
    requires forall i :: 0 <= i < |lines| ==> |lines[i]| > 0
    ensures result == Scores(lines, |lines|)
  {
    result := 0;
    for i := 0 to |lines|
      invariant result == Scores(lines, i)
    {
      var line := ScanLine(lines[i]);
      result := result + line;
    }
  }

  // Counting the dark modules and rating their share.
  method MeasureBalance(modules: Grid) returns (k: int)
    requires Square(modules, |modules|) && |modules| > 0
    ensures k == GridBalance(modules)
  {
    GridBalanceIs(modules);
    var dark := 0;
    for y := 0 to |modules|
      invariant dark == Dark(modules, y)
    {
      dark := dark + DarkIn(modules[y]);
    }
    var total := |modules| * |modules|;
    k := CeilDiv(Abs(dark * 20 - total * 10), total) - 1;
  }

  // The loop over 2*2 blocks.
  method CountBlocks(modules: Grid) returns (blocks: nat)
    requires Square(modules, |modules|) && |modules| > 0
    ensures blocks == Blocks(modules, |modules| - 1)
  {
    blocks := 0;
    for y := 0 to |modules| - 1
      invariant blocks == Blocks(modules, y)
    {
      for x := 0 to |modules| - 1
        invariant blocks == Blocks(modules, y) + BlocksInRow(modules, y, x)
      {
        var color := modules[y][x];
        if color == modules[y][x + 1] && color == modules[y + 1][x] && color == modules[y + 1][x + 1] {
          blocks := blocks + 1;
        }
      }
    }
  }
}
