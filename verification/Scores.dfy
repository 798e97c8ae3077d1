/** What the penalty score measures (section 7.8.3 of ISO/IEC 18004:2015; frontend/js/qrcodegen.js,
    getPenaltyScore), said without the loops that compute it: rows and columns count alike, and
    blocks and dark modules are counted as sets. */
module Scores {
  import opened Grids
  import opened Penalty

  // ---- counting by sets ----

  // All four modules of the 2*2 block at (x, y) have the colour of the first.
  ghost predicate OneColour(g: Grid, x: nat, y: nat)
    requires Square(g, |g|) && x + 1 < |g| && y + 1 < |g|
  {
    forall c: Cell :: x <= c.x <= x + 1 && y <= c.y <= y + 1 ==> At(g, c) == At(g, Cell(x, y))
  }

  lemma {:induction false} OneColourIs(g: Grid, x: nat, y: nat)
    requires Square(g, |g|) && x + 1 < |g| && y + 1 < |g|
    ensures OneColour(g, x, y) <==> Uniform(g, x, y)
  {
    if OneColour(g, x, y) {
      assert At(g, Cell(x + 1, y)) == At(g, Cell(x, y + 1)) == At(g, Cell(x + 1, y + 1)) == At(g, Cell(x, y));
    }
  }

  ghost function UniformRow(g: Grid, y: nat, n: nat): set<Cell>
    requires Square(g, |g|) && y + 1 < |g| && n < |g|
  {
    set x | 0 <= x < n && OneColour(g, x, y) :: Cell(x, y)
  }

  // The top left corners of the 2*2 blocks of one colour, in the first n rows.
  ghost function UniformBlocks(g: Grid, n: nat): set<Cell>
    requires Square(g, |g|) && n < |g|
  {
    set x, y | 0 <= y < n && 0 <= x < |g| - 1 && OneColour(g, x, y) :: Cell(x, y)
  }

  lemma {:induction false} UniformRowGrows(g: Grid, y: nat, n: nat)
    requires Square(g, |g|) && y + 1 < |g| && 0 < n < |g|
    ensures |UniformRow(g, y, n)| == |UniformRow(g, y, n - 1)| + (if OneColour(g, n - 1, y) then 1 else 0)
  {
    var last := Cell(n - 1, y);
    assert last !in UniformRow(g, y, n - 1);
    if OneColour(g, n - 1, y) {
      assert UniformRow(g, y, n) == UniformRow(g, y, n - 1) + {last};
    } else {
      assert UniformRow(g, y, n) == UniformRow(g, y, n - 1);
    }
  }

  lemma {:induction false} BlocksInRowCount(g: Grid, y: nat, n: nat)
    requires Square(g, |g|) && y + 1 < |g| && n < |g|
    ensures BlocksInRow(g, y, n) == |UniformRow(g, y, n)|
  {
    if n > 0 {
      BlocksInRowCount(g, y, n - 1);
      OneColourIs(g, n - 1, y);
      UniformRowGrows(g, y, n);
    }
  }

  lemma {:induction false} BlocksSplit(g: Grid, n: nat)
    requires Square(g, |g|) && 0 < n < |g|
    ensures |UniformBlocks(g, n)| == |UniformBlocks(g, n - 1)| + |UniformRow(g, n - 1, |g| - 1)|
  {
    var front, row := UniformBlocks(g, n - 1), UniformRow(g, n - 1, |g| - 1);
    assert UniformBlocks(g, n) == front + row;
    assert front !! row;
  }

  lemma {:induction false} BlocksCount(g: Grid, n: nat)
    requires Square(g, |g|) && n < |g|
    ensures Blocks(g, n) == |UniformBlocks(g, n)|
  {
    if n > 0 {
      BlocksCount(g, n - 1);
      BlocksInRowCount(g, n - 1, |g| - 1);
      BlocksSplit(g, n);
    }
  }

  function DarkRow(g: Grid, y: nat, n: nat): set<Cell>
    requires Square(g, |g|) && y < |g| && n <= |g|
  {
    set x | 0 <= x < n && g[y][x] :: Cell(x, y)
  }

  // The dark modules of the first n rows.
  function DarkModules(g: Grid, n: nat): set<Cell>
    requires Square(g, |g|) && n <= |g|
  {
    set x, y | 0 <= y < n && 0 <= x < |g| && g[y][x] :: Cell(x, y)
  }

  lemma {:induction false} DarkRowCount(g: Grid, y: nat, n: nat)
    requires Square(g, |g|) && y < |g| && n <= |g|
    ensures DarkIn(g[y][..n]) == |DarkRow(g, y, n)|
  {
    if n > 0 {
      DarkRowCount(g, y, n - 1);
      assert g[y][..n][..n - 1] == g[y][..n - 1];
      assert DarkRow(g, y, n) == DarkRow(g, y, n - 1) + (if g[y][n - 1] then {Cell(n - 1, y)} else {});
    }
  }

  lemma {:induction false} DarkSplit(g: Grid, n: nat)
    requires Square(g, |g|) && 0 < n <= |g|
    ensures |DarkModules(g, n)| == |DarkModules(g, n - 1)| + |DarkRow(g, n - 1, |g|)|
  {
    var front, row := DarkModules(g, n - 1), DarkRow(g, n - 1, |g|);
    assert DarkModules(g, n) == front + row;
    assert front !! row;
  }

  lemma {:induction false} DarkCount(g: Grid, n: nat)
    requires Square(g, |g|) && n <= |g|
    ensures Dark(g, n) == |DarkModules(g, n)|
  {
    if n > 0 {
      DarkCount(g, n - 1);
      DarkRowCount(g, n - 1, |g|);
      assert g[n - 1][..|g|] == g[n - 1];
      DarkSplit(g, n);
    }
  }

  // ---- rows and columns count alike ----

  // h is g mirrored at its main diagonal.
  ghost predicate Mirrored(g: Grid, h: Grid) {
    && Square(g, |g|) && Square(h, |g|)
    && forall x, y :: 0 <= x < |g| && 0 <= y < |g| ==> h[x][y] == g[y][x]
  }

  lemma {:induction false} MirroredBack(g: Grid, h: Grid)
    requires Mirrored(g, h)
    ensures Mirrored(h, g)
  {
  }

  lemma {:induction false} ColumnsAre(g: Grid, h: Grid)
    requires Mirrored(g, h)
    ensures Columns(g) == h
  {
    forall c | Inside(c, |g|) ensures At(Columns(g), c) == At(h, c) {
      assert h[c.y][c.x] == g[c.x][c.y];
    }
    SameCells(Columns(g), h);
  }

  function Flip(c: Cell): Cell {
    Cell(c.y, c.x)
  }

  lemma {:induction false} FlippedSize(a: set<Cell>, b: set<Cell>)
    requires forall c :: c in a ==> Flip(c) in b
    requires forall c :: c in b ==> Flip(c) in a
    ensures |a| == |b|
    decreases a
  {
    if a == {} {
      assert forall c :: c !in b by {
        forall c ensures c !in b {
          assert c in b ==> Flip(c) in a;
        }
      }
    } else {
      var c :| c in a;
      forall d | d in a - {c} ensures Flip(d) in b - {Flip(c)} {
        assert Flip(Flip(d)) == d && Flip(Flip(c)) == c;
      }
      forall d | d in b - {Flip(c)} ensures Flip(d) in a - {c} {
        assert Flip(Flip(d)) == d;
      }
      FlippedSize(a - {c}, b - {Flip(c)});
    }
  }

  lemma {:induction false} FlippedBlocks(g: Grid, h: Grid)
    requires Mirrored(g, h) && |g| > 0
    ensures |UniformBlocks(g, |g| - 1)| == |UniformBlocks(h, |g| - 1)|
  {
    forall x, y | 0 <= x < |g| - 1 && 0 <= y < |g| - 1 ensures OneColour(g, x, y) <==> OneColour(h, y, x) {
      OneColourIs(g, x, y);
      OneColourIs(h, y, x);
    }
    FlippedSize(UniformBlocks(g, |g| - 1), UniformBlocks(h, |g| - 1));
  }

  lemma {:induction false} FlippedDark(g: Grid, h: Grid)
    requires Mirrored(g, h)
    ensures |DarkModules(g, |g|)| == |DarkModules(h, |g|)|
  {
    FlippedSize(DarkModules(g, |g|), DarkModules(h, |g|));
  }

  lemma {:induction false} ScoreIs(g: Grid, h: Grid, blocks: nat, dark: nat)
    requires Square(g, |g|) && |g| > 0 && Columns(g) == h && Blocks(g, |g| - 1) == blocks && Dark(g, |g|) == dark
    ensures Square(h, |g|) && Score(g) == Scores(g, |g|) + Scores(h, |g|) + 3 * blocks + 10 * Balance(dark, |g| * |g|)
  {
    GridBalanceIs(g);
  }

  /** The score in its four parts: the lines across, the lines down, 3 for each 2*2 block of one
      colour, and 10 for each step of the share of dark modules away from one half. */
  lemma {:induction false} ScoreParts(g: Grid, h: Grid)
    requires Mirrored(g, h) && |g| > 0
    ensures Score(g) == Scores(g, |g|) + Scores(h, |g|) + 3 * |UniformBlocks(g, |g| - 1)|
                        + 10 * Balance(|DarkModules(g, |g|)|, |g| * |g|)
  {
    ColumnsAre(g, h);
    BlocksCount(g, |g| - 1);
    DarkCount(g, |g|);
    ScoreIs(g, h, |UniformBlocks(g, |g| - 1)|, |DarkModules(g, |g|)|);
  }

  /** A grid and its mirror image at the diagonal have the same score: columns are scored as rows
      are. */
  lemma {:induction false} MirroredScore(g: Grid, h: Grid)
    requires Mirrored(g, h) && |g| > 0
    ensures Score(g) == Score(h)
  {
    ScoreParts(g, h);
    ScoreParts(h, g);
    FlippedBlocks(g, h);
    FlippedDark(g, h);
  }

  // ---- lines ----

  lemma {:induction false} NextScore(a: seq<Line>, b: seq<Line>, n: nat)
    requires n < |a| && Scores(a + b, n) == Scores(a, n)
    ensures Scores(a + b, n + 1) == Scores(a, n + 1)
  {
    assert (a + b)[n] == a[n];
  }

  lemma {:induction false} SameFirst(a: seq<Line>, b: seq<Line>, n: nat)
    requires n <= |a|
    ensures Scores(a + b, n) == Scores(a, n)
  {
    if n > 0 {
      var m := n - 1;
      SameFirst(a, b, m);
      NextScore(a, b, m);
      assert n == m + 1;
    }
  }

  /** The scores of lines add up, each counted once. */
  lemma {:induction false} ScoresAdd(a: seq<Line>, line: Line)
    ensures Scores(a + [line], |a| + 1) == Scores(a, |a|) + LineScore(line)
    ensures Scores([], 0) == 0
  {
    SameFirst(a, [line], |a|);
  }

  lemma {:induction false} SolidRenders(dark: bool, n: nat)
    ensures Render(if dark then [0, n] else [n]) == Repeat(dark, n)
  {
    RenderPush([], if dark then 0 else n);
    assert [] + [n] == [n] && [] + [0] == [0 as nat];
    if dark {
      RenderPush([0], n);
      assert [0] + [n] == [0, n];
    }
  }

  lemma {:induction false} RunsOfSolid(dark: bool, n: nat)
    requires n > 0
    ensures Runs(Repeat(dark, n)) == if dark then [0, n] else [n]
  {
    SolidRenders(dark, n);
    RunsUnique(if dark then [0, n] else [n]);
  }

  /** A line of one colour costs its length less 2, if it is at least 5 long, else nothing. */
  lemma {:induction false} SolidLine(dark: bool, n: nat)
    requires n > 0
    ensures LineScore(Repeat(dark, n)) == if n >= 5 then n - 2 else 0
  {
    RunsOfSolid(dark, n);
    var r := Runs(Repeat(dark, n));
    RunsCostPush([], 0);
    RunsCostPush([], n);
    RunsCostPush([0], n);
    assert [] + [0] == [0 as nat] && [] + [n] == [n] && [0] + [n] == [0, n];
    FewRuns(Padded(r, n));
  }

  lemma {:induction false} FewRuns(s: seq<nat>)
    requires |s| <= 6
    ensures Patterns(s) == 0
  {
    if s != [] {
      FewRuns(s[..|s| - 1]);
    }
  }

  /** Five runs of widths 1 : 1 : 3 : 1 : 1, dark, light, dark, light and dark, count once for each
      side on which the light run is at least 4 wide, if the other is at least 1 wide; all in
      proportion. */
  lemma {:induction false} FinderLike(left: nat, n: nat, right: nat)
    requires n > 0
    ensures Patterns([left, n, n, 3 * n, n, n, right])
         == (if right >= 4 * n && left >= n then 1 else 0) + (if left >= 4 * n && right >= n then 1 else 0)
  {
    var s := [left, n, n, 3 * n, n, n, right];
    FewRuns(s[..6]);
    assert PatternsAt(s, 6) == (if right >= 4 * n && left >= n then 1 else 0) + (if left >= 4 * n && right >= n then 1 else 0);
  }

  /** The line 1011101 costs 80: the border of the symbol counts as light on both sides. */
  lemma {:induction false} FinderAcross()
    ensures LineScore([true, false, true, true, true, false, true]) == 80
  {
    var line := [true, false, true, true, true, false, true];
    RunsAcross(line);
    assert Padded(Runs(line), 7) == [7, 1, 1, 3 * 1, 1, 1, 7];
    FinderLike(7, 1, 7);
    ShortRunsFree(Runs(line));
  }

  lemma {:induction false} RunsBegin(line: Line)
    requires line == [true, false, true, true, true, false, true]
    ensures Runs(line[..4]) == [0, 1, 1, 2]
  {
    assert line[..0] == [];
    RunsStep(line, 0, [0], [0, 1]);
    RunsStep(line, 1, [0, 1], [0, 1, 1]);
    RunsStep(line, 2, [0, 1, 1], [0, 1, 1, 1]);
    RunsStep(line, 3, [0, 1, 1, 1], [0, 1, 1, 2]);
  }

  lemma {:induction false} RunsAcross(line: Line)
    requires line == [true, false, true, true, true, false, true]
    ensures Runs(line) == [0, 1, 1, 3, 1, 1]
  {
    RunsBegin(line);
    RunsStep(line, 4, [0, 1, 1, 2], [0, 1, 1, 3]);
    RunsStep(line, 5, [0, 1, 1, 3], [0, 1, 1, 3, 1]);
    RunsStep(line, 6, [0, 1, 1, 3, 1], [0, 1, 1, 3, 1, 1]);
    assert line[..7] == line;
  }

  lemma {:induction false} RunsStep(line: Line, n: nat, r: seq<nat>, s: seq<nat>)
    requires n < |line| && |r| >= 1 && Runs(line[..n]) == r && s == Extend(r, line[n])
    ensures Runs(line[..n + 1]) == s
  {
    assert line[..n + 1] == line[..n] + [line[n]];
    RunsPush(line[..n], line[n]);
  }

  lemma {:induction false} ShortRunsFree(r: seq<nat>)
    requires forall i :: 0 <= i < |r| ==> r[i] < 5
    ensures RunsCost(r) == 0
  {
    if r != [] {
      ShortRunsFree(r[..|r| - 1]);
    }
  }
}
