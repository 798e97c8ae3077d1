/** There is room for all codewords: the free modules of every version are at least the raw data
    modules that getNumRawDataModules counts (frontend/js/qrcodegen.js), so the assertion at the
    end of drawCodewords never fails. */
module Rooms {
  import opened FormatInfo
  import opened Grids
  import opened Patterns
  import opened Symbols
  import opened Tables
  import opened Zigzag
  import Versions

  // ---- counting writes ----

  // Row 6 and column 6 belong to the timing patterns.
  predicate IsOff(c: Cell) {
    c.x != 6 && c.y != 6
  }

  // How many of the writes are off those two lines.
  function OffCount(ws: seq<Write>): (n: nat)
    ensures n <= |ws|
  {
    if ws == [] then 0 else OffCount(ws[..|ws| - 1]) + (if IsOff(ws[|ws| - 1].cell) then 1 else 0)
  }

  lemma {:induction false} OffPush(ws: seq<Write>, w: Write)
    ensures OffCount(ws + [w]) == OffCount(ws) + (if IsOff(w.cell) then 1 else 0)
  {
    assert (ws + [w])[..|ws|] == ws;
  }

  lemma {:induction false} OffAppend(a: seq<Write>, b: seq<Write>)
    ensures OffCount(a + b) == OffCount(a) + OffCount(b)
    decreases |b|
  {
    if b == [] {
      assert a + b == a;
    } else {
      var c, w := b[..|b| - 1], b[|b| - 1];
      assert a + b == (a + c) + [w];
      OffAppend(a, c);
      OffPush(a + c, w);
    }
  }

  // Bounds add up.
  lemma {:induction false} OffSum(ws: seq<Write>, a: seq<Write>, b: seq<Write>, m: nat, n: nat)
    requires ws == a + b && OffCount(a) <= m && OffCount(b) <= n
    ensures OffCount(ws) <= m + n
  {
    OffAppend(a, b);
  }

  // ---- timing ----

  lemma {:induction false} TimingOff(d: Side, n: nat)
    requires 7 <= d.length && n <= d.length
    ensures OffCount(Timing(d, n)) == 0
  {
    if n > 0 {
      var front := Timing(d, n - 1);
      TimingOff(d, n - 1);
      OffPush(front, Write(Cell(6, n - 1), (n - 1) % 2 == 0));
      OffPush(front + [Write(Cell(6, n - 1), (n - 1) % 2 == 0)], Write(Cell(n - 1, 6), (n - 1) % 2 == 0));
    }
  }

  // ---- finder patterns ----

  // How many of the first n of the nine positions around x are inside and off line 6.
  function Wide(d: Side, x: int, n: nat): nat {
    if n == 0 then 0
    else Wide(d, x, n - 1) + (if 0 <= x + n - 5 < d.length && x + n - 5 != 6 then 1 else 0)
  }

  lemma {:induction false} FinderRowOff(d: Side, x: int, y: int, dy: int, n: nat)
    requires n <= 9
    ensures OffCount(FinderRow(d, x, y, dy, n)) == if 0 <= y + dy < d.length && y + dy != 6 then Wide(d, x, n) else 0
  {
    if n > 0 {
      FinderRowOff(d, x, y, dy, n - 1);
      var xx, yy := x + n - 5, y + dy;
      var front := FinderRow(d, x, y, dy, n - 1);
      if 0 <= xx < d.length && 0 <= yy < d.length {
        OffPush(front, Write(Cell(xx, yy), Dist(n - 5, dy) != 2 && Dist(n - 5, dy) != 4));
      } else {
        assert front + [] == front;
      }
    }
  }

  // The sum over the first n rows, each of width w.
  function Area(d: Side, y: int, n: nat, w: nat): nat {
    if n == 0 then 0
    else Area(d, y, n - 1, w) + (if 0 <= y + n - 5 < d.length && y + n - 5 != 6 then w else 0)
  }

  lemma {:induction false} AreaIs(d: Side, y: int, n: nat, w: nat)
    ensures Area(d, y, n, w) == Wide(d, y, n) * w
  {
    if n > 0 {
      AreaIs(d, y, n - 1, w);
      Distribute(Wide(d, y, n - 1), w);
    }
  }

  lemma {:induction false} Distribute(a: nat, b: nat)
    ensures (a + 1) * b == a * b + b
  {
  }

  lemma {:induction false} RowOff(d: Side, x: int, y: int, dy: int, w: nat)
    requires Wide(d, x, 9) == w
    ensures OffCount(FinderRow(d, x, y, dy, 9)) == if 0 <= y + dy < d.length && y + dy != 6 then w else 0
  {
    FinderRowOff(d, x, y, dy, 9);
  }

  lemma {:induction false} FinderOff(d: Side, x: int, y: int, n: nat, w: nat)
    requires n <= 9 && Wide(d, x, 9) == w
    ensures OffCount(Finder(d, x, y, n)) <= Area(d, y, n, w)
  {
    if n > 0 {
      FinderOff(d, x, y, n - 1, w);
      RowOff(d, x, y, n - 5, w);
      OffSum(Finder(d, x, y, n), Finder(d, x, y, n - 1), FinderRow(d, x, y, n - 5, 9),
             Area(d, y, n - 1, w), if 0 <= y + n - 5 < d.length && y + n - 5 != 6 then w else 0);
    }
  }

  // Near the left or upper edge the border is cut off; so it is at the other one.
  lemma {:induction false} NearEdge(d: Side, n: nat)
    requires d.length >= 21 && n <= 9
    ensures Wide(d, 3, n) == if n <= 1 then 0 else if n <= 7 then n - 1 else n - 2
  {
    if n > 0 {
      NearEdge(d, n - 1);
    }
  }

  lemma {:induction false} FarEdge(d: Side, n: nat)
    requires d.length >= 21 && n <= 9
    ensures Wide(d, d.length - 4, n) == if n <= 8 then n else 8
  {
    if n > 0 {
      FarEdge(d, n - 1);
    }
  }

  lemma {:induction false} WholeFinderOff(d: Side, x: int, y: int, w: nat, h: nat)
    requires w == Wide(d, x, 9) && h == Wide(d, y, 9)
    ensures OffCount(WholeFinder(d, x, y)) <= h * w
  {
    WholeFinderIs(d, x, y);
    FinderOff(d, x, y, 9, w);
    AreaIs(d, y, 9, w);
  }

  lemma {:induction false} ThreeOff(a: seq<Write>, b: seq<Write>, c: seq<Write>)
    ensures OffCount(a + b + c) == OffCount(a) + OffCount(b) + OffCount(c)
  {
    OffAppend(a, b);
    OffAppend(a + b, c);
  }

  lemma {:induction false} FindersOff(d: Side)
    requires d.length >= 21
    ensures OffCount(Finders(d)) <= 161
  {
    NearEdge(d, 9);
    FarEdge(d, 9);
    WholeFinderOff(d, 3, 3, 7, 7);
    WholeFinderOff(d, d.length - 4, 3, 8, 7);
    WholeFinderOff(d, 3, d.length - 4, 7, 8);
    ThreeOff(WholeFinder(d, 3, 3), WholeFinder(d, d.length - 4, 3), WholeFinder(d, 3, d.length - 4));
  }

  // ---- alignment patterns ----

  lemma {:induction false} AlignmentRowOff(d: Side, x: nat, y: nat, dy: int, n: nat)
    requires 2 <= x < d.length - 2 && 2 <= y < d.length - 2 && -2 <= dy <= 2 && n <= 5
    ensures OffCount(AlignmentRow(d, x, y, dy, n)) <= if y + dy == 6 then 0 else if x == 6 && n >= 3 then n - 1 else n
  {
    if n > 0 {
      AlignmentRowOff(d, x, y, dy, n - 1);
      OffPush(AlignmentRow(d, x, y, dy, n - 1), Write(Cell(x + n - 3, y + dy), Dist(n - 3, dy) != 1));
    }
  }

  lemma {:induction false} AlignmentOff(d: Side, x: nat, y: nat, n: nat)
    requires 2 <= x < d.length - 2 && 2 <= y < d.length - 2 && n <= 5
    ensures OffCount(Alignment(d, x, y, n)) <= if x == 6 then 4 * n else if y == 6 && n >= 3 then 5 * (n - 1) else 5 * n
  {
    if n > 0 {
      AlignmentOff(d, x, y, n - 1);
      AlignmentRowOff(d, x, y, n - 3, 5);
      OffAppend(Alignment(d, x, y, n - 1), AlignmentRow(d, x, y, n - 3, 5));
    }
  }

  // At most this many writes off the lines for one pattern, which may stand on a timing line.
  function PatternBound(isCorner: bool, onLine: bool): nat {
    if isCorner then 0 else if onLine then 20 else 25
  }

  lemma {:induction false} UnlessOff(d: Side, x: nat, y: nat, isCorner: bool, onLine: bool)
    requires 2 <= x < d.length - 2 && 2 <= y < d.length - 2 && (onLine ==> x == 6 || y == 6)
    ensures OffCount(AlignmentUnless(d, x, y, isCorner)) <= PatternBound(isCorner, onLine)
  {
    AlignmentOff(d, x, y, 5);
  }

  // At most this many writes off the lines for the first n patterns with x position i of k.
  function RowBound(k: nat, i: nat, n: nat): nat {
    if n == 0 then 0
    else RowBound(k, i, n - 1) + PatternBound(IsFinderCorner(i, n - 1, k), i == 0 || n == 1)
  }

  function AllBound(k: nat, n: nat): nat {
    if n == 0 then 0 else AllBound(k, n - 1) + RowBound(k, n - 1, k)
  }

  lemma {:induction false} NextOff(d: Side, pos: seq<nat>, i: nat, n: nat)
    requires Placeable(d.length, pos) && i < |pos| && n < |pos| && pos[0] == 6
    requires OffCount(AlignmentsAt(d, pos, i, n)) <= RowBound(|pos|, i, n)
    ensures OffCount(AlignmentsAt(d, pos, i, n + 1)) <= RowBound(|pos|, i, n + 1)
  {
    var isCorner, onLine := IsFinderCorner(i, n, |pos|), i == 0 || n == 0;
    var front, last := AlignmentsAt(d, pos, i, n), AlignmentUnless(d, pos[i], pos[n], isCorner);
    assert AlignmentsAt(d, pos, i, n + 1) == front + last;
    UnlessOff(d, pos[i], pos[n], isCorner, onLine);
    OffSum(front + last, front, last, RowBound(|pos|, i, n), PatternBound(isCorner, onLine));
  }

  lemma {:induction false} AlignmentsAtOff(d: Side, pos: seq<nat>, i: nat, n: nat)
    requires Placeable(d.length, pos) && i < |pos| && n <= |pos| && pos[0] == 6
    ensures OffCount(AlignmentsAt(d, pos, i, n)) <= RowBound(|pos|, i, n)
  {
    if n > 0 {
      var m := n - 1;
      AlignmentsAtOff(d, pos, i, m);
      NextOff(d, pos, i, m);
      assert n == m + 1;
    }
  }

  lemma {:induction false} NoRowOff(d: Side, pos: seq<nat>)
    requires Placeable(d.length, pos)
    ensures OffCount(Alignments(d, pos, 0)) <= AllBound(|pos|, 0)
  {
  }

  lemma {:induction false} NextBound(k: nat, n: nat)
    ensures AllBound(k, n + 1) == AllBound(k, n) + RowBound(k, n, k)
  {
  }

  lemma {:induction false} NextRowOff(d: Side, pos: seq<nat>, n: nat)
    requires Placeable(d.length, pos) && n < |pos| && pos[0] == 6
    requires OffCount(Alignments(d, pos, n)) <= AllBound(|pos|, n)
    ensures OffCount(Alignments(d, pos, n + 1)) <= AllBound(|pos|, n + 1)
  {
    var k := |pos|;
    OneMoreRow(d, pos, n);
    AlignmentsAtOff(d, pos, n, k);
    NextBound(k, n);
    OffSum(Alignments(d, pos, n + 1), Alignments(d, pos, n), AlignmentsAt(d, pos, n, k), AllBound(k, n), RowBound(k, n, k));
  }

  lemma {:induction false} AlignmentsOff(d: Side, pos: seq<nat>, n: nat)
    requires Placeable(d.length, pos) && n <= |pos| && (pos != [] ==> pos[0] == 6)
    ensures OffCount(Alignments(d, pos, n)) <= AllBound(|pos|, n)
  {
    if n == 0 {
      NoRowOff(d, pos);
    } else {
      var m := n - 1;
      AlignmentsOff(d, pos, m);
      NextRowOff(d, pos, m);
      assert n == m + 1;
    }
  }

  // The first row lacks two patterns, the last one one; the first of each row overlaps column 6.
  lemma {:induction false} RowBoundIs(k: nat, i: nat, n: nat)
    requires k >= 2 && i < k && n <= k
    ensures RowBound(k, i, n) ==
            if n == 0 then 0
            else if i == 0 then 20 * (if n == k then k - 2 else n - 1)
            else (if i == k - 1 then 0 else 20) + 25 * (n - 1)
  {
    if n > 0 {
      RowBoundIs(k, i, n - 1);
    }
  }

  lemma {:induction false} AllBoundIs(k: nat, n: nat)
    requires k >= 2 && n <= k
    ensures AllBound(k, n) ==
            if n == 0 then 0
            else 20 * (k - 2) + (n - 1) * (20 + 25 * (k - 1)) - (if n == k then 20 else 0)
  {
    if n > 0 {
      AllBoundIs(k, n - 1);
      RowBoundIs(k, n - 1, k);
      if n > 1 {
        assert (n - 1) * (20 + 25 * (k - 1)) == (n - 2) * (20 + 25 * (k - 1)) + (20 + 25 * (k - 1));
      }
    }
  }

  // The term of getNumRawDataModules for k alignment positions.
  function ForAlignments(k: nat): int {
    (25 * k - 10) * k - 55
  }

  lemma {:induction false} AlignmentSum(k: nat)
    requires k >= 2
    ensures AllBound(k, k) == ForAlignments(k)
  {
    var m := k - 1;
    AllBoundIs(k, k);
    assert m * (20 + 25 * m) == 20 * m + 25 * (m * m);
    assert k * k == m * m + 2 * m + 1;
    assert (25 * k - 10) * k == 25 * (k * k) - 10 * k;
  }

  function AlignmentModules(version: nat): int {
    if version >= 2 then ForAlignments(NumAlign(version)) else 0
  }

  lemma {:induction false} PositionsOff(d: Side, pos: seq<nat>, k: nat)
    requires Placeable(d.length, pos) && |pos| == k >= 2 && pos[0] == 6
    ensures OffCount(Alignments(d, pos, k)) <= ForAlignments(k)
  {
    AlignmentsOff(d, pos, k);
    AlignmentSum(k);
  }

  lemma {:induction false} PositionsStart(version: nat)
    requires IsVersion(version) && version >= 2
    ensures |AlignmentPositions(version)| == NumAlign(version) >= 2 && AlignmentPositions(version)[0] == 6
  {
  }

  lemma {:induction false} AllAlignmentsOff(version: nat)
    requires IsVersion(version)
    ensures OffCount(AllAlignments(version)) <= AlignmentModules(version)
  {
    AllAlignmentsAre(version, SizeOf(version));
    if version == 1 {
      assert AllAlignments(version) == [];
    } else {
      PositionsStart(version);
      PositionsOff(Side(SizeOf(version)), AlignmentPositions(version), NumAlign(version));
    }
  }

  // ---- all patterns ----

  lemma {:induction false} VersionOff(version: nat)
    requires IsVersion(version)
    ensures OffCount(VersionPart(version)) <= if version >= 7 then 36 else 0
  {
    if version >= 7 {
      Versions.InfoWrite(Side(SizeOf(version)), VersionWord(version), 18, 0, 0);
    }
  }

  lemma {:induction false} PatternsOff(version: nat, ecl: EccLevel)
    requires IsVersion(version)
    ensures OffCount(FunctionPatterns(version, ecl))
         <= 161 + AlignmentModules(version) + 31 + (if version >= 7 then 36 else 0)
  {
    var s := SizeOf(version);
    var t, f, a, m, v := Timing(Side(s), s), Finders(Side(s)), AllAlignments(version), FormatPart(Side(s), ecl, 0), VersionPart(version);
    FunctionPatternsAre(version, ecl, s);
    TimingOff(Side(s), s);
    FindersOff(Side(s));
    AllAlignmentsOff(version);
    FormatPartIs(Side(s), ecl, 0);
    VersionOff(version);
    OffAppend(t, f);
    OffAppend(t + f, a);
    OffAppend(t + f + a, m);
    OffAppend(t + f + a + m, v);
  }

  // ---- counting modules ----

  // The modules of the path that are function modules.
  function Marked(f: Grid, path: seq<Cell>): set<Cell>
    requires Square(f, |f|) && AllIn(path, |f|)
  {
    if path == [] then {}
    else Marked(f, path[..|path| - 1]) + (if At(f, path[|path| - 1]) then {path[|path| - 1]} else {})
  }

  lemma {:induction false} MarkedMeans(f: Grid, path: seq<Cell>, c: Cell)
    requires Square(f, |f|) && AllIn(path, |f|) && c in Marked(f, path)
    ensures c in path && Inside(c, |f|) && At(f, c)
  {
    if c in Marked(f, path[..|path| - 1]) {
      MarkedMeans(f, path[..|path| - 1], c);
    }
  }

  lemma {:induction false} MarkedAmong(f: Grid, path: seq<Cell>, c: Cell)
    requires Square(f, |f|) && AllIn(path, |f|) && c !in path
    ensures c !in Marked(f, path)
  {
    if path != [] {
      assert c !in path[..|path| - 1] && c != path[|path| - 1];
      MarkedAmong(f, path[..|path| - 1], c);
    }
  }

  lemma {:induction false} LastIsNew(path: seq<Cell>)
    requires Distinct(path) && path != []
    ensures path[|path| - 1] !in path[..|path| - 1]
  {
    var n := |path| - 1;
    forall i | 0 <= i < n ensures path[..n][i] != path[n] {
      assert path[i] != path[n];
    }
  }

  lemma {:induction false} FreeAndMarked(f: Grid, path: seq<Cell>)
    requires Square(f, |f|) && AllIn(path, |f|) && Distinct(path)
    ensures Free(f, path) + |Marked(f, path)| == |path|
  {
    if path != [] {
      var n := |path| - 1;
      FreeAndMarked(f, path[..n]);
      LastIsNew(path);
      MarkedAmong(f, path[..n], path[n]);
    }
  }

  // Row 6 up to column n, but for column 6.
  function Row6(n: nat): set<Cell> {
    if n == 0 then {} else Row6(n - 1) + (if n - 1 == 6 then {} else {Cell(n - 1, 6)})
  }

  lemma {:induction false} Row6Means(n: nat)
    ensures forall c: Cell :: c in Row6(n) <==> c.y == 6 && c.x < n && c.x != 6
  {
    if n > 0 {
      Row6Means(n - 1);
    }
  }

  lemma {:induction false} Row6Few(n: nat)
    ensures |Row6(n)| <= if n > 6 then n - 1 else n
  {
    if n > 0 {
      Row6Few(n - 1);
    }
  }

  // The cells of the writes off the lines.
  function OffCells(ws: seq<Write>): set<Cell> {
    if ws == [] then {}
    else OffCells(ws[..|ws| - 1]) + (if IsOff(ws[|ws| - 1].cell) then {ws[|ws| - 1].cell} else {})
  }

  lemma {:induction false} OffCellsFew(ws: seq<Write>)
    ensures |OffCells(ws)| <= OffCount(ws)
  {
    if ws != [] {
      OffCellsFew(ws[..|ws| - 1]);
    }
  }

  lemma {:induction false} CoveredIsOff(ws: seq<Write>, c: Cell)
    requires Covers(ws, c) && IsOff(c)
    ensures c in OffCells(ws)
  {
    var k :| 0 <= k < |ws| && ws[k].cell == c;
    if k < |ws| - 1 {
      assert ws[..|ws| - 1][k].cell == c;
      CoveredIsOff(ws[..|ws| - 1], c);
    }
  }

  lemma {:induction false} SubsetSize<T>(a: set<T>, b: set<T>)
    requires a <= b
    ensures |a| <= |b|
  {
    assert b == a + (b - a);
  }

  lemma {:induction false} MarkedFew(s: nat, ws: seq<Write>, path: seq<Cell>)
    requires s > 6 && AllInside(ws, s) && AllIn(path, s) && forall c :: c in path ==> c.x != 6
    ensures |Marked(Apply(Blank(s), Marks(ws)), path)| <= s - 1 + OffCount(ws)
  {
    var f := Apply(Blank(s), Marks(ws));
    var marked, row, off := Marked(f, path), Row6(s), OffCells(ws);
    Row6Means(s);
    Row6Few(s);
    OffCellsFew(ws);
    forall c | c in marked ensures c in row + off {
      MarkedMeans(f, path, c);
      ApplyMarks(Blank(s), ws, c);
      if c.y != 6 {
        CoveredIsOff(ws, c);
      }
    }
    SubsetSize(marked, row + off);
  }

  // ---- the length of the scan ----

  lemma {:induction false} ColumnPairLength(d: Side, right: nat, n: nat)
    requires 1 <= right < d.length && n <= d.length
    ensures |ColumnPair(d, right, n)| == 2 * n
  {
    if n > 0 {
      ColumnPairLength(d, right, n - 1);
    }
  }

  lemma {:induction false} NextPairLength(d: Side, p: nat)
    requires SymbolSize(d.length) && p < d.length / 2
    ensures |Pairs(d, p + 1)| == |Pairs(d, p)| + 2 * d.length
  {
    var right := RightOf(d.length, p);
    WholePairIs(d, right);
    ColumnPairLength(d, right, d.length);
  }

  lemma {:induction false} PairsLength(d: Side, p: nat)
    requires SymbolSize(d.length) && p <= d.length / 2
    ensures |Pairs(d, p)| == p * (2 * d.length)
  {
    if p > 0 {
      var q := p - 1;
      PairsLength(d, q);
      NextPairLength(d, q);
      OneMore(q, 2 * d.length);
      assert p == q + 1;
    }
  }

  lemma {:induction false} OneMore(q: nat, n: nat)
    ensures (q + 1) * n == q * n + n
  {
  }

  lemma {:induction false} Halves(version: nat)
    requires IsVersion(version)
    ensures SizeOf(version) / 2 == 2 * version + 8 && 2 * SizeOf(version) == 8 * version + 34
  {
  }

  lemma {:induction false} PathLength(version: nat)
    requires IsVersion(version)
    ensures |Path(Side(SizeOf(version)))| == (2 * version + 8) * (8 * version + 34)
  {
    PathIs(SizeOf(version));
    PairsLength(Side(SizeOf(version)), SizeOf(version) / 2);
    Halves(version);
  }

  // ---- room ----

  lemma {:induction false} RawSum(v: nat)
    ensures (2 * v + 8) * (8 * v + 34) - (4 * v + 16) - 192 == (16 * v + 128) * v + 64
  {
    assert (2 * v + 8) * (8 * v + 34) == 16 * (v * v) + 132 * v + 272;
    assert (16 * v + 128) * v == 16 * (v * v) + 128 * v;
  }

  /** In every version the free modules on the scan are at least as many as the raw data modules. */
  lemma {:induction false} RoomForAll(version: nat)
    requires IsVersion(version)
    ensures Free(LayoutOf(version).f, LayoutOf(version).path) >= RawDataModules(version)
  {
    var s, l, ws := SizeOf(version), LayoutOf(version), FunctionPatterns(version, Low);
    LayoutIs(version, Low);
    LayoutPath(version);
    LayoutDistinct(version);
    FreeAndMarked(l.f, l.path);
    PathVisitsOnce(s);
    MarkedFew(s, ws, l.path);
    PatternsOff(version, Low);
    PathLength(version);
    RawSum(version);
  }

  /** So all codewords have room. */
  lemma {:induction false} RoomForCodewords(version: nat)
    requires IsVersion(version)
    ensures Free(LayoutOf(version).f, LayoutOf(version).path) >= 8 * RawCodewords(version)
  {
    RoomForAll(version);
    RawCodewordsAre(version, SizeOf(version));
    RawDataBounds(version);
  }
}
