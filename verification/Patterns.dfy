/** The function patterns of a symbol, as the lists of modules the source sets in order
    (frontend/js/qrcodegen.js, drawFunctionPatterns, drawFormatBits, drawVersion,
    drawFinderPattern, drawAlignmentPattern, getAlignmentPatternPositions). */
module Patterns {
  import opened Bits
  import opened FormatInfo
  import opened Grids
  import opened Tables
  import opened Zigzag

  function Max(a: int, b: int): int {
    if a < b then b else a
  }

  function Abs(a: int): nat {
    if a < 0 then -a else a
  }

  // Chebyshev distance from the origin.
  function Dist(dx: int, dy: int): nat {
    Max(Abs(dx), Abs(dy))
  }

  // ---- timing ----

  function Timing(d: Side, n: nat): (ws: seq<Write>)
    requires 7 <= d.length && n <= d.length
    ensures AllInside(ws, d.length)
  {
    if n == 0 then []
    else
      var i := n - 1;
      Timing(d, i) + [Write(Cell(6, i), i % 2 == 0)] + [Write(Cell(i, 6), i % 2 == 0)]
  }

  lemma {:induction false} TimingCoversColumn(s: nat, n: nat, y: nat)
    requires 7 <= s && y < n <= s
    ensures Covers(Timing(Side(s), n), Cell(6, y))
  {
    var ws := Timing(Side(s), n);
    if y == n - 1 {
      assert ws[|ws| - 2].cell == Cell(6, y);
    } else {
      TimingCoversColumn(s, n - 1, y);
      var before := Timing(Side(s), n - 1);
      var k :| 0 <= k < |before| && before[k].cell == Cell(6, y);
      assert ws[k].cell == Cell(6, y);
    }
  }

  // ---- finder and alignment patterns, row by row ----

  // The first n modules of one row around (x, y), those outside the symbol left out.
  function FinderRow(d: Side, x: int, y: int, dy: int, n: nat): (ws: seq<Write>)
    requires n <= 9
    ensures AllInside(ws, d.length)
  {
    if n == 0 then []
    else
      var dx := n - 5;
      var xx, yy := x + dx, y + dy;
      FinderRow(d, x, y, dy, n - 1)
      + (if 0 <= xx < d.length && 0 <= yy < d.length then [Write(Cell(xx, yy), Dist(dx, dy) != 2 && Dist(dx, dy) != 4)] else [])
  }

  // The first n rows of the 9*9 square around (x, y).
  function Finder(d: Side, x: int, y: int, n: nat): (ws: seq<Write>)
    requires n <= 9
    ensures AllInside(ws, d.length)
  {
    if n == 0 then [] else Finder(d, x, y, n - 1) + FinderRow(d, x, y, n - 5, 9)
  }

  // All 9 rows (spelled out by WholeFinderIs).
  function WholeFinder(d: Side, x: int, y: int): (ws: seq<Write>)
    ensures AllInside(ws, d.length)
  {
    WholeFinderAt(d, x, y, d.length)
  }

  // The depth plays no part: it keeps proofs that only pass the list on from looking inside.
  function WholeFinderAt(d: Side, x: int, y: int, depth: nat): (ws: seq<Write>)
    ensures AllInside(ws, d.length)
    decreases depth
  {
    if depth > 0 then WholeFinderAt(d, x, y, depth - 1) else Finder(d, x, y, 9)
  }

  lemma {:induction false} WholeFinderAtIs(d: Side, x: int, y: int, depth: nat)
    ensures WholeFinderAt(d, x, y, depth) == Finder(d, x, y, 9)
    decreases depth
  {
    if depth > 0 {
      WholeFinderAtIs(d, x, y, depth - 1);
    }
  }

  lemma {:induction false} WholeFinderIs(d: Side, x: int, y: int)
    ensures WholeFinder(d, x, y) == Finder(d, x, y, 9)
  {
    WholeFinderAtIs(d, x, y, d.length);
  }

  function AlignmentRow(d: Side, x: nat, y: nat, dy: int, n: nat): (ws: seq<Write>)
    requires 2 <= x < d.length - 2 && 2 <= y < d.length - 2 && -2 <= dy <= 2 && n <= 5
    ensures AllInside(ws, d.length)
  {
    if n == 0 then []
    else
      var dx := n - 3;
      AlignmentRow(d, x, y, dy, n - 1) + [Write(Cell(x + dx, y + dy), Dist(dx, dy) != 1)]
  }

  // The first n rows of the 5*5 square around (x, y).
  function Alignment(d: Side, x: nat, y: nat, n: nat): (ws: seq<Write>)
    requires 2 <= x < d.length - 2 && 2 <= y < d.length - 2 && n <= 5
    ensures AllInside(ws, d.length)
  {
    if n == 0 then [] else Alignment(d, x, y, n - 1) + AlignmentRow(d, x, y, n - 3, 5)
  }

  // ---- alignment positions ----

  function Step(version: nat): nat
    requires IsVersion(version)
  {
    if version == 32 then 26
    else
      var d := NumAlign(version) * 2 - 2;
      ((version * 4 + 4 + d - 1) / d) * 2
  }

  // Position i of n, counted down from the far edge in equal steps, except the first.
  function Position(size: nat, n: nat, step: nat, i: nat): (p: nat)
    requires n >= 2 && i < n && (n - 2) * step <= size - 13
    ensures 6 <= p <= Max(6, size - 7)
  {
    if i == 0 then 6
    else
      StepBelow(n - 1 - i, n - 2, step);
      size - 7 - (n - 1 - i) * step
  }

  function AlignmentPositions(version: nat): (p: seq<nat>)
    requires IsVersion(version)
    ensures |p| == if version == 1 then 0 else NumAlign(version)
    ensures forall i :: 0 <= i < |p| ==> 6 <= p[i] <= SizeOf(version) - 7
  {
    if version == 1 then []
    else
      StepsFit(version);
      PositionsOf(SizeOf(version), NumAlign(version), Step(version))
  }

  function PositionsOf(size: nat, n: nat, step: nat): (p: seq<nat>)
    requires n >= 2 && size >= 13 && (n - 2) * step <= size - 13
    ensures |p| == n
    ensures forall i :: 0 <= i < n ==> p[i] == Position(size, n, step, i)
  {
    seq(n, i requires 0 <= i < n => Position(size, n, step, i))
  }

  lemma {:induction false} StepBelow(a: nat, b: nat, step: nat)
    requires a <= b
    ensures a * step <= b * step
  {
  }

  /** The lowest computed position is above the first one. */
  lemma {:induction false} StepsFit(version: nat)
    requires IsVersion(version) && version >= 2
    ensures 0 < Step(version) && (NumAlign(version) - 2) * Step(version) < SizeOf(version) - 7 - 6
  {
    var n := NumAlign(version);
    if n == 2 {
    } else if n == 3 {
    } else if n == 4 {
    } else if n == 5 {
    } else if n == 6 {
    } else {
      assert n == 7;
    }
  }

  // Positions ascend.
  lemma {:induction false} PositionsAscend(size: nat, n: nat, step: nat, i: nat, j: nat)
    requires n >= 2 && i < j < n && 0 < step && (n - 2) * step < size - 13
    ensures Position(size, n, step, i) < Position(size, n, step, j)
  {
    StepBelow(n - 1 - j, n - 2, step);
    if i > 0 {
      StepBelow(n - 1 - j + 1, n - 1 - i, step);
      assert (n - 1 - j + 1) * step == (n - 1 - j) * step + step;
    }
  }

  predicate IsFinderCorner(i: nat, j: nat, n: nat) {
    (i == 0 && j == 0) || (i == 0 && j == n - 1) || (i == n - 1 && j == 0)
  }

  predicate Placeable(s: nat, pos: seq<nat>) {
    forall k :: 0 <= k < |pos| ==> 2 <= pos[k] < s - 2
  }

  function AlignmentUnless(d: Side, x: nat, y: nat, isCorner: bool): (ws: seq<Write>)
    requires 2 <= x < d.length - 2 && 2 <= y < d.length - 2
    ensures AllInside(ws, d.length)
  {
    if isCorner then [] else Alignment(d, x, y, 5)
  }

  // The first n alignment patterns with x position i.
  function AlignmentsAt(d: Side, pos: seq<nat>, i: nat, n: nat): (ws: seq<Write>)
    requires Placeable(d.length, pos) && i < |pos| && n <= |pos|
    ensures AllInside(ws, d.length)
  {
    if n == 0 then []
    else AlignmentsAt(d, pos, i, n - 1)
         + AlignmentUnless(d, pos[i], pos[n - 1], IsFinderCorner(i, n - 1, |pos|))
  }

  function Alignments(d: Side, pos: seq<nat>, n: nat): (ws: seq<Write>)
    requires Placeable(d.length, pos) && n <= |pos|
    ensures AllInside(ws, d.length)
  {
    if n == 0 then [] else Alignments(d, pos, n - 1) + AlignmentsAt(d, pos, n - 1, |pos|)
  }

  // One more pattern, one more row of patterns.
  lemma {:induction false} OneMorePattern(d: Side, pos: seq<nat>, i: nat, n: nat)
    requires Placeable(d.length, pos) && i < |pos| && n < |pos|
    ensures AlignmentsAt(d, pos, i, n + 1)
         == AlignmentsAt(d, pos, i, n) + AlignmentUnless(d, pos[i], pos[n], IsFinderCorner(i, n, |pos|))
  {
  }

  lemma {:induction false} OneMoreRow(d: Side, pos: seq<nat>, n: nat)
    requires Placeable(d.length, pos) && n < |pos|
    ensures Alignments(d, pos, n + 1) == Alignments(d, pos, n) + AlignmentsAt(d, pos, n, |pos|)
  {
  }

  // ---- format and version ----

  function FormatWrite(s: nat, bits: nat, k: nat): (w: Write)
    requires s >= 21 && k < 31
    ensures Inside(w.cell, s)
  {
    if k < 6 then Write(Cell(8, k), GetBit(bits, k))
    else if k == 6 then Write(Cell(8, 7), GetBit(bits, 6))
    else if k == 7 then Write(Cell(8, 8), GetBit(bits, 7))
    else if k == 8 then Write(Cell(7, 8), GetBit(bits, 8))
    else if k < 15 then Write(Cell(14 - k, 8), GetBit(bits, k))
    else if k < 23 then Write(Cell(s - 1 - (k - 15), 8), GetBit(bits, k - 15))
    else if k < 30 then Write(Cell(8, s - 15 + (k - 15)), GetBit(bits, k - 15))
    else Write(Cell(8, s - 8), true)
  }

  // The first n of the 31 modules of the two format copies.
  function Format(s: nat, bits: nat, n: nat): (ws: seq<Write>)
    requires s >= 21 && n <= 31
    ensures |ws| == n && AllInside(ws, s)
    ensures forall k :: 0 <= k < n ==> ws[k] == FormatWrite(s, bits, k)
  {
    seq(n, k requires 0 <= k < n => FormatWrite(s, bits, k))
  }

  // The format modules for a level and a mask (spelled out by FormatPartIs).
  function FormatPart(d: Side, ecl: EccLevel, mask: nat): (ws: seq<Write>)
    requires d.length >= 21
    ensures AllInside(ws, d.length)
  {
    FormatPartAt(d, ecl, mask, d.length)
  }

  // The depth plays no part: it keeps proofs that only pass the list on from looking inside.
  function FormatPartAt(d: Side, ecl: EccLevel, mask: nat, depth: nat): (ws: seq<Write>)
    requires d.length >= 21
    ensures AllInside(ws, d.length)
    decreases depth
  {
    if depth > 0 then FormatPartAt(d, ecl, mask, depth - 1)
    else Format(d.length, FormatWord(ecl, mask), 31)
  }

  lemma {:induction false} FormatPartAtIs(d: Side, ecl: EccLevel, mask: nat, depth: nat)
    requires d.length >= 21
    ensures FormatPartAt(d, ecl, mask, depth) == Format(d.length, FormatWord(ecl, mask), 31)
    decreases depth
  {
    if depth > 0 {
      FormatPartAtIs(d, ecl, mask, depth - 1);
    }
  }

  lemma {:induction false} FormatPartIs(d: Side, ecl: EccLevel, mask: nat)
    requires d.length >= 21
    ensures FormatPart(d, ecl, mask) == Format(d.length, FormatWord(ecl, mask), 31)
  {
    FormatPartAtIs(d, ecl, mask, d.length);
  }

  // The cells do not depend on the bits, and no cell is written twice.
  lemma {:induction false} FormatCells(s: nat, a: nat, b: nat, c: Cell)
    requires s >= 21
    ensures Covers(Format(s, a, 31), c) <==> Covers(Format(s, b, 31), c)
  {
    forall k | 0 <= k < 31 ensures Format(s, a, 31)[k].cell == Format(s, b, 31)[k].cell {
    }
    if Covers(Format(s, a, 31), c) {
      var k :| 0 <= k < 31 && Format(s, a, 31)[k].cell == c;
      assert Format(s, b, 31)[k].cell == c;
    }
    if Covers(Format(s, b, 31), c) {
      var k :| 0 <= k < 31 && Format(s, b, 31)[k].cell == c;
      assert Format(s, a, 31)[k].cell == c;
    }
  }

  lemma {:induction false} FormatCellsDistinct(s: nat, bits: nat, i: nat, j: nat)
    requires s >= 21 && i < j < 31
    ensures FormatWrite(s, bits, i).cell != FormatWrite(s, bits, j).cell
  {
  }

  // Two copies of the first n version bits; nothing below version 7.
  function VersionInfo(d: Side, bits: nat, n: nat): (ws: seq<Write>)
    requires d.length >= 21 && n <= 18
    ensures AllInside(ws, d.length)
  {
    if n == 0 then []
    else
      var i := n - 1;
      var a, b := d.length - 11 + i % 3, i / 3;
      VersionInfo(d, bits, i) + [Write(Cell(a, b), GetBit(bits, i))] + [Write(Cell(b, a), GetBit(bits, i))]
  }

  // ---- all of them ----

  function Finders(d: Side): (ws: seq<Write>)
    requires d.length >= 21
    ensures AllInside(ws, d.length)
  {
    WholeFinder(d, 3, 3) + WholeFinder(d, d.length - 4, 3) + WholeFinder(d, 3, d.length - 4)
  }

  function AllAlignments(version: nat): (ws: seq<Write>)
    requires IsVersion(version)
    ensures AllInside(ws, SizeOf(version))
  {
    AllAlignmentsAt(version, SizeOf(version))
  }

  // (The depth plays no part, as in FunctionPatternsAt.)
  function AllAlignmentsAt(version: nat, depth: nat): (ws: seq<Write>)
    requires IsVersion(version)
    ensures AllInside(ws, SizeOf(version))
  {
    if depth > 0 then AllAlignmentsAt(version, depth - 1)
    else
      var pos := AlignmentPositions(version);
      Alignments(Side(SizeOf(version)), pos, |pos|)
  }

  lemma {:induction false} AllAlignmentsAre(version: nat, depth: nat)
    requires IsVersion(version)
    ensures AllAlignmentsAt(version, depth)
         == Alignments(Side(SizeOf(version)), AlignmentPositions(version), |AlignmentPositions(version)|)
  {
    if depth > 0 {
      AllAlignmentsAre(version, depth - 1);
    }
  }

  function VersionPart(version: nat): (ws: seq<Write>)
    requires IsVersion(version)
    ensures AllInside(ws, SizeOf(version))
  {
    if version < 7 then [] else VersionInfo(Side(SizeOf(version)), VersionWord(version), 18)
  }

  /** Everything drawFunctionPatterns sets, in order (spelled out by FunctionPatternsAre). */
  function FunctionPatterns(version: nat, ecl: EccLevel): (ws: seq<Write>)
    requires IsVersion(version)
    ensures AllInside(ws, SizeOf(version))
  {
    FunctionPatternsAt(version, ecl, SizeOf(version))
  }

  // The depth plays no part: it keeps proofs that only pass the list on from looking inside.
  function FunctionPatternsAt(version: nat, ecl: EccLevel, depth: nat): (ws: seq<Write>)
    requires IsVersion(version)
    ensures AllInside(ws, SizeOf(version))
  {
    if depth > 0 then FunctionPatternsAt(version, ecl, depth - 1)
    else AllPatterns(version, ecl)
  }

  function AllPatterns(version: nat, ecl: EccLevel): (ws: seq<Write>)
    requires IsVersion(version)
    ensures AllInside(ws, SizeOf(version))
  {
    var s := SizeOf(version);
    Timing(Side(s), s) + Finders(Side(s)) + AllAlignments(version)
    + FormatPart(Side(s), ecl, 0) + VersionPart(version)
  }

  lemma {:induction false} FunctionPatternsAre(version: nat, ecl: EccLevel, depth: nat)
    requires IsVersion(version)
    ensures FunctionPatternsAt(version, ecl, depth) == AllPatterns(version, ecl)
  {
    if depth > 0 {
      FunctionPatternsAre(version, ecl, depth - 1);
    }
  }

  lemma {:induction false} CoversAppend(a: seq<Write>, b: seq<Write>, c: Cell)
    ensures Covers(a + b, c) <==> Covers(a, c) || Covers(b, c)
  {
    if Covers(a, c) {
      var k :| 0 <= k < |a| && a[k].cell == c;
      assert (a + b)[k].cell == c;
    }
    if Covers(b, c) {
      var k :| 0 <= k < |b| && b[k].cell == c;
      assert (a + b)[|a| + k].cell == c;
    }
    if Covers(a + b, c) {
      var k :| 0 <= k < |a + b| && (a + b)[k].cell == c;
      if k < |a| {
        assert a[k].cell == c;
      } else {
        assert b[k - |a|].cell == c;
      }
    }
  }

  /** Column 6 and all format modules are function modules. */
  lemma {:induction false} PatternsCover(version: nat, ecl: EccLevel, c: Cell)
    requires IsVersion(version)
    requires Inside(c, SizeOf(version)) && (c.x == 6 || Covers(Format(SizeOf(version), 0, 31), c))
    ensures Covers(FunctionPatterns(version, ecl), c)
  {
    var s := SizeOf(version);
    FunctionPatternsAre(version, ecl, SizeOf(version));
    var t, f, a, m, v := Timing(Side(s), s), Finders(Side(s)), AllAlignments(version), FormatPart(Side(s), ecl, 0), VersionPart(version);
    if c.x == 6 {
      TimingCoversColumn(s, s, c.y);
    } else {
      FormatPartIs(Side(s), ecl, 0);
      FormatCells(s, 0, FormatWord(ecl, 0), c);
    }
    CoversAppend(t, f, c);
    CoversAppend(t + f, a, c);
    CoversAppend(t + f + a, m, c);
    CoversAppend(t + f + a + m, v, c);
  }
}
