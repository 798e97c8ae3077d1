/** What the function patterns of a finished symbol look like (section 6.3 of ISO/IEC 18004:2015),
    as pictures: in every version and at every level, whatever the codewords and the mask. */
module Pictures {
  import opened Bits
  import opened FormatInfo
  import opened Grids
  import opened Patterns
  import opened Symbols
  import opened Tables
  import opened Versions
  import opened Zigzag

  // The grid of a finished symbol.
  function Finished(version: nat, ecl: EccLevel, codewords: seq<Byte>, mask: nat): (g: Grid)
    requires IsVersion(version) && mask < 8
    ensures Square(g, SizeOf(version))
  {
    WithMask(LayoutOf(version), WithCodewords(LayoutOf(version), Patterned(version, ecl), codewords), ecl, mask)
  }

  // ---- lists of writes that agree on a module ----

  predicate Agrees(ws: seq<Write>, c: Cell, dark: bool) {
    forall i :: 0 <= i < |ws| && ws[i].cell == c ==> ws[i].dark == dark
  }

  lemma {:induction false} AgreesAppend(a: seq<Write>, b: seq<Write>, c: Cell, dark: bool)
    requires Agrees(a, c, dark) && Agrees(b, c, dark)
    ensures Agrees(a + b, c, dark)
  {
  }

  lemma {:induction false} ApplyAgreed(g: Grid, ws: seq<Write>, c: Cell, dark: bool)
    requires Square(g, |g|) && AllInside(ws, |g|) && Inside(c, |g|) && Agrees(ws, c, dark)
    requires At(g, c) == dark || Covers(ws, c)
    ensures At(Apply(g, ws), c) == dark
  {
    if ws != [] {
      var n := |ws| - 1;
      if ws[n].cell != c {
        if Covers(ws, c) {
          var i :| 0 <= i < |ws| && ws[i].cell == c;
          assert ws[..n][i].cell == c;
        }
        ApplyAgreed(g, ws[..n], c, dark);
      }
    }
  }

  // The colour of a module that part a of the list sets, when the rest agrees.
  lemma {:induction false} SetByPart(g: Grid, before: seq<Write>, a: seq<Write>, after: seq<Write>, c: Cell, dark: bool)
    requires Square(g, |g|) && AllInside(before, |g|) && AllInside(a, |g|) && AllInside(after, |g|) && Inside(c, |g|)
    requires Covers(a, c) && Agrees(a, c, dark) && Agrees(after, c, dark)
    ensures AllInside(before + a + after, |g|) && At(Apply(g, before + a + after), c) == dark
  {
    ApplyAppend(g, before, a);
    ApplyAppend(g, before + a, after);
    ApplyAgreed(Apply(g, before), a, c, dark);
    ApplyAgreed(Apply(g, before + a), after, c, dark);
  }

  // ---- timing ----

  lemma {:induction false} TimingAgrees(d: Side, n: nat, c: Cell)
    requires 7 <= d.length && n <= d.length && (c.x == 6 || c.y == 6)
    ensures Agrees(Timing(d, n), c, (c.x + c.y) % 2 == 0)
  {
    if n > 0 {
      TimingAgrees(d, n - 1, c);
    }
  }

  lemma {:induction false} TimingCovers(d: Side, n: nat, c: Cell)
    requires 7 <= d.length && n <= d.length && ((c.x == 6 && c.y < n) || (c.y == 6 && c.x < n))
    ensures Covers(Timing(d, n), c)
  {
    var front, i := Timing(d, n - 1), n - 1;
    CoversAppend(front, [Write(Cell(6, i), i % 2 == 0)], c);
    CoversAppend(front + [Write(Cell(6, i), i % 2 == 0)], [Write(Cell(i, 6), i % 2 == 0)], c);
    if c == Cell(6, i) {
      assert [Write(Cell(6, i), i % 2 == 0)][0].cell == c;
    } else if c == Cell(i, 6) {
      assert [Write(Cell(i, 6), i % 2 == 0)][0].cell == c;
    } else {
      TimingCovers(d, n - 1, c);
    }
  }

  // ---- finders ----

  predicate FinderDark(dx: int, dy: int) {
    Dist(dx, dy) != 2 && Dist(dx, dy) != 4
  }

  lemma {:induction false} FinderRowAgrees(d: Side, x: int, y: int, dy: int, n: nat, c: Cell)
    requires n <= 9
    ensures Agrees(FinderRow(d, x, y, dy, n), c, FinderDark(c.x - x, c.y - y))
  {
    if n > 0 {
      FinderRowAgrees(d, x, y, dy, n - 1, c);
    }
  }

  lemma {:induction false} FinderAgrees(d: Side, x: int, y: int, n: nat, c: Cell)
    requires n <= 9
    ensures Agrees(Finder(d, x, y, n), c, FinderDark(c.x - x, c.y - y))
  {
    if n > 0 {
      FinderAgrees(d, x, y, n - 1, c);
      FinderRowAgrees(d, x, y, n - 5, 9, c);
      AgreesAppend(Finder(d, x, y, n - 1), FinderRow(d, x, y, n - 5, 9), c, FinderDark(c.x - x, c.y - y));
    }
  }

  lemma {:induction false} FinderRowCovers(d: Side, x: int, y: int, dy: int, n: nat, c: Cell)
    requires n <= 9
    ensures Covers(FinderRow(d, x, y, dy, n), c) <==> Inside(c, d.length) && c.y == y + dy && x - 4 <= c.x < x - 4 + n
  {
    if n > 0 {
      var dx := n - 5;
      var xx, yy := x + dx, y + dy;
      var last := if 0 <= xx < d.length && 0 <= yy < d.length then [Write(Cell(xx, yy), FinderDark(dx, dy))] else [];
      FinderRowCovers(d, x, y, dy, n - 1, c);
      CoversAppend(FinderRow(d, x, y, dy, n - 1), last, c);
      assert Covers(last, c) <==> c.x == xx && c.y == yy && Inside(c, d.length) by {
        if last != [] {
          assert last[0].cell == Cell(xx, yy);
        }
      }
    }
  }

  lemma {:induction false} FinderCovers(d: Side, x: int, y: int, n: nat, c: Cell)
    requires n <= 9
    ensures Covers(Finder(d, x, y, n), c) <==> Inside(c, d.length) && x - 4 <= c.x <= x + 4 && y - 4 <= c.y < y - 4 + n
  {
    if n > 0 {
      FinderCovers(d, x, y, n - 1, c);
      FinderRowCovers(d, x, y, n - 5, 9, c);
      CoversAppend(Finder(d, x, y, n - 1), FinderRow(d, x, y, n - 5, 9), c);
    }
  }

  // Whether c is in the 9*9 square around (x, y).
  predicate Near(c: Cell, x: int, y: int) {
    x - 4 <= c.x <= x + 4 && y - 4 <= c.y <= y + 4
  }

  lemma {:induction false} WholeFinderMeans(d: Side, x: int, y: int, c: Cell)
    ensures Agrees(WholeFinder(d, x, y), c, FinderDark(c.x - x, c.y - y))
    ensures Covers(WholeFinder(d, x, y), c) <==> Inside(c, d.length) && Near(c, x, y)
  {
    WholeFinderIs(d, x, y);
    FinderAgrees(d, x, y, 9, c);
    FinderCovers(d, x, y, 9, c);
  }

  lemma {:induction false} NotCovered(ws: seq<Write>, c: Cell, dark: bool)
    requires !Covers(ws, c)
    ensures Agrees(ws, c, dark)
  {
  }

  // A module near just one of the three centres.
  lemma {:induction false} FindersAt(d: Side, x: int, y: int, c: Cell)
    requires d.length >= 21 && Inside(c, d.length) && Near(c, x, y)
    requires (x, y) == (3, 3) || (x, y) == (d.length - 4, 3) || (x, y) == (3, d.length - 4)
    ensures Covers(Finders(d), c) && Agrees(Finders(d), c, FinderDark(c.x - x, c.y - y))
  {
    var e, dark := d.length - 4, FinderDark(c.x - x, c.y - y);
    var a, b, f := WholeFinder(d, 3, 3), WholeFinder(d, e, 3), WholeFinder(d, 3, e);
    WholeFinderMeans(d, 3, 3, c);
    WholeFinderMeans(d, e, 3, c);
    WholeFinderMeans(d, 3, e, c);
    CoversAppend(a, b, c);
    CoversAppend(a + b, f, c);
    AgreesAppend(a, b, c, dark);
    AgreesAppend(a + b, f, c, dark);
  }

  lemma {:induction false} FindersElsewhere(d: Side, c: Cell, dark: bool)
    requires d.length >= 21 && !Near(c, 3, 3) && !Near(c, d.length - 4, 3) && !Near(c, 3, d.length - 4)
    ensures Agrees(Finders(d), c, dark)
  {
    var e := d.length - 4;
    var a, b, f := WholeFinder(d, 3, 3), WholeFinder(d, e, 3), WholeFinder(d, 3, e);
    WholeFinderMeans(d, 3, 3, c);
    WholeFinderMeans(d, e, 3, c);
    WholeFinderMeans(d, 3, e, c);
    CoversAppend(a, b, c);
    CoversAppend(a + b, f, c);
    NotCovered(Finders(d), c, dark);
  }

  // ---- alignment patterns ----

  predicate AlignmentDark(dx: int, dy: int) {
    Dist(dx, dy) != 1
  }

  lemma {:induction false} AlignmentRowMeans(d: Side, x: nat, y: nat, dy: int, n: nat, c: Cell)
    requires 2 <= x < d.length - 2 && 2 <= y < d.length - 2 && -2 <= dy <= 2 && n <= 5
    ensures Agrees(AlignmentRow(d, x, y, dy, n), c, AlignmentDark(c.x - x, c.y - y))
    ensures Covers(AlignmentRow(d, x, y, dy, n), c) <==> c.y == y + dy && x - 2 <= c.x < x - 2 + n
  {
    if n > 0 {
      var dx := n - 3;
      var last := [Write(Cell(x + dx, y + dy), AlignmentDark(dx, dy))];
      AlignmentRowMeans(d, x, y, dy, n - 1, c);
      AgreesAppend(AlignmentRow(d, x, y, dy, n - 1), last, c, AlignmentDark(c.x - x, c.y - y));
      CoversAppend(AlignmentRow(d, x, y, dy, n - 1), last, c);
      assert Covers(last, c) <==> c == Cell(x + dx, y + dy) by {
        assert last[0].cell == Cell(x + dx, y + dy);
      }
    }
  }

  lemma {:induction false} AlignmentMeans(d: Side, x: nat, y: nat, n: nat, c: Cell)
    requires 2 <= x < d.length - 2 && 2 <= y < d.length - 2 && n <= 5
    ensures Agrees(Alignment(d, x, y, n), c, AlignmentDark(c.x - x, c.y - y))
    ensures Covers(Alignment(d, x, y, n), c) <==> x - 2 <= c.x <= x + 2 && y - 2 <= c.y < y - 2 + n
  {
    if n > 0 {
      AlignmentMeans(d, x, y, n - 1, c);
      AlignmentRowMeans(d, x, y, n - 3, 5, c);
      AgreesAppend(Alignment(d, x, y, n - 1), AlignmentRow(d, x, y, n - 3, 5), c, AlignmentDark(c.x - x, c.y - y));
      CoversAppend(Alignment(d, x, y, n - 1), AlignmentRow(d, x, y, n - 3, 5), c);
    }
  }

  // Pattern (i, j) is drawn, and c is one of its 25 modules.
  predicate InPattern(pos: seq<nat>, i: nat, j: nat, c: Cell)
    requires i < |pos| && j < |pos|
  {
    && !IsFinderCorner(i, j, |pos|)
    && pos[i] - 2 <= c.x <= pos[i] + 2 && pos[j] - 2 <= c.y <= pos[j] + 2
  }

  // All patterns that c is in give it this colour.
  predicate PatternsAgree(pos: seq<nat>, c: Cell, dark: bool) {
    forall i, j :: 0 <= i < |pos| && 0 <= j < |pos| && InPattern(pos, i, j, c) ==> AlignmentDark(c.x - pos[i], c.y - pos[j]) == dark
  }

  lemma {:induction false} UnlessMeans(d: Side, pos: seq<nat>, i: nat, j: nat, c: Cell)
    requires Placeable(d.length, pos) && i < |pos| && j < |pos|
    ensures var ws := AlignmentUnless(d, pos[i], pos[j], IsFinderCorner(i, j, |pos|));
      && (Covers(ws, c) <==> InPattern(pos, i, j, c))
      && (forall dark :: PatternsAgree(pos, c, dark) ==> Agrees(ws, c, dark))
  {
    AlignmentMeans(d, pos[i], pos[j], 5, c);
    var ws := AlignmentUnless(d, pos[i], pos[j], IsFinderCorner(i, j, |pos|));
    forall dark | PatternsAgree(pos, c, dark) ensures Agrees(ws, c, dark) {
      if InPattern(pos, i, j, c) {
        assert AlignmentDark(c.x - pos[i], c.y - pos[j]) == dark;
      } else {
        NotCovered(ws, c, dark);
      }
    }
  }

  lemma {:induction false} PatternAgrees(d: Side, pos: seq<nat>, i: nat, n: nat, c: Cell, dark: bool)
    requires Placeable(d.length, pos) && i < |pos| && n < |pos| && PatternsAgree(pos, c, dark)
    requires Agrees(AlignmentsAt(d, pos, i, n), c, dark)
    ensures Agrees(AlignmentsAt(d, pos, i, n + 1), c, dark)
  {
    OneMorePattern(d, pos, i, n);
    UnlessMeans(d, pos, i, n, c);
    AgreesAppend(AlignmentsAt(d, pos, i, n), AlignmentUnless(d, pos[i], pos[n], IsFinderCorner(i, n, |pos|)), c, dark);
  }

  lemma {:induction false} AlignmentsAtAgree(d: Side, pos: seq<nat>, i: nat, n: nat, c: Cell, dark: bool)
    requires Placeable(d.length, pos) && i < |pos| && n <= |pos| && PatternsAgree(pos, c, dark)
    ensures Agrees(AlignmentsAt(d, pos, i, n), c, dark)
  {
    if n > 0 {
      var m := n - 1;
      AlignmentsAtAgree(d, pos, i, m, c, dark);
      PatternAgrees(d, pos, i, m, c, dark);
      assert n == m + 1;
    }
  }

  lemma {:induction false} RowAgrees(d: Side, pos: seq<nat>, n: nat, c: Cell, dark: bool)
    requires Placeable(d.length, pos) && n < |pos| && PatternsAgree(pos, c, dark)
    requires Agrees(Alignments(d, pos, n), c, dark)
    ensures Agrees(Alignments(d, pos, n + 1), c, dark)
  {
    OneMoreRow(d, pos, n);
    AlignmentsAtAgree(d, pos, n, |pos|, c, dark);
    AgreesAppend(Alignments(d, pos, n), AlignmentsAt(d, pos, n, |pos|), c, dark);
  }

  lemma {:induction false} AlignmentsAgree(d: Side, pos: seq<nat>, n: nat, c: Cell, dark: bool)
    requires Placeable(d.length, pos) && n <= |pos| && PatternsAgree(pos, c, dark)
    ensures Agrees(Alignments(d, pos, n), c, dark)
  {
    if n == 0 {
      assert Alignments(d, pos, 0) == [];
    } else {
      var m := n - 1;
      AlignmentsAgree(d, pos, m, c, dark);
      RowAgrees(d, pos, m, c, dark);
      assert n == m + 1;
    }
  }

  // c is in one of the first n patterns with x position i, or in one of the first n rows.
  predicate InSome(pos: seq<nat>, i: nat, n: nat, c: Cell)
    requires i < |pos| && n <= |pos|
  {
    n > 0 && (InSome(pos, i, n - 1, c) || InPattern(pos, i, n - 1, c))
  }

  predicate InAny(pos: seq<nat>, n: nat, c: Cell)
    requires n <= |pos|
  {
    n > 0 && (InAny(pos, n - 1, c) || InSome(pos, n - 1, |pos|, c))
  }

  lemma {:induction false} PatternCovers(d: Side, pos: seq<nat>, i: nat, n: nat, c: Cell)
    requires Placeable(d.length, pos) && i < |pos| && n < |pos|
    requires InSome(pos, i, n, c) ==> Covers(AlignmentsAt(d, pos, i, n), c)
    ensures InSome(pos, i, n + 1, c) ==> Covers(AlignmentsAt(d, pos, i, n + 1), c)
  {
    OneMorePattern(d, pos, i, n);
    UnlessMeans(d, pos, i, n, c);
    CoversAppend(AlignmentsAt(d, pos, i, n), AlignmentUnless(d, pos[i], pos[n], IsFinderCorner(i, n, |pos|)), c);
  }

  lemma {:induction false} AlignmentsAtCover(d: Side, pos: seq<nat>, i: nat, n: nat, c: Cell)
    requires Placeable(d.length, pos) && i < |pos| && n <= |pos|
    ensures InSome(pos, i, n, c) ==> Covers(AlignmentsAt(d, pos, i, n), c)
  {
    if n > 0 {
      var m := n - 1;
      AlignmentsAtCover(d, pos, i, m, c);
      PatternCovers(d, pos, i, m, c);
      assert n == m + 1;
    }
  }

  lemma {:induction false} RowCovers(d: Side, pos: seq<nat>, n: nat, c: Cell)
    requires Placeable(d.length, pos) && n < |pos|
    requires InAny(pos, n, c) ==> Covers(Alignments(d, pos, n), c)
    ensures InAny(pos, n + 1, c) ==> Covers(Alignments(d, pos, n + 1), c)
  {
    OneMoreRow(d, pos, n);
    AlignmentsAtCover(d, pos, n, |pos|, c);
    CoversAppend(Alignments(d, pos, n), AlignmentsAt(d, pos, n, |pos|), c);
  }

  lemma {:induction false} AlignmentsCover(d: Side, pos: seq<nat>, n: nat, c: Cell)
    requires Placeable(d.length, pos) && n <= |pos|
    ensures InAny(pos, n, c) ==> Covers(Alignments(d, pos, n), c)
  {
    if n > 0 {
      var m := n - 1;
      AlignmentsCover(d, pos, m, c);
      RowCovers(d, pos, m, c);
      assert n == m + 1;
    }
  }

  lemma {:induction false} IsInSome(pos: seq<nat>, i: nat, j: nat, n: nat, c: Cell)
    requires i < |pos| && j < n <= |pos| && InPattern(pos, i, j, c)
    ensures InSome(pos, i, n, c)
  {
    if j < n - 1 {
      IsInSome(pos, i, j, n - 1, c);
    }
  }

  lemma {:induction false} IsInAny(pos: seq<nat>, i: nat, j: nat, n: nat, c: Cell)
    requires i < n <= |pos| && j < |pos| && InPattern(pos, i, j, c)
    ensures InAny(pos, n, c)
  {
    if i < n - 1 {
      IsInAny(pos, i, j, n - 1, c);
    } else {
      IsInSome(pos, i, j, |pos|, c);
    }
  }

  // ---- where the alignment patterns are ----

  lemma {:induction false} StepsApart(version: nat)
    requires IsVersion(version) && version >= 2
    ensures Step(version) % 2 == 0 && (NumAlign(version) > 2 ==> Step(version) >= 12)
    ensures (NumAlign(version) - 2) * Step(version) + 12 <= SizeOf(version) - 13
  {
    var n := NumAlign(version);
    if n == 2 {
    } else if n == 3 {
    } else if n == 4 {
    } else if n == 5 {
    } else if n == 6 {
    } else {
      assert n == 7;
    }
  }

  lemma {:induction false} EvenTimes(a: nat, b: nat)
    requires b % 2 == 0
    ensures a * b % 2 == 0
  {
    var h := b / 2;
    assert a * b == 2 * (a * h);
  }

  lemma {:induction false} TimesMore(a: nat, b: nat, step: nat)
    requires a < b
    ensures a * step + step <= b * step
  {
    assert (a + 1) * step == a * step + step;
    StepBelow(a + 1, b, step);
  }

  lemma {:induction false} PositionsApart(size: nat, n: nat, step: nat, i: nat, j: nat)
    requires n >= 2 && i < j < n && (n > 2 ==> step >= 12) && (n - 2) * step + 12 <= size - 13
    ensures Position(size, n, step, i) + 12 <= Position(size, n, step, j)
  {
    StepBelow(n - 1 - j, n - 2, step);
    if i > 0 {
      TimesMore(n - 1 - j, n - 1 - i, step);
    }
  }

  lemma {:induction false} PositionsEven(size: nat, n: nat, step: nat, i: nat)
    requires n >= 2 && i < n && step % 2 == 0 && size % 2 == 1 && (n - 2) * step <= size - 13
    ensures Position(size, n, step, i) % 2 == 0
  {
    EvenTimes(n - 1 - i, step);
  }

  // What the pictures need of the positions.
  ghost predicate WellPlaced(pos: seq<nat>, s: nat) {
    && |pos| >= 2 && pos[0] == 6 && pos[|pos| - 1] == s - 7
    && (forall i :: 0 <= i < |pos| ==> pos[i] % 2 == 0)
    && (forall i, j :: 0 <= i < j < |pos| ==> pos[i] + 12 <= pos[j])
  }

  lemma {:induction false} AlignmentsPlaced(version: nat)
    requires IsVersion(version) && version >= 2
    ensures WellPlaced(AlignmentPositions(version), SizeOf(version))
  {
    var pos, s, n, step := AlignmentPositions(version), SizeOf(version), NumAlign(version), Step(version);
    StepsApart(version);
    StepsFit(version);
    forall i | 0 <= i < |pos| ensures pos[i] % 2 == 0 {
      PositionsEven(s, n, step, i);
    }
    forall i, j | 0 <= i < j < |pos| ensures pos[i] + 12 <= pos[j] {
      PositionsApart(s, n, step, i, j);
    }
  }

  lemma {:induction false} InnerPosition(pos: seq<nat>, s: nat, i: nat)
    requires WellPlaced(pos, s) && 0 < i < |pos| - 1
    ensures 18 <= pos[i] <= s - 19
  {
    assert pos[0] + 12 <= pos[i] && pos[i] + 12 <= pos[|pos| - 1];
  }

  // One of the 8*8 corners that have a finder.
  predicate InCorner(c: Cell, s: nat) {
    (c.x <= 7 && c.y <= 7) || (c.x + 8 >= s && c.y <= 7) || (c.x <= 7 && c.y + 8 >= s)
  }

  lemma {:induction false} NoneInCorner(pos: seq<nat>, s: nat, c: Cell, dark: bool)
    requires WellPlaced(pos, s) && s >= 21 && InCorner(c, s)
    ensures PatternsAgree(pos, c, dark)
  {
    forall i, j | 0 <= i < |pos| && 0 <= j < |pos| && !IsFinderCorner(i, j, |pos|) ensures !InPattern(pos, i, j, c) {
      if 0 < i < |pos| - 1 {
        InnerPosition(pos, s, i);
      }
      if 0 < j < |pos| - 1 {
        InnerPosition(pos, s, j);
      }
      assert pos[0] + 12 <= pos[|pos| - 1];
    }
  }

  lemma {:induction false} OnTiming(pos: seq<nat>, s: nat, c: Cell)
    requires WellPlaced(pos, s) && (c.x == 6 || c.y == 6)
    ensures PatternsAgree(pos, c, (c.x + c.y) % 2 == 0)
  {
    forall i, j | 0 <= i < |pos| && 0 <= j < |pos| && InPattern(pos, i, j, c)
      ensures AlignmentDark(c.x - pos[i], c.y - pos[j]) == ((c.x + c.y) % 2 == 0)
    {
      assert i > 0 ==> pos[0] + 12 <= pos[i];
      assert j > 0 ==> pos[0] + 12 <= pos[j];
      assert pos[i] % 2 == 0 && pos[j] % 2 == 0;
    }
  }

  lemma {:induction false} CloseIsSame(pos: seq<nat>, s: nat, i: nat, j: nat, x: nat)
    requires WellPlaced(pos, s) && i < |pos| && j < |pos|
    requires pos[i] - 2 <= x <= pos[i] + 2 && pos[j] - 2 <= x <= pos[j] + 2
    ensures i == j
  {
  }

  lemma {:induction false} OnlyPattern(pos: seq<nat>, s: nat, i: nat, j: nat, c: Cell)
    requires WellPlaced(pos, s) && i < |pos| && j < |pos| && InPattern(pos, i, j, c)
    ensures PatternsAgree(pos, c, AlignmentDark(c.x - pos[i], c.y - pos[j]))
  {
    forall k, l | 0 <= k < |pos| && 0 <= l < |pos| && InPattern(pos, k, l, c) ensures k == i && l == j {
      CloseIsSame(pos, s, k, i, c.x);
      CloseIsSame(pos, s, l, j, c.y);
    }
  }

  lemma {:induction false} AllAlignmentsAgree(version: nat, c: Cell, dark: bool)
    requires IsVersion(version) && (version >= 2 ==> PatternsAgree(AlignmentPositions(version), c, dark))
    ensures Agrees(AllAlignments(version), c, dark)
  {
    AllAlignmentsAre(version, SizeOf(version));
    AlignmentsAgree(Side(SizeOf(version)), AlignmentPositions(version), |AlignmentPositions(version)|, c, dark);
  }

  // ---- format and version information are elsewhere ----

  lemma {:induction false} FormatOnly(s: nat, bits: nat, c: Cell)
    requires s >= 21
    ensures Covers(Format(s, bits, 31), c) ==> c.x != 6 && c.y != 6
    ensures Covers(Format(s, bits, 31), c) ==>
      (c.x == 8 && (c.y <= 8 || c.y + 8 >= s)) || (c.y == 8 && (c.x <= 8 || c.x + 8 >= s))
  {
    if k :| 0 <= k < 31 && Format(s, bits, 31)[k].cell == c {
      assert c == FormatWrite(s, bits, k).cell;
    }
  }

  lemma {:induction false} InfoOnly(d: Side, bits: nat, n: nat, c: Cell)
    requires d.length >= 21 && 0 < n <= 18
    ensures Covers(VersionInfo(d, bits, n), c) ==>
      (c.y <= 5 && d.length - 11 <= c.x <= d.length - 9) || (c.x <= 5 && d.length - 11 <= c.y <= d.length - 9)
  {
    var ws := VersionInfo(d, bits, n);
    InfoWrite(d, bits, n, n - 1, 0);
    if k :| 0 <= k < |ws| && ws[k].cell == c {
      InfoWrite(d, bits, n, k / 2, k % 2);
    }
  }

  lemma {:induction false} VersionOnly(version: nat, c: Cell)
    requires IsVersion(version)
    ensures Covers(VersionPart(version), c) ==> version >= 7
    ensures Covers(VersionPart(version), c) ==>
      var s := SizeOf(version);
      (c.y <= 5 && s - 11 <= c.x <= s - 9) || (c.x <= 5 && s - 11 <= c.y <= s - 9)
  {
    if version >= 7 {
      InfoOnly(Side(SizeOf(version)), VersionWord(version), 18, c);
    }
  }

  // ---- from the function patterns to the finished grid ----

  lemma {:induction false} Kept(version: nat, ecl: EccLevel, codewords: seq<Byte>, mask: nat, c: Cell, dark: bool)
    requires IsVersion(version) && mask < 8 && Inside(c, SizeOf(version))
    requires Covers(FunctionPatterns(version, ecl), c) && At(Patterned(version, ecl), c) == dark
    requires !Covers(Format(SizeOf(version), FormatWord(ecl, mask), 31), c)
    ensures At(Finished(version, ecl, codewords, mask), c) == dark
  {
    LayoutIs(version, ecl);
    ApplyMarks(Blank(SizeOf(version)), FunctionPatterns(version, ecl), c);
    PatternKept(LayoutOf(version), Patterned(version, ecl), ecl, codewords, mask, c);
  }

  // Part a of the function patterns settles the colour of c.
  lemma {:induction false} SettledBy(version: nat, ecl: EccLevel, before: seq<Write>, a: seq<Write>, after: seq<Write>, c: Cell, dark: bool)
    requires IsVersion(version) && Inside(c, SizeOf(version)) && AllPatterns(version, ecl) == before + a + after
    requires AllInside(before, SizeOf(version)) && AllInside(a, SizeOf(version)) && AllInside(after, SizeOf(version))
    requires Covers(a, c) && Agrees(a, c, dark) && Agrees(after, c, dark)
    ensures Covers(FunctionPatterns(version, ecl), c) && At(Patterned(version, ecl), c) == dark
  {
    FunctionPatternsAre(version, ecl, SizeOf(version));
    SetByPart(Blank(SizeOf(version)), before, a, after, c, dark);
    CoversAppend(before, a, c);
    CoversAppend(before + a, after, c);
  }

  // ---- the pictures ----

  // Row i of a finder pattern and its border, dark modules as 1.
  function FinderPicture(i: nat): (row: string)
    requires i < 8
    ensures |row| == 8
  {
    match i
    case 0 => "11111110"
    case 1 => "10000010"
    case 2 => "10111010"
    case 3 => "10111010"
    case 4 => "10111010"
    case 5 => "10000010"
    case 6 => "11111110"
    case _ => "00000000"
  }

  function AlignmentPicture(i: nat): (row: string)
    requires i < 5
    ensures |row| == 5
  {
    match i
    case 0 => "11111"
    case 1 => "10001"
    case 2 => "10101"
    case 3 => "10001"
    case _ => "11111"
  }

  lemma {:induction false} FinderPictureIs(i: nat, j: nat)
    requires i < 8 && j < 8
    ensures FinderDark(j - 3, i - 3) <==> FinderPicture(i)[j] == '1'
    ensures FinderDark(3 - j, i - 3) <==> FinderPicture(i)[j] == '1'
    ensures FinderDark(j - 3, 3 - i) <==> FinderPicture(i)[j] == '1'
  {
  }

  lemma {:induction false} AlignmentPictureIs(i: nat, j: nat)
    requires i < 5 && j < 5
    ensures AlignmentDark(j - 2, i - 2) <==> AlignmentPicture(i)[j] == '1'
  {
  }

  // The format and the version information are drawn elsewhere.
  lemma {:induction false} LaterElsewhere(version: nat, ecl: EccLevel, c: Cell, dark: bool)
    requires IsVersion(version) && (InCorner(c, SizeOf(version)) || c.x == 6 || c.y == 6)
    ensures Agrees(FormatPart(Side(SizeOf(version)), ecl, 0) + VersionPart(version), c, dark)
    ensures forall bits :: !Covers(Format(SizeOf(version), bits, 31), c)
  {
    var s := SizeOf(version);
    forall bits ensures !Covers(Format(s, bits, 31), c) {
      FormatOnly(s, bits, c);
    }
    VersionOnly(version, c);
    FormatPartIs(Side(s), ecl, 0);
    NotCovered(FormatPart(Side(s), ecl, 0), c, dark);
    NotCovered(VersionPart(version), c, dark);
    AgreesAppend(FormatPart(Side(s), ecl, 0), VersionPart(version), c, dark);
  }

  // The function patterns in three parts, around the finders or the timing patterns.
  lemma {:induction false} InParts(version: nat, ecl: EccLevel)
    requires IsVersion(version)
    ensures var s := SizeOf(version);
      var t, f, a, later := Timing(Side(s), s), Finders(Side(s)), AllAlignments(version), FormatPart(Side(s), ecl, 0) + VersionPart(version);
      && AllInside(later, s) && AllInside(a + later, s) && AllInside(f + (a + later), s) && AllInside(t + f, s)
      && AllPatterns(version, ecl) == t + f + (a + later)
      && AllPatterns(version, ecl) == [] + t + (f + (a + later))
      && AllPatterns(version, ecl) == (t + f) + a + later
  {
    var s := SizeOf(version);
    var t, f, a, m, v := Timing(Side(s), s), Finders(Side(s)), AllAlignments(version), FormatPart(Side(s), ecl, 0), VersionPart(version);
    InsideParts(m, v, s);
    InsideParts(a, m + v, s);
    InsideParts(f, a + (m + v), s);
    InsideParts(t, f, s);
    Regrouped(t, f, a, m, v);
  }

  lemma {:induction false} Regrouped(t: seq<Write>, f: seq<Write>, a: seq<Write>, m: seq<Write>, v: seq<Write>)
    ensures t + f + a + m + v == t + f + (a + (m + v))
    ensures t + f + a + m + v == [] + t + (f + (a + (m + v)))
    ensures t + f + a + m + v == (t + f) + a + (m + v)
  {
  }

  // Nothing after the finders draws over their corners ...
  lemma {:induction false} AfterFinders(version: nat, ecl: EccLevel, c: Cell, dark: bool)
    requires IsVersion(version) && InCorner(c, SizeOf(version))
    ensures Agrees(AllAlignments(version) + (FormatPart(Side(SizeOf(version)), ecl, 0) + VersionPart(version)), c, dark)
  {
    if version >= 2 {
      AlignmentsPlaced(version);
      NoneInCorner(AlignmentPositions(version), SizeOf(version), c, dark);
    }
    AllAlignmentsAgree(version, c, dark);
    LaterElsewhere(version, ecl, c, dark);
    AgreesAppend(AllAlignments(version), FormatPart(Side(SizeOf(version)), ecl, 0) + VersionPart(version), c, dark);
  }

  // ... and what is drawn over the timing patterns between them agrees with those.
  lemma {:induction false} AfterTiming(version: nat, ecl: EccLevel, c: Cell)
    requires IsVersion(version) && (c.x == 6 || c.y == 6)
    requires !Near(c, 3, 3) && !Near(c, SizeOf(version) - 4, 3) && !Near(c, 3, SizeOf(version) - 4)
    ensures Agrees(Finders(Side(SizeOf(version))) + (AllAlignments(version) + (FormatPart(Side(SizeOf(version)), ecl, 0) + VersionPart(version))),
                   c, (c.x + c.y) % 2 == 0)
  {
    var s, dark := SizeOf(version), (c.x + c.y) % 2 == 0;
    var later := FormatPart(Side(s), ecl, 0) + VersionPart(version);
    FindersElsewhere(Side(s), c, dark);
    if version >= 2 {
      AlignmentsPlaced(version);
      OnTiming(AlignmentPositions(version), s, c);
    }
    AllAlignmentsAgree(version, c, dark);
    LaterElsewhere(version, ecl, c, dark);
    AgreesAppend(AllAlignments(version), later, c, dark);
    AgreesAppend(Finders(Side(s)), AllAlignments(version) + later, c, dark);
  }

  lemma {:induction false} FinderSettled(version: nat, ecl: EccLevel, x: int, y: int, c: Cell, dark: bool)
    requires IsVersion(version) && Inside(c, SizeOf(version)) && Near(c, x, y) && InCorner(c, SizeOf(version))
    requires (x, y) == (3, 3) || (x, y) == (SizeOf(version) - 4, 3) || (x, y) == (3, SizeOf(version) - 4)
    requires dark == FinderDark(c.x - x, c.y - y)
    ensures Covers(FunctionPatterns(version, ecl), c) && At(Patterned(version, ecl), c) == dark
  {
    var s := SizeOf(version);
    FindersAt(Side(s), x, y, c);
    AfterFinders(version, ecl, c, dark);
    InParts(version, ecl);
    SettledBy(version, ecl, Timing(Side(s), s), Finders(Side(s)),
              AllAlignments(version) + (FormatPart(Side(s), ecl, 0) + VersionPart(version)), c, dark);
  }

  lemma {:induction false} TimingSettled(version: nat, ecl: EccLevel, c: Cell, dark: bool)
    requires IsVersion(version) && (c.x == 6 || c.y == 6) && Inside(c, SizeOf(version)) && dark == ((c.x + c.y) % 2 == 0)
    requires !Near(c, 3, 3) && !Near(c, SizeOf(version) - 4, 3) && !Near(c, 3, SizeOf(version) - 4)
    ensures Covers(FunctionPatterns(version, ecl), c) && At(Patterned(version, ecl), c) == dark
  {
    var s := SizeOf(version);
    TimingAgrees(Side(s), s, c);
    TimingCovers(Side(s), s, c);
    AfterTiming(version, ecl, c);
    InParts(version, ecl);
    SettledBy(version, ecl, [], Timing(Side(s), s),
              Finders(Side(s)) + (AllAlignments(version) + (FormatPart(Side(s), ecl, 0) + VersionPart(version))), c, dark);
  }

  lemma {:induction false} FinderModule(version: nat, ecl: EccLevel, codewords: seq<Byte>, mask: nat, x: int, y: int, c: Cell, dark: bool)
    requires IsVersion(version) && mask < 8 && Inside(c, SizeOf(version)) && Near(c, x, y) && InCorner(c, SizeOf(version))
    requires (x, y) == (3, 3) || (x, y) == (SizeOf(version) - 4, 3) || (x, y) == (3, SizeOf(version) - 4)
    requires dark == FinderDark(c.x - x, c.y - y)
    ensures At(Finished(version, ecl, codewords, mask), c) == dark
  {
    FinderSettled(version, ecl, x, y, c, dark);
    LaterElsewhere(version, ecl, c, dark);
    Kept(version, ecl, codewords, mask, c, dark);
  }

  lemma {:induction false} TimingModule(version: nat, ecl: EccLevel, codewords: seq<Byte>, mask: nat, c: Cell, dark: bool)
    requires IsVersion(version) && mask < 8 && Inside(c, SizeOf(version)) && (c.x == 6 || c.y == 6) && dark == ((c.x + c.y) % 2 == 0)
    requires !Near(c, 3, 3) && !Near(c, SizeOf(version) - 4, 3) && !Near(c, 3, SizeOf(version) - 4)
    ensures At(Finished(version, ecl, codewords, mask), c) == dark
  {
    TimingSettled(version, ecl, c, dark);
    LaterElsewhere(version, ecl, c, dark);
    Kept(version, ecl, codewords, mask, c, dark);
  }

  // The corners with a finder: at the top left, at the top right and at the bottom left.
  datatype Corner = TopLeft | TopRight | BottomLeft

  // Module (col, row) of a corner, counted from the corner inwards.
  function CornerCell(s: nat, corner: Corner, row: nat, col: nat): (c: Cell)
    requires s >= 21 && row < 8 && col < 8
    ensures Inside(c, s)
  {
    match corner
    case TopLeft => Cell(col, row)
    case TopRight => Cell(s - 1 - col, row)
    case BottomLeft => Cell(col, s - 1 - row)
  }

  lemma {:induction false} CornerMeans(s: nat, corner: Corner, row: nat, col: nat)
    requires s >= 21 && row < 8 && col < 8
    ensures var c, x, y := CornerCell(s, corner, row, col), (if corner.TopRight? then s - 4 else 3), if corner.BottomLeft? then s - 4 else 3;
      Near(c, x, y) && InCorner(c, s) && (FinderDark(c.x - x, c.y - y) <==> FinderPicture(row)[col] == '1')
  {
    FinderPictureIs(row, col);
  }

  /** The finder patterns with their borders, in every finished symbol: counted from its corner
      inwards, each shows the picture. */
  lemma {:induction false} FinderPictures(version: nat, ecl: EccLevel, codewords: seq<Byte>, mask: nat, corner: Corner, row: nat, col: nat)
    requires IsVersion(version) && mask < 8 && row < 8 && col < 8
    ensures At(Finished(version, ecl, codewords, mask), CornerCell(SizeOf(version), corner, row, col)) == (FinderPicture(row)[col] == '1')
  {
    var s := SizeOf(version);
    CornerMeans(s, corner, row, col);
    FinderModule(version, ecl, codewords, mask, if corner.TopRight? then s - 4 else 3, if corner.BottomLeft? then s - 4 else 3,
                 CornerCell(s, corner, row, col), FinderPicture(row)[col] == '1');
  }

  // Module k of the timing pattern across or down.
  function TimingCell(across: bool, k: nat): Cell {
    if across then Cell(k, 6) else Cell(6, k)
  }

  lemma {:induction false} TimingCellMeans(s: nat, across: bool, k: nat)
    requires 8 <= k < s - 8
    ensures var c := TimingCell(across, k);
      && Inside(c, s) && (c.x == 6 || c.y == 6) && ((c.x + c.y) % 2 == 0 <==> k % 2 == 0)
      && !Near(c, 3, 3) && !Near(c, s - 4, 3) && !Near(c, 3, s - 4)
  {
  }

  /** The timing patterns between the finders: in row 6 and in column 6 the modules with an even
      number are dark and the others light. */
  lemma {:induction false} TimingPictures(version: nat, ecl: EccLevel, codewords: seq<Byte>, mask: nat, across: bool, k: nat)
    requires IsVersion(version) && mask < 8 && 8 <= k < SizeOf(version) - 8
    ensures Inside(TimingCell(across, k), SizeOf(version))
    ensures At(Finished(version, ecl, codewords, mask), TimingCell(across, k)) == (k % 2 == 0)
  {
    TimingCellMeans(SizeOf(version), across, k);
    TimingModule(version, ecl, codewords, mask, TimingCell(across, k), k % 2 == 0);
  }

  // ---- alignment patterns on the grid ----

  // A pattern that is drawn stands clear of the format and the version information.
  lemma {:induction false} PatternElsewhere(version: nat, ecl: EccLevel, i: nat, j: nat, c: Cell, dark: bool)
    requires IsVersion(version) && version >= 2
    requires i < |AlignmentPositions(version)| && j < |AlignmentPositions(version)| && InPattern(AlignmentPositions(version), i, j, c)
    ensures Agrees(FormatPart(Side(SizeOf(version)), ecl, 0) + VersionPart(version), c, dark)
    ensures forall bits :: !Covers(Format(SizeOf(version), bits, 31), c)
  {
    var s, pos := SizeOf(version), AlignmentPositions(version);
    AlignmentsPlaced(version);
    PatternClear(pos, s, i, j, c);
    forall bits ensures !Covers(Format(s, bits, 31), c) {
      FormatOnly(s, bits, c);
    }
    VersionOnly(version, c);
    FormatPartIs(Side(s), ecl, 0);
    NotCovered(FormatPart(Side(s), ecl, 0), c, dark);
    NotCovered(VersionPart(version), c, dark);
    AgreesAppend(FormatPart(Side(s), ecl, 0), VersionPart(version), c, dark);
  }

  lemma {:induction false} PatternClear(pos: seq<nat>, s: nat, i: nat, j: nat, c: Cell)
    requires WellPlaced(pos, s) && i < |pos| && j < |pos| && InPattern(pos, i, j, c)
    ensures !(c.x == 8 && (c.y <= 8 || c.y + 8 >= s)) && !(c.y == 8 && (c.x <= 8 || c.x + 8 >= s))
    ensures !(c.y <= 5 && s - 11 <= c.x <= s - 9) && !(c.x <= 5 && s - 11 <= c.y <= s - 9)
  {
    if 0 < i < |pos| - 1 {
      InnerPosition(pos, s, i);
    }
    if 0 < j < |pos| - 1 {
      InnerPosition(pos, s, j);
    }
    assert pos[0] + 12 <= pos[|pos| - 1];
  }

  lemma {:induction false} AlignmentSettled(version: nat, ecl: EccLevel, i: nat, j: nat, c: Cell)
    requires IsVersion(version) && version >= 2 && Inside(c, SizeOf(version))
    requires i < |AlignmentPositions(version)| && j < |AlignmentPositions(version)| && InPattern(AlignmentPositions(version), i, j, c)
    ensures Covers(FunctionPatterns(version, ecl), c)
    ensures At(Patterned(version, ecl), c) == AlignmentDark(c.x - AlignmentPositions(version)[i], c.y - AlignmentPositions(version)[j])
  {
    var s, pos := SizeOf(version), AlignmentPositions(version);
    var dark := AlignmentDark(c.x - pos[i], c.y - pos[j]);
    AlignmentsPlaced(version);
    OnlyPattern(pos, s, i, j, c);
    AllAlignmentsAgree(version, c, dark);
    AllAlignmentsAre(version, s);
    IsInAny(pos, i, j, |pos|, c);
    AlignmentsCover(Side(s), pos, |pos|, c);
    PatternElsewhere(version, ecl, i, j, c, dark);
    InParts(version, ecl);
    SettledBy(version, ecl, Timing(Side(s), s) + Finders(Side(s)), AllAlignments(version),
              FormatPart(Side(s), ecl, 0) + VersionPart(version), c, dark);
  }

  // A pattern stands around each pair of positions, but for the three that meet a finder.
  predicate HasPattern(n: nat, i: nat, j: nat) {
    i < n && j < n && (i, j) != (0, 0) && (i, j) != (0, n - 1) && (i, j) != (n - 1, 0)
  }

  // Module (col, row) of the 5*5 square around positions i and j.
  function AlignmentCell(version: nat, i: nat, j: nat, row: nat, col: nat): (c: Cell)
    requires IsVersion(version) && row < 5 && col < 5
    requires i < |AlignmentPositions(version)| && j < |AlignmentPositions(version)|
    ensures Inside(c, SizeOf(version))
  {
    Cell(AlignmentPositions(version)[i] - 2 + col, AlignmentPositions(version)[j] - 2 + row)
  }

  lemma {:induction false} AlignmentCellMeans(version: nat, i: nat, j: nat, row: nat, col: nat)
    requires IsVersion(version) && row < 5 && col < 5 && HasPattern(|AlignmentPositions(version)|, i, j)
    ensures var c, pos := AlignmentCell(version, i, j, row, col), AlignmentPositions(version);
      && version >= 2 && InPattern(pos, i, j, c)
      && ((AlignmentPicture(row)[col] == '1') == AlignmentDark(c.x - pos[i], c.y - pos[j]))
  {
    AlignmentPictureIs(row, col);
  }

  /** Around each pair of alignment positions, but for the three that meet a finder, every finished
      symbol shows the picture of an alignment pattern. */
  lemma {:induction false} AlignmentPictures(version: nat, ecl: EccLevel, codewords: seq<Byte>, mask: nat, i: nat, j: nat, row: nat, col: nat)
    requires IsVersion(version) && mask < 8 && row < 5 && col < 5 && HasPattern(|AlignmentPositions(version)|, i, j)
    ensures At(Finished(version, ecl, codewords, mask), AlignmentCell(version, i, j, row, col)) == (AlignmentPicture(row)[col] == '1')
  {
    AlignmentCellMeans(version, i, j, row, col);
    AlignmentModule(version, ecl, codewords, mask, i, j, AlignmentCell(version, i, j, row, col), AlignmentPicture(row)[col] == '1');
  }

  lemma {:induction false} AlignmentModule(version: nat, ecl: EccLevel, codewords: seq<Byte>, mask: nat, i: nat, j: nat, c: Cell, dark: bool)
    requires IsVersion(version) && version >= 2 && mask < 8 && Inside(c, SizeOf(version))
    requires i < |AlignmentPositions(version)| && j < |AlignmentPositions(version)| && InPattern(AlignmentPositions(version), i, j, c)
    requires dark == AlignmentDark(c.x - AlignmentPositions(version)[i], c.y - AlignmentPositions(version)[j])
    ensures At(Finished(version, ecl, codewords, mask), c) == dark
  {
    AlignmentSettled(version, ecl, i, j, c);
    PatternElsewhere(version, ecl, i, j, c, dark);
    Kept(version, ecl, codewords, mask, c, dark);
  }

  // ---- where everything is ----

  // The positions of Annex E of the standard.
  function PositionsTable(version: nat): seq<nat>
    requires IsVersion(version)
  {
    match version
    case 1 => []
    case 2 => [6, 18]
    case 3 => [6, 22]
    case 4 => [6, 26]
    case 5 => [6, 30]
    case 6 => [6, 34]
    case 7 => [6, 22, 38]
    case 8 => [6, 24, 42]
    case 9 => [6, 26, 46]
    case 10 => [6, 28, 50]
    case 11 => [6, 30, 54]
    case 12 => [6, 32, 58]
    case 13 => [6, 34, 62]
    case 14 => [6, 26, 46, 66]
    case 15 => [6, 26, 48, 70]
    case 16 => [6, 26, 50, 74]
    case 17 => [6, 30, 54, 78]
    case 18 => [6, 30, 56, 82]
    case 19 => [6, 30, 58, 86]
    case 20 => [6, 34, 62, 90]
    case 21 => [6, 28, 50, 72, 94]
    case 22 => [6, 26, 50, 74, 98]
    case 23 => [6, 30, 54, 78, 102]
    case 24 => [6, 28, 54, 80, 106]
    case 25 => [6, 32, 58, 84, 110]
    case 26 => [6, 30, 58, 86, 114]
    case 27 => [6, 34, 62, 90, 118]
    case 28 => [6, 26, 50, 74, 98, 122]
    case 29 => [6, 30, 54, 78, 102, 126]
    case 30 => [6, 26, 52, 78, 104, 130]
    case 31 => [6, 30, 56, 82, 108, 134]
    case 32 => [6, 34, 60, 86, 112, 138]
    case 33 => [6, 30, 58, 86, 114, 142]
    case 34 => [6, 34, 62, 90, 118, 146]
    case 35 => [6, 30, 54, 78, 102, 126, 150]
    case 36 => [6, 24, 50, 76, 102, 128, 154]
    case 37 => [6, 28, 54, 80, 106, 132, 158]
    case 38 => [6, 32, 58, 84, 110, 136, 162]
    case 39 => [6, 26, 54, 82, 110, 138, 166]
    case _ => [6, 30, 58, 86, 114, 142, 170]
  }

  // The steps between them.
  function StepsTable(version: nat): nat
    requires 7 <= version <= 40
  {
    match version
    case 7 => 16 case 8 => 18 case 9 => 20 case 10 => 22 case 11 => 24 case 12 => 26 case 13 => 28
    case 14 => 20 case 15 => 22 case 16 => 24 case 17 => 24 case 18 => 26 case 19 => 28 case 20 => 28
    case 21 => 22 case 22 => 24 case 23 => 24 case 24 => 26 case 25 => 26 case 26 => 28 case 27 => 28
    case 28 => 24 case 29 => 24 case 30 => 26 case 31 => 26 case 32 => 26 case 33 => 28 case 34 => 28
    case 35 => 24 case 36 => 26 case 37 => 26 case 38 => 26 case 39 => 28 case _ => 28
  }

  lemma {:induction false} Steps7To13(version: nat)
    requires 7 <= version <= 13
    ensures Step(version) == StepsTable(version)
  {
  }

  lemma {:induction false} Steps14To20(version: nat)
    requires 14 <= version <= 20
    ensures Step(version) == StepsTable(version)
  {
  }

  lemma {:induction false} Steps21To27(version: nat)
    requires 21 <= version <= 27
    ensures Step(version) == StepsTable(version)
  {
  }

  lemma {:induction false} Steps28To34(version: nat)
    requires 28 <= version <= 34
    ensures Step(version) == StepsTable(version)
  {
  }

  lemma {:induction false} Steps35To40(version: nat)
    requires 35 <= version <= 40
    ensures Step(version) == StepsTable(version)
  {
  }

  lemma {:induction false} StepsAsInTable(version: nat)
    requires 7 <= version <= 40
    ensures Step(version) == StepsTable(version)
  {
    if version <= 13 {
      Steps7To13(version);
    } else if version <= 20 {
      Steps14To20(version);
    } else if version <= 27 {
      Steps21To27(version);
    } else if version <= 34 {
      Steps28To34(version);
    } else {
      Steps35To40(version);
    }
  }

  lemma {:induction false} Table1To6(version: nat)
    requires 1 <= version <= 6
    ensures AlignmentPositions(version) == PositionsTable(version)
  {
  }

  lemma {:induction false} Table7To13(version: nat)
    requires 7 <= version <= 13
    ensures AlignmentPositions(version) == PositionsTable(version)
  {
    StepsAsInTable(version);
  }

  lemma {:induction false} Table14To17(version: nat)
    requires 14 <= version <= 17
    ensures AlignmentPositions(version) == PositionsTable(version)
  {
    StepsAsInTable(version);
  }

  lemma {:induction false} Table18To20(version: nat)
    requires 18 <= version <= 20
    ensures AlignmentPositions(version) == PositionsTable(version)
  {
    StepsAsInTable(version);
  }

  lemma {:induction false} Table21To24(version: nat)
    requires 21 <= version <= 24
    ensures AlignmentPositions(version) == PositionsTable(version)
  {
    StepsAsInTable(version);
  }

  lemma {:induction false} Table25To27(version: nat)
    requires 25 <= version <= 27
    ensures AlignmentPositions(version) == PositionsTable(version)
  {
    StepsAsInTable(version);
  }

  lemma {:induction false} Table28To31(version: nat)
    requires 28 <= version <= 31
    ensures AlignmentPositions(version) == PositionsTable(version)
  {
    StepsAsInTable(version);
  }

  lemma {:induction false} Table32To34(version: nat)
    requires 32 <= version <= 34
    ensures AlignmentPositions(version) == PositionsTable(version)
  {
    StepsAsInTable(version);
  }

  lemma {:induction false} Table35To37(version: nat)
    requires 35 <= version <= 37
    ensures AlignmentPositions(version) == PositionsTable(version)
  {
    StepsAsInTable(version);
  }

  lemma {:induction false} Table38To40(version: nat)
    requires 38 <= version <= 40
    ensures AlignmentPositions(version) == PositionsTable(version)
  {
    StepsAsInTable(version);
  }

  /** The computed alignment positions are those of the standard's table. */
  lemma {:induction false} PositionsAsInTable(version: nat)
    requires IsVersion(version)
    ensures AlignmentPositions(version) == PositionsTable(version)
  {
    if version <= 6 {
      Table1To6(version);
    } else if version <= 13 {
      Table7To13(version);
    } else if version <= 17 {
      Table14To17(version);
    } else if version <= 20 {
      Table18To20(version);
    } else if version <= 24 {
      Table21To24(version);
    } else if version <= 27 {
      Table25To27(version);
    } else if version <= 31 {
      Table28To31(version);
    } else if version <= 34 {
      Table32To34(version);
    } else if version <= 37 {
      Table35To37(version);
    } else {
      Table38To40(version);
    }
  }

  // Bit k of the first copy of the format information is around the top left finder.
  function FirstCopy(k: nat): Cell
    requires k < 15
  {
    [Cell(8, 0), Cell(8, 1), Cell(8, 2), Cell(8, 3), Cell(8, 4), Cell(8, 5), Cell(8, 7), Cell(8, 8),
     Cell(7, 8), Cell(5, 8), Cell(4, 8), Cell(3, 8), Cell(2, 8), Cell(1, 8), Cell(0, 8)][k]
  }

  // That of the second copy is beside the other two: from the right edge inwards, then down to the
  // bottom edge.
  function SecondCopy(s: nat, k: nat): Cell
    requires s >= 21 && k < 15
  {
    if k < 8 then Cell(s - 1 - k, 8) else Cell(8, s - 15 + k)
  }

  lemma {:induction false} CopiesAre(s: nat, k: nat)
    requires s >= 21 && k < 15
    ensures FormatWrite(s, 0, k).cell == FirstCopy(k) && FormatWrite(s, 0, 15 + k).cell == SecondCopy(s, k)
    ensures forall bits :: FormatWrite(s, bits, k).dark == GetBit(bits, k) && FormatWrite(s, bits, 15 + k).dark == GetBit(bits, k)
  {
  }

  /** Both copies of the format information in a finished symbol, bit by bit, and the module beside
      the second one, which is always dark. */
  lemma {:induction false} FormatPictures(version: nat, ecl: EccLevel, codewords: seq<Byte>, mask: nat, k: nat)
    requires IsVersion(version) && mask < 8 && k < 15
    ensures Inside(FirstCopy(k), SizeOf(version)) && Inside(SecondCopy(SizeOf(version), k), SizeOf(version))
    ensures At(Finished(version, ecl, codewords, mask), FirstCopy(k)) == GetBit(FormatWord(ecl, mask), k)
    ensures At(Finished(version, ecl, codewords, mask), SecondCopy(SizeOf(version), k)) == GetBit(FormatWord(ecl, mask), k)
    ensures At(Finished(version, ecl, codewords, mask), Cell(8, SizeOf(version) - 8))
  {
    var s, l := SizeOf(version), LayoutOf(version);
    var g := Masked(WithCodewords(l, Patterned(version, ecl), codewords), l.f, mask);
    CopiesAre(s, k);
    FormatModule(g, s, FormatWord(ecl, mask), k);
    FormatModule(g, s, FormatWord(ecl, mask), 15 + k);
    FormatModule(g, s, FormatWord(ecl, mask), 30);
  }

  /** Both copies of the version information in a finished symbol from version 7 on, bit by bit:
      six columns of three above the bottom left finder, six rows of three beside the top right one. */
  lemma {:induction false} VersionPictures(version: nat, ecl: EccLevel, codewords: seq<Byte>, mask: nat, i: nat)
    requires IsVersion(version) && version >= 7 && mask < 8 && i < 18
    ensures At(Finished(version, ecl, codewords, mask), Cell(SizeOf(version) - 11 + i % 3, i / 3)) == GetBit(VersionWord(version), i)
    ensures At(Finished(version, ecl, codewords, mask), Cell(i / 3, SizeOf(version) - 11 + i % 3)) == GetBit(VersionWord(version), i)
  {
    VersionModule(version, ecl, codewords, mask, i, 0);
    VersionModule(version, ecl, codewords, mask, i, 1);
  }

  lemma {:induction false} VersionModule(version: nat, ecl: EccLevel, codewords: seq<Byte>, mask: nat, i: nat, copy: nat)
    requires IsVersion(version) && version >= 7 && mask < 8 && i < 18 && copy < 2
    ensures At(Finished(version, ecl, codewords, mask), VersionCell(SizeOf(version), i, copy)) == GetBit(VersionWord(version), i)
  {
    PatternedVersion(version, ecl, i, copy);
    VersionModulesMarked(version, i, copy);
    FormatElsewhere(SizeOf(version), FormatWord(ecl, mask), i, copy);
    PatternKept(LayoutOf(version), Patterned(version, ecl), ecl, codewords, mask, VersionCell(SizeOf(version), i, copy));
  }
}
