/** The QR Code object and its constructor (frontend/js/qrcodegen.js, class QrCode). */
module QrCodes {
  import opened Bits
  import opened FormatInfo
  import opened Grids
  import opened Outcomes
  import opened Patterns
  import opened Symbols
  import opened Rooms
  import opened ScanOrders
  import opened Tables
  import opened Zigzag
  import Interleaving
  import Penalty

  // Mask m scores best on top of grid u, and no lower mask scores as well.
  ghost predicate IsBestMask(l: Layout, u: Grid, ecl: EccLevel, m: nat)
    requires l.Sized() && Square(u, l.size)
  {
    && m < 8
    && (forall k: nat :: k < 8 ==> MaskScore(l, u, ecl, m) <= MaskScore(l, u, ecl, k))
    && (forall k: nat :: k < m ==> MaskScore(l, u, ecl, m) < MaskScore(l, u, ecl, k))
  }

  // The variables of the loop over masks.
  predicate SoFar(scores: seq<int>, best: nat, minPenalty: int) {
    if scores == [] then best == 8 && minPenalty == 1000000000 else IsFirstLeast(scores, best) && minPenalty == scores[best]
  }

  lemma {:induction false} SoFarPush(scores: seq<int>, best: nat, minPenalty: int, penalty: int)
    requires SoFar(scores, best, minPenalty) && penalty < 1000000000
    ensures if penalty < minPenalty then SoFar(scores + [penalty], |scores|, penalty) else SoFar(scores + [penalty], best, minPenalty)
  {
  }

  lemma {:induction false} LeastIsBest(l: Layout, u: Grid, ecl: EccLevel, scores: seq<int>, m: nat)
    requires l.Sized() && Square(u, l.size) && |scores| == 8 && IsFirstLeast(scores, m)
    requires forall k: nat :: k < 8 ==> scores[k] == MaskScore(l, u, ecl, k)
    ensures IsBestMask(l, u, ecl, m)
  {
  }

  // The penalty of the finished symbol with mask k.
  function MaskScore(l: Layout, u: Grid, ecl: EccLevel, k: nat): int
    requires l.Sized() && Square(u, l.size) && k < 8
  {
    ScoreOf(WithMask(l, u, ecl, k))
  }

  // The penalty of a grid (spelled out by ScoreOfMeans).
  function ScoreOf(g: Grid): int
    requires Square(g, |g|) && |g| > 0
  {
    ScoreAt(g, |g|)
  }

  // (The depth plays no part, as in Grids.SetsAt.)
  function ScoreAt(g: Grid, depth: nat): int
    requires Square(g, |g|) && |g| > 0
  {
    if depth > 0 then ScoreAt(g, depth - 1) else Penalty.Score(g)
  }

  lemma {:induction false} ScoreAtMeans(g: Grid, depth: nat)
    requires Square(g, |g|) && |g| > 0
    ensures ScoreAt(g, depth) == Penalty.Score(g)
  {
    if depth > 0 {
      ScoreAtMeans(g, depth - 1);
    }
  }

  lemma {:induction false} ScoreOfMeans(g: Grid)
    requires Square(g, |g|) && |g| > 0
    ensures ScoreOf(g) == Penalty.Score(g)
  {
    ScoreAtMeans(g, |g|);
  }

  lemma {:induction false} Assoc<T>(a: seq<T>, b: seq<T>, c: seq<T>)
    ensures (a + b) + c == a + (b + c)
  {
  }

  /** What the constructor makes of the data codewords before drawing (spelled out by
      AllCodewordsAre). */
  function AllCodewords(tables: CodeTables, version: nat, ecl: EccLevel, data: seq<Byte>): Outcome<seq<Byte>>
    requires tables.Valid() && IsVersion(version)
  {
    AllCodewordsAt(tables, version, ecl, data, SizeOf(version))
  }

  // (The depth plays no part, as in Grids.SetsAt.)
  function AllCodewordsAt(tables: CodeTables, version: nat, ecl: EccLevel, data: seq<Byte>, depth: nat): Outcome<seq<Byte>>
    requires tables.Valid() && IsVersion(version)
    decreases depth
  {
    if depth > 0 then AllCodewordsAt(tables, version, ecl, data, depth - 1)
    else
      Interleaving.EccAndInterleaved(
        tables.Blocks(version, ecl), tables.EccLen(version, ecl), RawCodewords(version), data)
  }

  lemma {:induction false} AllCodewordsAtAre(tables: CodeTables, version: nat, ecl: EccLevel, data: seq<Byte>, depth: nat)
    requires tables.Valid() && IsVersion(version)
    ensures AllCodewordsAt(tables, version, ecl, data, depth) == AllCodewordsAt(tables, version, ecl, data, 0)
    decreases depth
  {
    if depth > 0 {
      AllCodewordsAtAre(tables, version, ecl, data, depth - 1);
    }
  }

  lemma {:induction false} AllCodewordsAre(tables: CodeTables, version: nat, ecl: EccLevel, data: seq<Byte>)
    requires tables.Valid() && IsVersion(version)
    ensures AllCodewords(tables, version, ecl, data)
         == Interleaving.EccAndInterleaved(
              tables.Blocks(version, ecl), tables.EccLen(version, ecl), RawCodewords(version), data)
  {
    AllCodewordsAtAre(tables, version, ecl, data, SizeOf(version));
  }

  lemma {:induction false} AllCodewordsLength(tables: CodeTables, version: nat, ecl: EccLevel, data: seq<Byte>)
    requires tables.Valid() && IsVersion(version)
    requires AllCodewords(tables, version, ecl, data).Done?
    ensures |AllCodewords(tables, version, ecl, data).value| == RawCodewords(version)
  {
    AllCodewordsAre(tables, version, ecl, data);
    var p := Interleaving.ShapeOf(tables.Blocks(version, ecl), tables.EccLen(version, ecl), RawCodewords(version));
    Interleaving.DataRecovered(p, data);
  }

  // Function patterns and codewords of a symbol, before any mask.
  function UnmaskedSymbol(version: nat, ecl: EccLevel, codewords: seq<Byte>): (u: Grid)
    requires IsVersion(version)
    ensures Square(u, SizeOf(version))
  {
    WithCodewords(LayoutOf(version), Patterned(version, ecl), codewords)
  }

  // The first index of the least entry.
  predicate IsFirstLeast(scores: seq<int>, m: nat) {
    && m < |scores|
    && (forall k :: 0 <= k < |scores| ==> scores[m] <= scores[k])
    && (forall k :: 0 <= k < m ==> scores[m] < scores[k])
  }

  class QrCode {
    const version: nat
    const size: nat
    const ecl: EccLevel
    var modules: Grid
    var isFunction: Grid
    var mask: int

    // The grids as they were when the log of function module writes was last emptied.
    ghost var modulesBefore: Grid
    ghost var isFunctionBefore: Grid
    ghost var log: seq<Write>

    ghost predicate Valid()
      reads this
    {
      && IsVersion(version) && size == SizeOf(version) && |modulesBefore| == size
      && Sets(modulesBefore, isFunctionBefore, log, modules, isFunction)
    }

    constructor Empty(version: nat, ecl: EccLevel)
      requires IsVersion(version)
      ensures Valid() && this.version == version && this.ecl == ecl && log == []
      ensures modulesBefore == isFunctionBefore == Blank(size)
    {
      this.version := version;
      this.ecl := ecl;
      size := SizeOf(version);
      modules := Blank(SizeOf(version));
      isFunction := Blank(SizeOf(version));
      modulesBefore := Blank(SizeOf(version));
      isFunctionBefore := Blank(SizeOf(version));
      log := [];
      mask := 0;
      new;
      SetsMeans(modulesBefore, isFunctionBefore, log, modules, isFunction);
    }

    // Both grids have the symbol's size.
    ghost predicate Ready()
      reads this
    {
      IsVersion(version) && size == SizeOf(version) && Square(modules, size) && Square(isFunction, size)
    }

    // Begins a new log.
    ghost method Rebase()
      requires Ready()
      modifies this`modulesBefore, this`isFunctionBefore, this`log
      ensures Valid() && log == [] && modulesBefore == modules && isFunctionBefore == isFunction
    {
      modulesBefore, isFunctionBefore, log := modules, isFunction, [];
      SetsMeans(modulesBefore, isFunctionBefore, log, modules, isFunction);
    }

    // What the log says about the grids.
    lemma {:induction false} Logged()
      requires Valid()
      ensures Ready() && Square(modulesBefore, size) && Square(isFunctionBefore, size) && AllInside(log, size)
      ensures modules == Apply(modulesBefore, log) && isFunction == Apply(isFunctionBefore, Marks(log))
    {
      SetsMeans(modulesBefore, isFunctionBefore, log, modules, isFunction);
    }

    // ---- drawing function modules ----

    method SetFunctionModule(x: nat, y: nat, isDark: bool)
      requires Valid() && x < size && y < size
      modifies this`modules, this`isFunction, this`log
      ensures Valid() && log == old(log) + [Write(Cell(x, y), isDark)]
    {
      ghost var w := Write(Cell(x, y), isDark);
      SetsOne(modulesBefore, isFunctionBefore, log, modules, isFunction, w);
      modules := Set(modules, Cell(x, y), isDark);
      isFunction := Set(isFunction, Cell(x, y), true);
      log := log + [w];
    }

    method DrawTiming()
      requires Valid()
      modifies this`modules, this`isFunction, this`log
      ensures Valid() && log == old(log) + Timing(Side(size), size)
    {
      for i := 0 to size
        invariant Valid() && log == old(log) + Timing(Side(size), i)
      {
        ghost var one, two := [Write(Cell(6, i), i % 2 == 0)], [Write(Cell(i, 6), i % 2 == 0)];
        SetFunctionModule(6, i, i % 2 == 0);
        SetFunctionModule(i, 6, i % 2 == 0);
        Assoc(old(log), Timing(Side(size), i), one);
        Assoc(old(log), Timing(Side(size), i) + one, two);
      }
    }

    method DrawFinderPattern(x: int, y: int)
      requires Valid()
      modifies this`modules, this`isFunction, this`log
      ensures Valid() && log == old(log) + WholeFinder(Side(size), x, y)
    {
      for dy := -4 to 5
        invariant Valid() && log == old(log) + Finder(Side(size), x, y, dy + 4)
      {
        DrawFinderRow(x, y, dy);
        Assoc(old(log), Finder(Side(size), x, y, dy + 4), FinderRow(Side(size), x, y, dy, 9));
      }
      WholeFinderIs(Side(size), x, y);
    }

    method DrawFinderRow(x: int, y: int, dy: int)
      requires Valid()
      modifies this`modules, this`isFunction, this`log
      ensures Valid() && log == old(log) + FinderRow(Side(size), x, y, dy, 9)
    {
      for dx := -4 to 5
        invariant Valid() && log == old(log) + FinderRow(Side(size), x, y, dy, dx + 4)
      {
        var dist := Dist(dx, dy);
        var xx, yy := x + dx, y + dy;
        if 0 <= xx < size && 0 <= yy < size {
          SetFunctionModule(xx, yy, dist != 2 && dist != 4);
          Assoc(old(log), FinderRow(Side(size), x, y, dy, dx + 4), [Write(Cell(xx, yy), dist != 2 && dist != 4)]);
        }
      }
    }

    method DrawAlignmentPattern(x: nat, y: nat)
      requires Valid() && 2 <= x < size - 2 && 2 <= y < size - 2
      modifies this`modules, this`isFunction, this`log
      ensures Valid() && log == old(log) + Alignment(Side(size), x, y, 5)
    {
      for dy := -2 to 3
        invariant Valid() && log == old(log) + Alignment(Side(size), x, y, dy + 2)
      {
        ghost var before := log;
        for dx := -2 to 3
          invariant Valid() && log == before + AlignmentRow(Side(size), x, y, dy, dx + 2)
        {
          SetFunctionModule(x + dx, y + dy, Dist(dx, dy) != 1);
          Assoc(before, AlignmentRow(Side(size), x, y, dy, dx + 2), [Write(Cell(x + dx, y + dy), Dist(dx, dy) != 1)]);
        }
        Assoc(old(log), Alignment(Side(size), x, y, dy + 2), AlignmentRow(Side(size), x, y, dy, 5));
      }
    }

    method DrawAlignmentPatterns()
      requires Valid()
      modifies this`modules, this`isFunction, this`log
      ensures Valid() && log == old(log) + AllAlignments(version)
    {
      var pos := GetAlignmentPatternPositions(version);
      for i := 0 to |pos|
        invariant Valid() && log == old(log) + Alignments(Side(size), pos, i)
      {
        DrawAlignmentsAt(pos, i);
        Assoc(old(log), Alignments(Side(size), pos, i), AlignmentsAt(Side(size), pos, i, |pos|));
      }
      AllAlignmentsAre(version, SizeOf(version));
    }

    method DrawAlignmentsAt(pos: seq<nat>, i: nat)
      requires Valid() && Placeable(size, pos) && i < |pos|
      modifies this`modules, this`isFunction, this`log
      ensures Valid() && log == old(log) + AlignmentsAt(Side(size), pos, i, |pos|)
    {
      for j := 0 to |pos|
        invariant Valid() && log == old(log) + AlignmentsAt(Side(size), pos, i, j)
      {
        DrawUnlessCorner(pos[i], pos[j], IsFinderCorner(i, j, |pos|));
        AlignmentsAtStep(old(log), size, pos, i, j);
      }
    }

    // Where a finder pattern stands, nothing is drawn.
    method DrawUnlessCorner(x: nat, y: nat, isCorner: bool)
      requires Valid() && 2 <= x < size - 2 && 2 <= y < size - 2
      modifies this`modules, this`isFunction, this`log
      ensures Valid() && log == old(log) + AlignmentUnless(Side(size), x, y, isCorner)
    {
      if !isCorner {
        DrawAlignmentPattern(x, y);
      }
    }

    /** drawFormatBits. */
    method DrawFormatBits(mask: nat)
      requires Valid() && mask < 8
      modifies this`modules, this`isFunction, this`log
      ensures Valid() && log == old(log) + Format(size, FormatWord(ecl, mask), 31)
    {
      var bits := ComputeFormatWord(ecl, mask);
      for k := 0 to 31
        invariant Valid() && log == old(log) + Format(size, bits, k)
      {
        var w := FormatWrite(size, bits, k);
        SetFunctionModule(w.cell.x, w.cell.y, w.dark);
        Assoc(old(log), Format(size, bits, k), [w]);
        FormatStep(size, bits, k);
      }
    }

    /** drawVersion. */
    method DrawVersion()
      requires Valid()
      modifies this`modules, this`isFunction, this`log
      ensures Valid() && log == old(log) + VersionPart(version)
    {
      if version < 7 {
        return;
      }
      var bits := ComputeVersionWord(version);
      for i := 0 to 18
        invariant Valid() && log == old(log) + VersionInfo(Side(size), bits, i)
      {
        var color := GetBit(bits, i);
        var a, b := size - 11 + i % 3, i / 3;
        ghost var one, two := [Write(Cell(a, b), color)], [Write(Cell(b, a), color)];
        VersionStep(size, bits, i);
        SetFunctionModule(a, b, color);
        SetFunctionModule(b, a, color);
        Assoc(old(log), VersionInfo(Side(size), bits, i), one);
        Assoc(old(log), VersionInfo(Side(size), bits, i) + one, two);
      }
    }

    method DrawFinders()
      requires Valid()
      modifies this`modules, this`isFunction, this`log
      ensures Valid() && log == old(log) + Finders(Side(size))
    {
      ghost var a, b := WholeFinder(Side(size), 3, 3), WholeFinder(Side(size), size - 4, 3);
      ghost var c := WholeFinder(Side(size), 3, size - 4);
      DrawFinderPattern(3, 3);
      DrawFinderPattern(size - 4, 3);
      Assoc(old(log), a, b);
      DrawFinderPattern(3, size - 4);
      Assoc(old(log), a + b, c);
    }

    /** drawFunctionPatterns. */
    method DrawFunctionPatterns()
      requires Valid()
      modifies this`modules, this`isFunction, this`log
      ensures Valid() && log == old(log) + AllPatterns(version, ecl)
    {
      ghost var t, f, a := Timing(Side(size), size), Finders(Side(size)), AllAlignments(version);
      ghost var m, v := FormatPart(Side(size), ecl, 0), VersionPart(version);
      DrawTiming();
      DrawFinders();
      Assoc(old(log), t, f);
      DrawAlignmentPatterns();
      Assoc(old(log), t + f, a);
      DrawFormatBits(0); // a placeholder until the mask is known
      FormatPartIs(Side(size), ecl, 0);
      Assoc(old(log), t + f + a, m);
      DrawVersion();
      Assoc(old(log), t + f + a + m, v);
    }

    // ---- codewords and masks ----

    /** drawCodewords, along the scan of the symbol. */
    method DrawCodewords(data: seq<Byte>, ghost path: seq<Cell>) returns (r: Outcome<()>)
      requires Ready() && IsScan(path, size)
      modifies this`modules
      ensures Ready()
      ensures |data| != RawCodewords(version) ==> r == RangeError && modules == old(modules)
      ensures |data| == RawCodewords(version) ==>
        && modules == Draw(old(modules), isFunction, path, BitsOf(data))
        && r == if Free(isFunction, path) >= 8 * |data| then Done(()) else AssertionError
    {
      if |data| != RawCodewords(version) {
        return RangeError;
      }
      ghost var m := modules;
      PathIsScan(size);
      ScanUnique(path, Path(Side(size)), size);
      PathIs(size);
      var i := ScanSymbol(data, path);
      DrawingMeans(m, isFunction, path, BitsOf(data), modules, i);
      r := if i == |data| * 8 then Done(()) else AssertionError;
    }

    // The loop over the column pairs.
    method ScanSymbol(data: seq<Byte>, ghost path: seq<Cell>) returns (i: nat)
      requires Ready() && path == Pairs(Side(size), size / 2)
      modifies this`modules
      ensures Ready() && Drawing(old(modules), isFunction, path, BitsOf(data), modules, i)
    {
      i := 0;
      var right := size - 1;
      ghost var p := 0;
      ghost var m := modules;
      DrawingStart(m, isFunction, BitsOf(data));
      assert Pairs(Side(size), p) == [];
      while right >= 1
        invariant p <= size / 2 && right == RightBefore(size, p)
        invariant Ready() && Drawing(m, isFunction, Pairs(Side(size), p), BitsOf(data), modules, i)
        decreases right
      {
        right, i := DrawNextPair(data, right, i, m, p);
        p := p + 1;
      }
      LastRight(size, p);
    }

    // One turn of that loop.
    method DrawNextPair(data: seq<Byte>, right: nat, start: nat, ghost m: Grid, ghost p: nat) returns (next: int, i: nat)
      requires Ready() && Square(m, size)
      requires p <= size / 2 && right == RightBefore(size, p) && right >= 1
      requires Drawing(m, isFunction, Pairs(Side(size), p), BitsOf(data), modules, start)
      modifies this`modules
      ensures Ready() && p < size / 2 && next == RightBefore(size, p + 1)
      ensures Drawing(m, isFunction, Pairs(Side(size), p + 1), BitsOf(data), modules, i)
    {
      RightStep(size, p);
      next := if right == 6 then 5 else right;
      i := DrawColumnPair(data, next, start, m, Pairs(Side(size), p));
      next := next - 2;
    }

    // The scan of one pair of columns, of which `right` is the right one.
    method DrawColumnPair(data: seq<Byte>, right: nat, start: nat, ghost m: Grid, ghost path: seq<Cell>)
      returns (i: nat)
      requires Ready() && 1 <= right < size && Square(m, size)
      requires Drawing(m, isFunction, path, BitsOf(data), modules, start)
      modifies this`modules
      ensures Ready()
      ensures Drawing(m, isFunction, path + WholePair(Side(size), right), BitsOf(data), modules, i)
    {
      i := start;
      ghost var bits := BitsOf(data);
      assert path + ColumnPair(Side(size), right, 0) == path;
      for vert := 0 to size
        invariant Ready()
        invariant Drawing(m, isFunction, path + ColumnPair(Side(size), right, vert), bits, modules, i)
      {
        var y := RowAt(size, right, vert);
        ghost var before := path + ColumnPair(Side(size), right, vert);
        i := DrawModule(data, Cell(right, y), i, m, before);
        i := DrawModule(data, Cell(right - 1, y), i, m, before + [Cell(right, y)]);
        PairAppended(path, size, right, vert);
      }
      WholePairIs(Side(size), right);
    }

    // One module of the scan.
    method DrawModule(data: seq<Byte>, c: Cell, start: nat, ghost m: Grid, ghost path: seq<Cell>)
      returns (i: nat)
      requires Ready() && Inside(c, size) && Square(m, size)
      requires Drawing(m, isFunction, path, BitsOf(data), modules, start)
      modifies this`modules
      ensures Ready() && Drawing(m, isFunction, path + [c], BitsOf(data), modules, i)
    {
      i := start;
      DrawingStep(m, isFunction, path, BitsOf(data), modules, i, c);
      if !At(isFunction, c) && i < |data| * 8 {
        modules := Set(modules, c, GetBit(data[i / 8], 7 - i % 8));
        i := i + 1;
      }
    }

    /** applyMask. */
    method ApplyMask(mask: int) returns (r: Outcome<()>)
      requires Ready()
      modifies this`modules
      ensures Ready()
      ensures r == if 0 <= mask <= 7 then Done(()) else RangeError
      ensures modules == if 0 <= mask <= 7 then Masked(old(modules), isFunction, mask) else old(modules)
    {
      if mask < 0 || mask > 7 {
        return RangeError;
      }
      ghost var m := modules;
      for y := 0 to size
        invariant Ready()
        invariant forall c :: Inside(c, size) ==>
          At(modules, c) == MaskedModule(At(m, c), At(isFunction, c), c.y < y && Inverts(mask, c))
      {
        for x := 0 to size
          invariant Ready()
          invariant forall c :: Inside(c, size) ==>
            At(modules, c) == MaskedModule(At(m, c), At(isFunction, c),
                                           (c.y < y || (c.y == y && c.x < x)) && Inverts(mask, c))
        {
          var c := Cell(x, y);
          if !At(isFunction, c) && Inverts(mask, c) {
            modules := Set(modules, c, !At(modules, c));
          }
        }
      }
      SameCells(modules, Masked(m, isFunction, mask));
      return Done(());
    }

    // ---- the constructor ----

    // The grids are those of an unmasked symbol u, whatever the format bits.
    ghost predicate Trial(l: Layout, u: Grid)
      reads this
    {
      Ready() && l.Proper() && l.size == size && isFunction == l.f && SameButFormat(modules, u, size)
    }

    // Applies a mask and draws its format bits.
    method PutMask(mask: nat, ghost l: Layout, ghost u: Grid)
      requires Trial(l, u) && mask < 8
      modifies this`modules, this`isFunction, this`modulesBefore, this`isFunctionBefore, this`log
      ensures Ready() && isFunction == l.f
      ensures modules == WithMask(l, u, ecl, mask)
    {
      TrialIsFinal(l, modules, u, ecl, mask);
      var _ := ApplyMask(mask);
      Rebase();
      DrawFormatBits(mask);
      Logged();
      FormatAlreadyMarked(l, FormatWord(ecl, mask));
      assert log == Format(size, FormatWord(ecl, mask), 31);
    }

    // One turn of the loop over masks: the score with mask i, and the mask undone.
    method TryMask(i: nat, ghost l: Layout, ghost u: Grid) returns (penalty: int)
      requires Trial(l, u) && i < 8
      modifies this`modules, this`isFunction, this`modulesBefore, this`isFunctionBefore, this`log
      ensures Trial(l, u)
      ensures penalty == MaskScore(l, u, ecl, i) && 0 <= penalty < 1000000000
    {
      PutMask(i, l, u);
      penalty := Penalty.GetPenaltyScore(modules);
      ScoreOfMeans(modules);
      TrialUndone(l, u, ecl, i);
      var _ := ApplyMask(i); // undoes the mask
    }

    // Tries every mask and leaves the grids as they were, but for the format bits.
    method ChooseMask(ghost l: Layout, ghost u: Grid) returns (best: nat)
      requires Trial(l, u)
      modifies this`modules, this`isFunction, this`modulesBefore, this`isFunctionBefore, this`log
      ensures Trial(l, u) && IsBestMask(l, u, ecl, best)
    {
      best := 8;
      var minPenalty := 1000000000;
      ghost var scores: seq<int> := [];
      for i := 0 to 8
        invariant Trial(l, u)
        invariant |scores| == i && forall k: nat :: k < i ==> scores[k] == MaskScore(l, u, ecl, k)
        invariant SoFar(scores, best, minPenalty)
      {
        var penalty := TryMask(i, l, u);
        SoFarPush(scores, best, minPenalty, penalty);
        if penalty < minPenalty {
          best := i;
          minPenalty := penalty;
        }
        scores := scores + [penalty];
      }
      LeastIsBest(l, u, ecl, scores, best);
    }

    method DrawEverything()
      requires Valid() && log == []
      modifies this`modules, this`isFunction, this`log
      ensures Valid() && log == FunctionPatterns(version, ecl)
    {
      DrawFunctionPatterns();
      assert old(log) + AllPatterns(version, ecl) == AllPatterns(version, ecl);
      FunctionPatternsAre(version, ecl, SizeOf(version));
    }

    // The function patterns on blank grids.
    method DrawPatterns()
      requires Valid() && log == [] && modulesBefore == isFunctionBefore == Blank(size)
      modifies this`modules, this`isFunction, this`log
      ensures Ready() && isFunction == LayoutOf(version).f && modules == Patterned(version, ecl)
    {
      DrawEverything();
      Logged();
      LayoutIs(version, ecl);
    }

    // The codewords on top of them.
    method DrawData(codewords: seq<Byte>, ghost l: Layout, ghost g: Grid) returns (r: Outcome<()>)
      requires Ready() && l.Sized() && l.size == size && l.path == Path(Side(size))
      requires isFunction == l.f && modules == g
      requires |codewords| == RawCodewords(version)
      modifies this`modules
      ensures Ready() && modules == WithCodewords(l, g, codewords)
      ensures r == if l.HasRoom(codewords) then Done(()) else AssertionError
    {
      PathIsScan(size);
      r := DrawCodewords(codewords, l.path);
    }

    // Puts the requested mask, or the best one.
    method Finish(msk: int, ghost l: Layout, ghost u: Grid)
      requires Trial(l, u) && -1 <= msk <= 7
      modifies this
      ensures IsSymbol(l, u, msk)
    {
      var choice: nat;
      if msk == -1 {
        choice := ChooseMask(l, u);
      } else {
        choice := msk;
      }
      PutMask(choice, l, u);
      mask := choice;
      isFunction := [];
    }

    /** The finished object: the mask is the requested one, or the best if none was requested. */
    ghost predicate IsSymbol(l: Layout, u: Grid, msk: int)
      requires l.Sized() && Square(u, l.size)
      reads this
    {
      && size == l.size && 0 <= mask < 8
      && (if msk == -1 then IsBestMask(l, u, ecl, mask) else mask == msk)
      && modules == WithMask(l, u, ecl, mask)
    }

    /** The constructor. With msk -1 the best mask is chosen. */
    static method Create(tables: CodeTables, version: int, ecl: EccLevel, dataCodewords: seq<Byte>, msk: int)
      returns (r: Outcome<QrCode>)
      requires tables.Valid()
      ensures !IsVersion(version) || msk < -1 || msk > 7 ==> r == RangeError
      ensures IsVersion(version) && -1 <= msk <= 7 ==>
        match AllCodewords(tables, version, ecl, dataCodewords)
        case Done(codewords) =>
          && r.Done? && fresh(r.value) && r.value.version == version && r.value.ecl == ecl
          && r.value.IsSymbol(LayoutOf(version), UnmaskedSymbol(version, ecl, codewords), msk)
        case _ => r == RangeError
    {
      if version < MIN_VERSION || version > MAX_VERSION {
        return RangeError;
      }
      if msk < -1 || msk > 7 {
        return RangeError;
      }
      var qr := new QrCode.Empty(version, ecl);
      var codewords := Interleaving.AddEccAndInterleave(
        tables.Blocks(version, ecl), tables.EccLen(version, ecl), RawCodewords(version), dataCodewords);
      AllCodewordsAre(tables, version, ecl, dataCodewords);
      if !codewords.Done? {
        return RangeError;
      }
      AllCodewordsLength(tables, version, ecl, dataCodewords);
      qr.DrawPatterns();
      LayoutPath(version);
      RoomForCodewords(version);
      var drawn := qr.DrawData(codewords.value, LayoutOf(version), Patterned(version, ecl));
      assert drawn.Done?; // the assertion of drawCodewords
      LayoutProper(version);
      qr.Finish(msk, LayoutOf(version), UnmaskedSymbol(version, ecl, codewords.value));
      return Done(qr);
    }
  }

  // The scan has dealt with the modules of the path and consumed i bits (spelled out by
  // DrawingMeans).
  ghost predicate Drawing(m: Grid, f: Grid, path: seq<Cell>, bits: seq<bool>, modules: Grid, i: nat)
    requires Square(m, |m|) && Square(f, |m|)
  {
    DrawingAt(m, f, path, bits, modules, i, |m|)
  }

  // (The depth plays no part, as in Grids.SetsAt.)
  ghost predicate DrawingAt(m: Grid, f: Grid, path: seq<Cell>, bits: seq<bool>, modules: Grid, i: nat, depth: nat)
    requires Square(m, |m|) && Square(f, |m|)
  {
    if depth > 0 then DrawingAt(m, f, path, bits, modules, i, depth - 1)
    else
      && AllIn(path, |m|) && modules == Draw(m, f, path, bits)
      && i == if Free(f, path) < |bits| then Free(f, path) else |bits|
  }

  lemma {:induction false} DrawingAtMeans(m: Grid, f: Grid, path: seq<Cell>, bits: seq<bool>, modules: Grid, i: nat, depth: nat)
    requires Square(m, |m|) && Square(f, |m|)
    ensures DrawingAt(m, f, path, bits, modules, i, depth) <==> DrawingAt(m, f, path, bits, modules, i, 0)
  {
    if depth > 0 {
      DrawingAtMeans(m, f, path, bits, modules, i, depth - 1);
    }
  }

  lemma {:induction false} DrawingMeans(m: Grid, f: Grid, path: seq<Cell>, bits: seq<bool>, modules: Grid, i: nat)
    requires Square(m, |m|) && Square(f, |m|)
    ensures Drawing(m, f, path, bits, modules, i) <==>
            && AllIn(path, |m|) && modules == Draw(m, f, path, bits)
            && i == if Free(f, path) < |bits| then Free(f, path) else |bits|
  {
    DrawingAtMeans(m, f, path, bits, modules, i, |m|);
  }

  lemma {:induction false} DrawingStart(m: Grid, f: Grid, bits: seq<bool>)
    requires Square(m, |m|) && Square(f, |m|)
    ensures Drawing(m, f, [], bits, m, 0)
  {
    DrawingMeans(m, f, [], bits, m, 0);
  }

  // One more module of the scan.
  lemma {:induction false} DrawingStep(m: Grid, f: Grid, path: seq<Cell>, bits: seq<bool>, modules: Grid, i: nat, c: Cell)
    requires Square(m, |m|) && Square(f, |m|) && Inside(c, |m|)
    requires Drawing(m, f, path, bits, modules, i)
    ensures Square(modules, |m|) && i <= |bits|
    ensures if !At(f, c) && i < |bits|
            then Drawing(m, f, path + [c], bits, Set(modules, c, bits[i]), i + 1)
            else Drawing(m, f, path + [c], bits, modules, i)
  {
    DrawingMeans(m, f, path, bits, modules, i);
    PathStep(path, c);
    if !At(f, c) && i < |bits| {
      DrawingMeans(m, f, path + [c], bits, Set(modules, c, bits[i]), i + 1);
    } else {
      DrawingMeans(m, f, path + [c], bits, modules, i);
    }
  }

  // The loop variable before pair p: the correction from 6 to 5 happens inside the loop.
  function RightBefore(s: nat, p: nat): int
    requires s >= 1
  {
    if p == 0 then s - 1
    else
      var right := RightBefore(s, p - 1);
      (if right == 6 then 5 else right) - 2
  }

  lemma {:induction false} RightBeforeIs(s: nat, p: nat)
    requires SymbolSize(s) && p <= s / 2
    ensures RightBefore(s, p) == if s - 1 - 2 * p <= 4 then s - 2 - 2 * p else s - 1 - 2 * p
  {
    if p > 0 {
      RightBeforeIs(s, p - 1);
    }
  }

  lemma {:induction false} RightStep(s: nat, p: nat)
    requires SymbolSize(s) && p <= s / 2 && RightBefore(s, p) >= 1
    ensures p < s / 2 && RightOf(s, p) == if RightBefore(s, p) == 6 then 5 else RightBefore(s, p)
    ensures Pairs(Side(s), p + 1) == Pairs(Side(s), p) + WholePair(Side(s), RightOf(s, p))
  {
    RightBeforeIs(s, p);
  }

  lemma {:induction false} LastRight(s: nat, p: nat)
    requires SymbolSize(s) && p <= s / 2 && RightBefore(s, p) < 1
    ensures p == s / 2
  {
    RightBeforeIs(s, p);
  }

  lemma {:induction false} PairAppended(path: seq<Cell>, s: nat, right: nat, vert: nat)
    requires 1 <= right < s && vert < s
    ensures var y := RowAt(s, right, vert);
      path + ColumnPair(Side(s), right, vert + 1)
      == (path + ColumnPair(Side(s), right, vert)) + [Cell(right, y)] + [Cell(right - 1, y)]
  {
  }

  // ---- one step of each list of writes ----

  lemma {:induction false} AlignmentsAtStep(before: seq<Write>, s: nat, pos: seq<nat>, i: nat, j: nat)
    requires Placeable(s, pos) && i < |pos| && j < |pos|
    ensures (before + AlignmentsAt(Side(s), pos, i, j)) + AlignmentUnless(Side(s), pos[i], pos[j], IsFinderCorner(i, j, |pos|))
         == before + AlignmentsAt(Side(s), pos, i, j + 1)
  {
    Assoc(before, AlignmentsAt(Side(s), pos, i, j), AlignmentUnless(Side(s), pos[i], pos[j], IsFinderCorner(i, j, |pos|)));
  }

  lemma {:induction false} FormatStep(s: nat, bits: nat, k: nat)
    requires s >= 21 && k < 31
    ensures Format(s, bits, k + 1) == Format(s, bits, k) + [FormatWrite(s, bits, k)]
  {
  }

  lemma {:induction false} VersionStep(s: nat, bits: nat, i: nat)
    requires s >= 21 && i < 18
    ensures var a, b := s - 11 + i % 3, i / 3;
      VersionInfo(Side(s), bits, i + 1)
      == VersionInfo(Side(s), bits, i) + [Write(Cell(a, b), GetBit(bits, i))] + [Write(Cell(b, a), GetBit(bits, i))]
  {
  }

  /** getAlignmentPatternPositions: positions are inserted behind the first, from the far edge. */
  method GetAlignmentPatternPositions(version: nat) returns (result: seq<nat>)
    requires IsVersion(version)
    ensures result == AlignmentPositions(version)
    ensures forall i, j :: 0 <= i < j < |result| ==> result[i] < result[j]
  {
    if version == 1 {
      return [];
    }
    StepsFit(version);
    result := InsertPositions(SizeOf(version), NumAlign(version), Step(version));
    forall i, j | 0 <= i < j < |result| ensures result[i] < result[j] {
      PositionsAscend(SizeOf(version), NumAlign(version), Step(version), i, j);
    }
  }

  method InsertPositions(size: nat, numAlign: nat, step: nat) returns (result: seq<nat>)
    requires numAlign >= 2 && size >= 13 && (numAlign - 2) * step <= size - 13
    ensures result == PositionsOf(size, numAlign, step)
  {
    result := [6];
    ghost var all := PositionsOf(size, numAlign, step);
    var pos: int := size - 7;
    while |result| < numAlign
      invariant 1 <= |result| <= numAlign
      invariant pos == size - 7 - (|result| - 1) * step
      invariant result[0] == 6 && result[1..] == all[numAlign - |result| + 1..]
      decreases numAlign - |result|
    {
      var k := |result|;
      assert all[numAlign - k] == Position(size, numAlign, step, numAlign - k) == pos;
      assert (k - 1) * step + step == k * step;
      result := [result[0]] + [pos] + result[1..];
      pos := pos - step;
    }
    assert result == [6] + result[1..];
    assert all == [6] + all[1..];
  }

  method ComputeFormatWord(ecl: EccLevel, mask: nat) returns (bits: nat)
    requires mask < 8
    ensures bits == FormatWord(ecl, mask)
  {
    var data := FormatData(ecl, mask);
    FormatPowers();
    var rem := ComputeBch(data, 10, 10, FORMAT_GENERATOR);
    FormatWordIs(ecl, mask);
    bits := Xor(data * 1024 + rem, FORMAT_MASK);
  }

  method ComputeVersionWord(version: nat) returns (bits: nat)
    requires version < 64
    ensures bits == VersionWord(version)
  {
    FormatPowers();
    var rem := ComputeBch(version, 12, 12, VERSION_GENERATOR);
    bits := version * 4096 + rem;
  }
}
