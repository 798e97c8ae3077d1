/** Masks, format information and codewords on a grid, and a reader that takes a finished symbol
    apart again (frontend/js/qrcodegen.js, the QrCode constructor and applyMask).

    The function modules and the scan order are a parameter: what is proved here holds for any
    grid whose format modules are function modules and any order without repetitions. */
module Symbols {
  import opened Bits
  import opened FormatInfo
  import opened Grids
  import opened Patterns
  import opened Tables
  import opened Zigzag

  // ---- masks ----

  /** The inversion condition of each mask pattern. */
  predicate Inverts(mask: nat, c: Cell)
    requires mask < 8
  {
    var x, y := c.x, c.y;
    match mask
    case 0 => (x + y) % 2 == 0
    case 1 => y % 2 == 0
    case 2 => x % 3 == 0
    case 3 => (x + y) % 3 == 0
    case 4 => (x / 3 + y / 2) % 2 == 0
    case 5 => x * y % 2 + x * y % 3 == 0
    case 6 => (x * y % 2 + x * y % 3) % 2 == 0
    case _ => ((x + y) % 2 + x * y % 3) % 2 == 0
  }

  // One module under a mask: function modules are left alone.
  function MaskedModule(module_: bool, isFunction: bool, inverts: bool): bool {
    if !isFunction && inverts then !module_ else module_
  }

  function Masked(g: Grid, f: Grid, mask: nat): (h: Grid)
    requires Square(g, |g|) && Square(f, |g|) && mask < 8
    ensures Square(h, |g|)
    ensures forall c :: Inside(c, |g|) ==> At(h, c) == MaskedModule(At(g, c), At(f, c), Inverts(mask, c))
  {
    seq(|g|, y requires 0 <= y < |g| => seq(|g|, x requires 0 <= x < |g| =>
      MaskedModule(g[y][x], f[y][x], Inverts(mask, Cell(x, y)))))
  }

  /** Applying a mask twice undoes it. */
  lemma {:induction false} MaskTwice(g: Grid, f: Grid, mask: nat)
    requires Square(g, |g|) && Square(f, |g|) && mask < 8
    ensures Masked(Masked(g, f, mask), f, mask) == g
  {
    SameCells(Masked(Masked(g, f, mask), f, mask), g);
  }

  // ---- the grids of a symbol ----

  // Which modules are function modules, and the order in which the others take bits.
  datatype Layout = Layout(size: nat, f: Grid, path: seq<Cell>)
  {
    predicate Sized() {
      size >= 21 && Square(f, size) && AllIn(path, size)
    }

    ghost predicate Proper() {
      && Sized() && Distinct(path)
      && forall c :: Inside(c, size) && Covers(Format(size, 0, 31), c) ==> At(f, c)
    }

    // The free modules are enough for the codewords.
    predicate HasRoom(codewords: seq<Byte>)
      requires Sized()
    {
      Free(f, path) >= 8 * |codewords|
    }
  }

  // Codewords on top of the grid g that holds the function patterns, before any mask.
  function WithCodewords(l: Layout, g: Grid, codewords: seq<Byte>): (h: Grid)
    requires l.Sized() && Square(g, l.size)
    ensures Square(h, l.size)
  {
    Draw(g, l.f, l.path, BitsOf(codewords))
  }

  // A mask applied to g and its format bits drawn.
  function WithMask(l: Layout, g: Grid, ecl: EccLevel, mask: nat): (h: Grid)
    requires l.Sized() && Square(g, l.size) && mask < 8
    ensures Square(h, l.size)
  {
    Apply(Masked(g, l.f, mask), Format(l.size, FormatWord(ecl, mask), 31))
  }

  // ---- trial masks ----

  // Grids that differ at most in their format modules.
  ghost predicate SameButFormat(g: Grid, h: Grid, s: nat)
    requires s >= 21
  {
    && Square(g, s) && Square(h, s)
    && forall c :: Inside(c, s) && !Covers(Format(s, 0, 31), c) ==> At(g, c) == At(h, c)
  }

  lemma {:induction false} FormatChanges(g: Grid, s: nat, bits: nat)
    requires s >= 21 && Square(g, s)
    ensures SameButFormat(Apply(g, Format(s, bits, 31)), g, s)
  {
    forall c | Inside(c, s) && !Covers(Format(s, 0, 31), c) ensures At(Apply(g, Format(s, bits, 31)), c) == At(g, c) {
      FormatCells(s, 0, bits, c);
      ApplyElsewhere(g, Format(s, bits, 31), c);
    }
  }

  // The format bits left by an earlier trial do not matter.
  lemma {:induction false} TrialIsFinal(l: Layout, g: Grid, h: Grid, ecl: EccLevel, mask: nat)
    requires l.Proper() && mask < 8 && SameButFormat(g, h, l.size)
    ensures WithMask(l, g, ecl, mask) == WithMask(l, h, ecl, mask)
  {
    var s, ws := l.size, Format(l.size, FormatWord(ecl, mask), 31);
    var mg, mh := Masked(g, l.f, mask), Masked(h, l.f, mask);
    forall c | Inside(c, s) ensures At(Apply(mg, ws), c) == At(Apply(mh, ws), c) {
      FormatCells(s, 0, FormatWord(ecl, mask), c);
      if Covers(ws, c) {
        ApplyCovered(mg, mh, ws, c);
      } else {
        ApplyElsewhere(mg, ws, c);
        ApplyElsewhere(mh, ws, c);
      }
    }
    SameCells(Apply(mg, ws), Apply(mh, ws));
  }

  // Undoing a trial restores everything but the format modules.
  lemma {:induction false} TrialUndone(l: Layout, g: Grid, ecl: EccLevel, mask: nat)
    requires l.Proper() && Square(g, l.size) && mask < 8
    ensures SameButFormat(Masked(WithMask(l, g, ecl, mask), l.f, mask), g, l.size)
  {
    FormatChanges(Masked(g, l.f, mask), l.size, FormatWord(ecl, mask));
  }

  // Drawing the format bits marks nothing new.
  lemma {:induction false} FormatAlreadyMarked(l: Layout, bits: nat)
    requires l.Proper()
    ensures Apply(l.f, Marks(Format(l.size, bits, 31))) == l.f
  {
    var ws := Format(l.size, bits, 31);
    forall c | Inside(c, l.size) ensures At(Apply(l.f, Marks(ws)), c) == At(l.f, c) {
      ApplyMarks(l.f, ws, c);
      FormatCells(l.size, 0, bits, c);
    }
    SameCells(Apply(l.f, Marks(ws)), l.f);
  }

  // ---- reading a symbol ----

  // The number whose binary digits are the given bits, lowest first.
  function NumberOf(bits: seq<bool>): nat {
    if bits == [] then 0
    else NumberOf(bits[..|bits| - 1]) + (if bits[|bits| - 1] then Pow2(|bits| - 1) else 0)
  }

  function LowBits(w: nat, n: nat): (bits: seq<bool>)
    ensures |bits| == n
  {
    seq(n, (i: nat) => GetBit(w, i))
  }

  // Digits below n, as a number.
  function LowPart(w: nat, n: nat): nat {
    if n == 0 then 0 else LowPart(w / 2, n - 1) * 2 + w % 2
  }

  lemma {:induction false} LowTop(w: nat, n: nat)
    ensures LowPart(w, n + 1) == LowPart(w, n) + (if GetBit(w, n) then Pow2(n) else 0)
  {
    if n > 0 {
      LowTop(w / 2, n - 1);
    } else {
      assert LowPart(w, 1) == LowPart(w / 2, 0) * 2 + w % 2;
    }
  }

  lemma {:induction false} LowAll(w: nat, n: nat)
    requires w < Pow2(n)
    ensures LowPart(w, n) == w
  {
    if n > 0 {
      LowAll(w / 2, n - 1);
    }
  }

  lemma {:induction false} NumberOfLowBits(w: nat, n: nat)
    ensures NumberOf(LowBits(w, n)) == LowPart(w, n)
  {
    if n > 0 {
      NumberOfLowBits(w, n - 1);
      LowTop(w, n - 1);
      assert LowBits(w, n)[..n - 1] == LowBits(w, n - 1);
    }
  }

  // The format word read from one of its two copies: copy 0 begins at index 0 of the writes,
  // copy 1 at index 15.
  function ReadFormatWord(g: Grid, s: nat, copy: nat): nat
    requires Square(g, s) && s >= 21 && copy < 2
  {
    NumberOf(seq(15, i requires 0 <= i < 15 => At(g, FormatWrite(s, 0, 15 * copy + i).cell)))
  }

  lemma {:induction false} FormatModule(g: Grid, s: nat, bits: nat, k: nat)
    requires Square(g, s) && s >= 21 && k < 31
    ensures At(Apply(g, Format(s, bits, 31)), FormatWrite(s, 0, k).cell) == FormatWrite(s, bits, k).dark
  {
    var ws := Format(s, bits, 31);
    forall j | k < j < 31 ensures ws[j].cell != ws[k].cell {
      FormatCellsDistinct(s, bits, k, j);
    }
    ApplyOnce(g, ws, k);
  }

  /** Both copies of the format information hold the format word. */
  lemma {:induction false} FormatReadBack(g: Grid, s: nat, bits: nat, copy: nat)
    requires Square(g, s) && s >= 21 && copy < 2 && bits < 32768
    ensures ReadFormatWord(Apply(g, Format(s, bits, 31)), s, copy) == bits
  {
    var h := Apply(g, Format(s, bits, 31));
    var read := seq(15, i requires 0 <= i < 15 => At(h, FormatWrite(s, 0, 15 * copy + i).cell));
    forall i | 0 <= i < 15 ensures read[i] == LowBits(bits, 15)[i] {
      FormatModule(g, s, bits, 15 * copy + i);
    }
    assert read == LowBits(bits, 15);
    FormatPowers();
    NumberOfLowBits(bits, 15);
    LowAll(bits, 15);
  }

  datatype Reading = Reading(ecl: EccLevel, mask: nat, bits: seq<bool>)

  /** A reader of the grid alone: the format first, then the mask is undone and n bits are read
      in scan order. */
  function ReadSymbol(l: Layout, g: Grid, n: nat): Reading
    requires l.Sized() && Square(g, l.size)
  {
    var (ecl, mask) := DecodeFormat(ReadFormatWord(g, l.size, 0));
    Reading(ecl, mask, Read(Masked(g, l.f, mask), l.f, l.path, n))
  }

  // Neither the mask nor the format bits disturb the codeword bits.
  lemma {:induction false} CodewordsReadBack(l: Layout, g: Grid, ecl: EccLevel, codewords: seq<Byte>, mask: nat)
    requires l.Proper() && Square(g, l.size) && mask < 8 && l.HasRoom(codewords)
    ensures Read(Masked(WithMask(l, WithCodewords(l, g, codewords), ecl, mask), l.f, mask), l.f, l.path, 8 * |codewords|)
         == BitsOf(codewords)
  {
    var u := WithCodewords(l, g, codewords);
    var undone := Masked(WithMask(l, u, ecl, mask), l.f, mask);
    TrialUndone(l, u, ecl, mask);
    ReadAfterChanges(g, l.f, l.path, BitsOf(codewords), undone);
  }

  /** Whole-symbol round trip: the level, the mask and the codewords come back from the grid. */
  lemma {:induction false} SymbolRoundTrip(l: Layout, g: Grid, ecl: EccLevel, codewords: seq<Byte>, mask: nat)
    requires l.Proper() && Square(g, l.size) && mask < 8 && l.HasRoom(codewords)
    ensures ReadSymbol(l, WithMask(l, WithCodewords(l, g, codewords), ecl, mask), 8 * |codewords|)
         == Reading(ecl, mask, BitsOf(codewords))
  {
    FormatRoundTrip(ecl, mask);
    FormatReadBack(Masked(WithCodewords(l, g, codewords), l.f, mask), l.size, FormatWord(ecl, mask), 0);
    CodewordsReadBack(l, g, ecl, codewords, mask);
  }

  // ---- the layout of a version ----

  // The function patterns alone.
  function Patterned(version: nat, ecl: EccLevel): (g: Grid)
    requires IsVersion(version)
    ensures Square(g, SizeOf(version))
  {
    Apply(Blank(SizeOf(version)), FunctionPatterns(version, ecl))
  }

  // Function modules do not depend on the level (see LayoutIs).
  function LayoutOf(version: nat): (l: Layout)
    requires IsVersion(version)
    ensures l.Sized() && l.size == SizeOf(version)
  {
    LayoutAt(version, SizeOf(version))
  }

  // The depth plays no part: it keeps proofs that only pass the layout on from looking inside.
  function LayoutAt(version: nat, depth: nat): (l: Layout)
    requires IsVersion(version)
    ensures l.Sized() && l.size == SizeOf(version)
  {
    if depth > 0 then LayoutAt(version, depth - 1)
    else Layout(SizeOf(version), MarkedModules(version), Path(Side(SizeOf(version))))
  }

  function MarkedModules(version: nat): (f: Grid)
    requires IsVersion(version)
    ensures Square(f, SizeOf(version))
  {
    Apply(Blank(SizeOf(version)), Marks(FunctionPatterns(version, Low)))
  }

  lemma {:induction false} LayoutAtIs(version: nat, depth: nat)
    requires IsVersion(version)
    ensures LayoutAt(version, depth) == LayoutAt(version, 0)
  {
    if depth > 0 {
      LayoutAtIs(version, depth - 1);
    }
  }

  lemma {:induction false} MarksAppend(a: seq<Write>, b: seq<Write>)
    ensures Marks(a + b) == Marks(a) + Marks(b)
  {
  }

  lemma {:induction false} SameMarks(version: nat, ecl: EccLevel)
    requires IsVersion(version)
    ensures Marks(FunctionPatterns(version, ecl)) == Marks(FunctionPatterns(version, Low))
  {
    var s := SizeOf(version);
    FunctionPatternsAre(version, ecl, SizeOf(version));
    FunctionPatternsAre(version, Low, SizeOf(version));
    var a, v := Timing(Side(s), s) + Finders(Side(s)) + AllAlignments(version), VersionPart(version);
    var m, m' := FormatPart(Side(s), ecl, 0), FormatPart(Side(s), Low, 0);
    FormatPartIs(Side(s), ecl, 0);
    FormatPartIs(Side(s), Low, 0);
    SameFormatMarks(s, FormatWord(ecl, 0), FormatWord(Low, 0));
    MarksAppend(a, m);
    MarksAppend(a, m');
    MarksAppend(a + m, v);
    MarksAppend(a + m', v);
  }

  lemma {:induction false} SameFormatMarks(s: nat, a: nat, b: nat)
    requires s >= 21
    ensures Marks(Format(s, a, 31)) == Marks(Format(s, b, 31))
  {
    forall k | 0 <= k < 31 ensures FormatWrite(s, a, k).cell == FormatWrite(s, b, k).cell {
    }
  }

  lemma {:induction false} LayoutPath(version: nat)
    requires IsVersion(version)
    ensures LayoutOf(version).path == Path(Side(SizeOf(version)))
  {
    LayoutAtIs(version, SizeOf(version));
  }

  /** Drawing the function patterns marks exactly the function modules of the layout. */
  lemma {:induction false} LayoutIs(version: nat, ecl: EccLevel)
    requires IsVersion(version)
    ensures LayoutOf(version).f == Apply(Blank(SizeOf(version)), Marks(FunctionPatterns(version, ecl)))
  {
    LayoutAtIs(version, SizeOf(version));
    SameMarks(version, ecl);
  }

  lemma {:induction false} LayoutModules(version: nat, c: Cell)
    requires IsVersion(version) && Inside(c, SizeOf(version))
    requires c.x == 6 || Covers(Format(SizeOf(version), 0, 31), c)
    ensures At(LayoutOf(version).f, c)
  {
    LayoutIs(version, Low);
    ApplyMarks(Blank(SizeOf(version)), FunctionPatterns(version, Low), c);
    PatternsCover(version, Low, c);
  }

  lemma {:induction false} LayoutFormat(version: nat)
    requires IsVersion(version)
    ensures forall c :: Inside(c, SizeOf(version)) && Covers(Format(SizeOf(version), 0, 31), c) ==> At(LayoutOf(version).f, c)
  {
    forall c | Inside(c, SizeOf(version)) && Covers(Format(SizeOf(version), 0, 31), c) ensures At(LayoutOf(version).f, c) {
      LayoutModules(version, c);
    }
  }

  lemma {:induction false} LayoutDistinct(version: nat)
    requires IsVersion(version)
    ensures Distinct(LayoutOf(version).path)
  {
    LayoutPath(version);
    PathDistinct(SizeOf(version));
  }

  /** The layout of every version is proper: its scan has no repetitions and its format modules
      are function modules. */
  lemma {:induction false} LayoutProper(version: nat)
    requires IsVersion(version)
    ensures LayoutOf(version).Proper()
  {
    LayoutDistinct(version);
    LayoutFormat(version);
  }

  /** ... and the scan reaches every module that is not a function module. */
  lemma {:induction false} FreeModulesScanned(version: nat, c: Cell)
    requires IsVersion(version) && Inside(c, SizeOf(version)) && !At(LayoutOf(version).f, c)
    ensures c in LayoutOf(version).path
  {
    if c.x == 6 {
      LayoutModules(version, c);
    } else {
      PathReaches(SizeOf(version), c);
    }
    LayoutPath(version);
  }
}
