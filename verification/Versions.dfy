/** The version information of a finished symbol (frontend/js/qrcodegen.js, drawVersion): from
    version 7 on it can be read off the grid twice. */
module Versions {
  import opened Bits
  import opened FormatInfo
  import opened Grids
  import opened Patterns
  import opened Symbols
  import opened Tables
  import opened Zigzag

  // Where bit i stands in the copy at the top right (0) and in the one at the bottom left (1).
  function VersionCell(s: nat, i: nat, copy: nat): (c: Cell)
    requires s >= 21 && i < 18 && copy < 2
    ensures Inside(c, s)
  {
    if copy == 0 then Cell(s - 11 + i % 3, i / 3) else Cell(i / 3, s - 11 + i % 3)
  }

  // The version word read from one of its copies.
  function ReadVersionWord(g: Grid, s: nat, copy: nat): nat
    requires Square(g, s) && s >= 21 && copy < 2
  {
    NumberOf(seq(18, i requires 0 <= i < 18 => At(g, VersionCell(s, i, copy))))
  }

  // ---- the writes ----

  lemma {:induction false} InfoWrite(d: Side, bits: nat, n: nat, i: nat, copy: nat)
    requires d.length >= 21 && i < n <= 18 && copy < 2
    ensures var ws := VersionInfo(d, bits, n);
      |ws| == 2 * n && ws[2 * i + copy] == Write(VersionCell(d.length, i, copy), GetBit(bits, i))
  {
    if n == 1 {
      assert VersionInfo(d, bits, 0) == [];
    } else {
      InfoWrite(d, bits, n - 1, if i < n - 1 then i else 0, copy);
    }
  }

  lemma {:induction false} CellsDistinct(s: nat, i: nat, copy: nat, j: nat, other: nat)
    requires s >= 21 && i < 18 && j < 18 && copy < 2 && other < 2 && (i, copy) != (j, other)
    ensures VersionCell(s, i, copy) != VersionCell(s, j, other)
  {
  }

  lemma {:induction false} InfoModule(g: Grid, d: Side, bits: nat, i: nat, copy: nat)
    requires Square(g, d.length) && d.length >= 21 && i < 18 && copy < 2
    ensures At(Apply(g, VersionInfo(d, bits, 18)), VersionCell(d.length, i, copy)) == GetBit(bits, i)
  {
    var ws, k := VersionInfo(d, bits, 18), 2 * i + copy;
    InfoWrite(d, bits, 18, i, copy);
    forall j | k < j < |ws| ensures ws[j].cell != ws[k].cell {
      InfoWrite(d, bits, 18, j / 2, j % 2);
      CellsDistinct(d.length, i, copy, j / 2, j % 2);
    }
    ApplyOnce(g, ws, k);
  }

  // ---- nothing draws on them later ----

  // The version information is the last of the function patterns.
  lemma {:induction false} PatternedVersion(version: nat, ecl: EccLevel, i: nat, copy: nat)
    requires IsVersion(version) && version >= 7 && i < 18 && copy < 2
    ensures At(Patterned(version, ecl), VersionCell(SizeOf(version), i, copy)) == GetBit(VersionWord(version), i)
  {
    var s := SizeOf(version);
    FunctionPatternsAre(version, ecl, s);
    var front := Timing(Side(s), s) + Finders(Side(s)) + AllAlignments(version) + FormatPart(Side(s), ecl, 0);
    ApplyAppend(Blank(s), front, VersionPart(version));
    InfoModule(Apply(Blank(s), front), Side(s), VersionWord(version), i, copy);
  }

  lemma {:induction false} VersionModulesMarked(version: nat, i: nat, copy: nat)
    requires IsVersion(version) && version >= 7 && i < 18 && copy < 2
    ensures At(LayoutOf(version).f, VersionCell(SizeOf(version), i, copy))
  {
    var s, c := SizeOf(version), VersionCell(SizeOf(version), i, copy);
    LayoutIs(version, Low);
    ApplyMarks(Blank(s), FunctionPatterns(version, Low), c);
    FunctionPatternsAre(version, Low, s);
    InfoWrite(Side(s), VersionWord(version), 18, i, copy);
    assert Covers(VersionPart(version), c);
    CoversAppend(Timing(Side(s), s) + Finders(Side(s)) + AllAlignments(version) + FormatPart(Side(s), Low, 0),
                 VersionPart(version), c);
  }

  lemma {:induction false} FormatElsewhere(s: nat, bits: nat, i: nat, copy: nat)
    requires s >= 45 && i < 18 && copy < 2
    ensures !Covers(Format(s, bits, 31), VersionCell(s, i, copy))
  {
  }

  // A function module that is no format module is as the function patterns left it.
  lemma {:induction false} PatternKept(l: Layout, g: Grid, ecl: EccLevel, codewords: seq<Byte>, mask: nat, c: Cell)
    requires l.Sized() && Square(g, l.size) && mask < 8 && Inside(c, l.size)
    requires At(l.f, c) && !Covers(Format(l.size, FormatWord(ecl, mask), 31), c)
    ensures At(WithMask(l, WithCodewords(l, g, codewords), ecl, mask), c) == At(g, c)
  {
    var u := WithCodewords(l, g, codewords);
    ApplyElsewhere(Masked(u, l.f, mask), Format(l.size, FormatWord(ecl, mask), 31), c);
    DrawElsewhere(g, l.f, l.path, BitsOf(codewords), c);
  }

  /** Both copies of the version information can be read off a finished symbol: no codeword, mask
      or format module has been drawn over them, and they give the version. */
  lemma {:induction false} VersionReadBack(version: nat, ecl: EccLevel, codewords: seq<Byte>, mask: nat, copy: nat)
    requires IsVersion(version) && version >= 7 && mask < 8 && copy < 2
    ensures var g := WithMask(LayoutOf(version), WithCodewords(LayoutOf(version), Patterned(version, ecl), codewords), ecl, mask);
      && ReadVersionWord(g, SizeOf(version), copy) == VersionWord(version)
      && ReadVersionWord(g, SizeOf(version), copy) / 4096 == version
  {
    var l, s, word := LayoutOf(version), SizeOf(version), VersionWord(version);
    var g := WithMask(l, WithCodewords(l, Patterned(version, ecl), codewords), ecl, mask);
    var read := seq(18, i requires 0 <= i < 18 => At(g, VersionCell(s, i, copy)));
    forall i | 0 <= i < 18 ensures read[i] == LowBits(word, 18)[i] {
      PatternedVersion(version, ecl, i, copy);
      VersionModulesMarked(version, i, copy);
      FormatElsewhere(s, FormatWord(ecl, mask), i, copy);
      PatternKept(l, Patterned(version, ecl), ecl, codewords, mask, VersionCell(s, i, copy));
    }
    assert read == LowBits(word, 18);
    VersionWordFits(version);
    FormatPowers();
    NumberOfLowBits(word, 18);
    LowAll(word, 18);
  }
}
