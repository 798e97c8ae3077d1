/** The other modules of a finished symbol: along the scan, each module that no function pattern has
    shows the next bit of the codewords, inverted where the picture of the mask says so
    (sections 7.7.3 and 7.8 of ISO/IEC 18004:2015). */
module DataModules {
  import opened Bits
  import opened FormatInfo
  import opened Grids
  import opened Masks
  import opened Patterns
  import opened Pictures
  import opened ScanOrders
  import opened Symbols
  import opened Tables
  import opened Zigzag

  // Bit i of the codewords, the highest of each first; light after the last one.
  predicate DataBit(codewords: seq<Byte>, i: nat) {
    i < 8 * |codewords| && GetBit(codewords[i / 8], 7 - i % 8)
  }

  predicate InPicture(mask: nat, c: Cell)
    requires mask < 8
  {
    MaskPicture(mask)[c.y % |MaskPicture(mask)|][c.x % 6] == '1'
  }

  // A module without a mark is light before the codewords are drawn, and has no format bit.
  lemma {:induction false} Unmarked(version: nat, ecl: EccLevel, c: Cell)
    requires IsVersion(version) && Inside(c, SizeOf(version)) && !At(LayoutOf(version).f, c)
    ensures !At(Patterned(version, ecl), c)
    ensures forall bits :: !Covers(Format(SizeOf(version), bits, 31), c)
  {
    LayoutIs(version, ecl);
    ApplyMarks(Blank(SizeOf(version)), FunctionPatterns(version, ecl), c);
    ApplyElsewhere(Blank(SizeOf(version)), FunctionPatterns(version, ecl), c);
    LayoutFormat(version);
    forall bits ensures !Covers(Format(SizeOf(version), bits, 31), c) {
      FormatCells(SizeOf(version), 0, bits, c);
    }
  }

  lemma {:induction false} MaskedData(l: Layout, u: Grid, ecl: EccLevel, mask: nat, c: Cell)
    requires l.Sized() && Square(u, l.size) && mask < 8 && Inside(c, l.size) && !At(l.f, c)
    requires !Covers(Format(l.size, FormatWord(ecl, mask), 31), c)
    ensures At(WithMask(l, u, ecl, mask), c) == (At(u, c) != Inverts(mask, c))
  {
    ApplyElsewhere(Masked(u, l.f, mask), Format(l.size, FormatWord(ecl, mask), 31), c);
  }

  lemma {:induction false} DrawnData(l: Layout, g: Grid, codewords: seq<Byte>, k: nat)
    requires l.Sized() && Square(g, l.size) && Distinct(l.path) && k < |l.path| && !At(l.f, l.path[k]) && !At(g, l.path[k])
    ensures At(WithCodewords(l, g, codewords), l.path[k]) == DataBit(codewords, Free(l.f, l.path[..k]))
  {
    DrawnModule(g, l.f, l.path, BitsOf(codewords), k);
  }

  /** Along the scan of the symbol, a module that is no function module shows the bit of the codewords
      whose number is the count of such modules before it, inverted where the mask's picture is 1.
      Modules left over count as light bits. */
  lemma {:induction false} DataShown(version: nat, ecl: EccLevel, codewords: seq<Byte>, mask: nat, path: seq<Cell>, k: nat)
    requires IsVersion(version) && mask < 8 && IsScan(path, SizeOf(version))
    requires k < |path| && !At(LayoutOf(version).f, path[k])
    ensures At(Finished(version, ecl, codewords, mask), path[k])
         == (DataBit(codewords, Free(LayoutOf(version).f, path[..k])) != InPicture(mask, path[k]))
  {
    var l := LayoutOf(version);
    LayoutScan(version);
    ScanUnique(path, l.path, SizeOf(version));
    Unmarked(version, ecl, path[k]);
    DrawnData(l, Patterned(version, ecl), codewords, k);
    MaskedData(l, WithCodewords(l, Patterned(version, ecl), codewords), ecl, mask, path[k]);
    MaskPictures(mask, path[k]);
  }
}
