/** Versions, error correction levels and capacities (frontend/js/qrcodegen.js,
    getNumRawDataModules and getNumDataCodewords).

    The contents of the two code tables (codewords per block, number of blocks) are a parameter:
    everything proved about the encoder holds for any tables with at least one block in each row. */
module Tables {

  const MIN_VERSION := 1
  const MAX_VERSION := 40

  datatype EccLevel = Low | Medium | Quartile | High
  {
    // The two bits drawn in the symbol.
    function FormatBits(): (b: nat)
      ensures b < 4
    {
      match this
      case Low => 1
      case Medium => 0
      case Quartile => 3
      case High => 2
    }

    function Ordinal(): (n: nat)
      ensures n < 4
    {
      match this
      case Low => 0
      case Medium => 1
      case Quartile => 2
      case High => 3
    }
  }

  // The level with the given format bits.
  function LevelOfFormat(bits: nat): EccLevel
    requires bits < 4
  {
    if bits == 1 then Low else if bits == 0 then Medium else if bits == 3 then Quartile else High
  }

  predicate IsVersion(v: int) {
    MIN_VERSION <= v <= MAX_VERSION
  }

  function SizeOf(version: nat): nat {
    version * 4 + 17
  }

  function NumAlign(version: nat): nat {
    version / 7 + 2
  }

  /** getNumRawDataModules. */
  function RawDataModules(version: nat): int {
    (16 * version + 128) * version + 64
    - (if version >= 2 then (25 * NumAlign(version) - 10) * NumAlign(version) - 55 else 0)
    - (if version >= 7 then 36 else 0)
  }

  /** The range assertion of getNumRawDataModules holds for every version. */
  lemma {:induction false} RawDataBounds(version: nat)
    requires IsVersion(version)
    ensures 208 <= RawDataModules(version) <= 29648
  {
    var v, square := version, version * version;
    assert (16 * v + 128) * v == 16 * square + 128 * v;
    assert v <= square <= 40 * v;
    if v <= 34 {
      assert square <= 34 * v;
    }
    var n := NumAlign(v);
    assert n == 2 || n == 3 || n == 4 || n == 5 || n == 6 || n == 7;
  }

  // The numbers of data modules in Table 1 of the standard.
  function DataModulesTable(version: nat): nat
    requires IsVersion(version)
  {
    match version
    case 1 => 208 case 2 => 359 case 3 => 567 case 4 => 807 case 5 => 1079
    case 6 => 1383 case 7 => 1568 case 8 => 1936 case 9 => 2336 case 10 => 2768
    case 11 => 3232 case 12 => 3728 case 13 => 4256 case 14 => 4651 case 15 => 5243
    case 16 => 5867 case 17 => 6523 case 18 => 7211 case 19 => 7931 case 20 => 8683
    case 21 => 9252 case 22 => 10068 case 23 => 10916 case 24 => 11796 case 25 => 12708
    case 26 => 13652 case 27 => 14628 case 28 => 15371 case 29 => 16411 case 30 => 17483
    case 31 => 18587 case 32 => 19723 case 33 => 20891 case 34 => 22091 case 35 => 23008
    case 36 => 24272 case 37 => 25568 case 38 => 26896 case 39 => 28256 case _ => 29648
  }

  lemma {:induction false} Modules1To10(version: nat)
    requires 1 <= version <= 10
    ensures RawDataModules(version) == DataModulesTable(version)
  {
  }

  lemma {:induction false} Modules11To20(version: nat)
    requires 11 <= version <= 20
    ensures RawDataModules(version) == DataModulesTable(version)
  {
  }

  lemma {:induction false} Modules21To30(version: nat)
    requires 21 <= version <= 30
    ensures RawDataModules(version) == DataModulesTable(version)
  {
  }

  lemma {:induction false} Modules31To40(version: nat)
    requires 31 <= version <= 40
    ensures RawDataModules(version) == DataModulesTable(version)
  {
  }

  /** The formula gives the numbers of the table. */
  lemma {:induction false} DataModulesAsInTable(version: nat)
    requires IsVersion(version)
    ensures RawDataModules(version) == DataModulesTable(version)
  {
    if version <= 10 {
      Modules1To10(version);
    } else if version <= 20 {
      Modules11To20(version);
    } else if version <= 30 {
      Modules21To30(version);
    } else {
      Modules31To40(version);
    }
  }

  function RawCodewords(version: nat): (n: nat)
    requires IsVersion(version)
  {
    RawCodewordsAt(version, SizeOf(version))
  }

  // The depth plays no part: it keeps proofs that only pass the number on from looking inside.
  function RawCodewordsAt(version: nat, depth: nat): (n: nat)
    requires IsVersion(version)
    decreases depth
  {
    if depth > 0 then RawCodewordsAt(version, depth - 1)
    else RawDataBounds(version); RawDataModules(version) / 8
  }

  /** The number of codewords is that of the whole bytes in the raw data modules. */
  lemma {:induction false} RawCodewordsAre(version: nat, depth: nat)
    requires IsVersion(version)
    ensures RawCodewordsAt(version, depth) == RawDataModules(version) / 8
    decreases depth
  {
    if depth > 0 {
      RawCodewordsAre(version, depth - 1);
    }
  }

  // The code tables: for each level and version, codewords per block and number of blocks.
  datatype CodeTables = CodeTables(eccPerBlock: seq<seq<nat>>, numBlocks: seq<seq<nat>>)
  {
    predicate Valid() {
      && |eccPerBlock| == 4 && |numBlocks| == 4
      && (forall e :: 0 <= e < 4 ==> |eccPerBlock[e]| == MAX_VERSION + 1 && |numBlocks[e]| == MAX_VERSION + 1)
      && (forall e, v :: 0 <= e < 4 && MIN_VERSION <= v <= MAX_VERSION ==> numBlocks[e][v] >= 1)
    }

    // The numbers of error correction codewords are possible degrees of a divisor.
    predicate Usable() {
      Valid() && forall e, v :: 0 <= e < 4 && MIN_VERSION <= v <= MAX_VERSION ==> 1 <= eccPerBlock[e][v] <= 255
    }

    function EccLen(version: nat, ecl: EccLevel): nat
      requires Valid() && IsVersion(version)
    {
      eccPerBlock[ecl.Ordinal()][version]
    }

    function Blocks(version: nat, ecl: EccLevel): (n: nat)
      requires Valid() && IsVersion(version)
      ensures n >= 1
    {
      numBlocks[ecl.Ordinal()][version]
    }

    /** getNumDataCodewords. */
    function DataCodewords(version: nat, ecl: EccLevel): int
      requires Valid() && IsVersion(version)
    {
      RawCodewords(version) - EccLen(version, ecl) * Blocks(version, ecl)
    }

    // How many bits of data a symbol can hold.
    function Capacity(version: nat, ecl: EccLevel): int
      requires Valid() && IsVersion(version)
    {
      DataCodewords(version, ecl) * 8
    }
  }
}
