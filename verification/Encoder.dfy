/** From segments to a symbol and back (frontend/js/qrcodegen.js, encodeSegments). */
module Encoder {
  import opened Bits
  import opened BitStrings
  import opened Grids
  import opened Outcomes
  import opened Patterns
  import opened QrCodes
  import opened Rooms
  import opened Segments
  import opened Symbols
  import opened Tables
  import opened Zigzag
  import Interleaving

  // ---- choosing the version and the level ----

  predicate FitsIn(tables: CodeTables, segs: seq<Segment>, version: nat, ecl: EccLevel)
    requires tables.Valid() && IsVersion(version)
  {
    match TotalBits(segs, version)
    case Finite(bits) => bits <= tables.Capacity(version, ecl)
    case Infinity => false
  }

  /** What it means to fit: every count fits its field, and the stream is no longer than the whole
      bytes of the symbol's data modules less the error correction codewords. */
  lemma {:induction false} FitsMeans(tables: CodeTables, segs: seq<Segment>, version: nat, ecl: EccLevel)
    requires tables.Valid() && IsVersion(version)
    ensures FitsIn(tables, segs, version, ecl) <==>
      && (forall i :: 0 <= i < |segs| ==> segs[i].numChars < Pow2(segs[i].mode.CharCountBits(version)))
      && |Stream(segs, version)| <= 8 * (DataModulesTable(version) / 8 - tables.EccLen(version, ecl) * tables.Blocks(version, ecl))
  {
    RawCodewordsAre(version, SizeOf(version));
    DataModulesAsInTable(version);
  }

  // No version from `from` up to, not including, `to` holds the segments.
  predicate NoneFits(tables: CodeTables, segs: seq<Segment>, from: nat, to: nat, ecl: EccLevel)
    requires tables.Valid() && MIN_VERSION <= from <= to <= MAX_VERSION + 1
  {
    from == to || (NoneFits(tables, segs, from, to - 1, ecl) && !FitsIn(tables, segs, to - 1, ecl))
  }

  /** The version loop: the least version in the range that holds the segments, or an error if
      there is none. */
  method FindVersion(tables: CodeTables, segs: seq<Segment>, ecl: EccLevel, minVersion: nat, maxVersion: nat)
    returns (r: Outcome<(nat, nat)>)
    requires tables.Valid() && IsVersion(minVersion) && IsVersion(maxVersion) && minVersion <= maxVersion
    ensures !r.AssertionError?
    ensures r.RangeError? ==> NoneFits(tables, segs, minVersion, maxVersion + 1, ecl)
    ensures r.Done? ==>
      && minVersion <= r.value.0 <= maxVersion
      && FitsIn(tables, segs, r.value.0, ecl) && TotalBits(segs, r.value.0) == Finite(r.value.1)
      && NoneFits(tables, segs, minVersion, r.value.0, ecl)
  {
    var version := minVersion;
    while true
      invariant minVersion <= version <= maxVersion
      invariant NoneFits(tables, segs, minVersion, version, ecl)
      decreases maxVersion - version
    {
      var usedBits := TryVersion(tables, segs, version, ecl);
      if usedBits.Finite? {
        return Done((version, usedBits.bits));
      }
      if version >= maxVersion {
        return RangeError;
      }
      version := version + 1;
    }
  }

  // The bits needed in one version, if they fit.
  method TryVersion(tables: CodeTables, segs: seq<Segment>, version: nat, ecl: EccLevel) returns (r: Bound)
    requires tables.Valid() && IsVersion(version)
    ensures r == if FitsIn(tables, segs, version, ecl) then TotalBits(segs, version) else Infinity
    ensures FitsIn(tables, segs, version, ecl) ==> r.Finite?
  {
    var dataCapacityBits := tables.Capacity(version, ecl);
    var usedBits := GetTotalBits(segs, version);
    r := if usedBits.Finite? && usedBits.bits <= dataCapacityBits then usedBits else Infinity;
  }

  // The levels tried, from the first to the last.
  function LevelTried(n: nat): EccLevel {
    if n == 1 then Medium else if n == 2 then Quartile else High
  }

  // The level after n turns of the loop that raises it while the data still fits.
  function Raised(tables: CodeTables, version: nat, bits: nat, ecl: EccLevel, n: nat): EccLevel
    requires tables.Valid() && IsVersion(version)
    decreases n
  {
    if n == 0 then ecl
    else if bits <= tables.Capacity(version, LevelTried(n)) then LevelTried(n)
    else Raised(tables, version, bits, ecl, n - 1)
  }

  function Boosted(tables: CodeTables, version: nat, bits: nat, ecl: EccLevel, boostEcl: bool): EccLevel
    requires tables.Valid() && IsVersion(version)
  {
    if boostEcl then Raised(tables, version, bits, ecl, 3) else ecl
  }

  /** Raising the level is safe: the data still fits, the level is never below the requested one,
      and it is the highest of the three tried that fits, or the requested one if none does. */
  lemma {:induction false} BoostIsSafe(tables: CodeTables, version: nat, bits: nat, ecl: EccLevel, boostEcl: bool)
    requires tables.Valid() && IsVersion(version) && bits <= tables.Capacity(version, ecl)
    ensures var level := Boosted(tables, version, bits, ecl, boostEcl);
      && bits <= tables.Capacity(version, level)
      && level.Ordinal() >= ecl.Ordinal()
      && (!boostEcl ==> level == ecl)
      && (boostEcl ==> forall other: EccLevel :: (other != Low && other.Ordinal() > level.Ordinal() ==> bits > tables.Capacity(version, other)))
      && (level == ecl || (boostEcl && level != Low))
  {
  }

  // ---- terminator and padding ----

  function ZeroBits(n: nat): (b: seq<bool>)
    ensures |b| == n
  {
    seq(n, _ => false)
  }

  lemma {:induction false} BitStringOfZero(n: nat)
    ensures BitString(0, n) == ZeroBits(n)
  {
    if n > 0 {
      BitStringOfZero(n - 1);
    }
  }

  function Min(a: int, b: int): int {
    if a < b then a else b
  }

  // Bits missing to a whole number of bytes.
  function ToByte(n: nat): (k: nat)
    ensures k < 8 && (n + k) % 8 == 0
  {
    (8 - n % 8) % 8
  }

  // Terminator, then zeros up to a byte.
  function Closed(b: seq<bool>, capacity: nat): (c: seq<bool>)
    requires |b| <= capacity
    ensures |c| % 8 == 0 && |b| <= |c|
    ensures capacity % 8 == 0 ==> |c| <= capacity
  {
    var t := b + ZeroBits(Min(4, capacity - |b|));
    t + ZeroBits(ToByte(|t|))
  }

  /** What closing adds is light: four bits, or fewer if the capacity ends before, and then no more
      than it takes to the end of a byte. */
  lemma {:induction false} ClosedMeans(b: seq<bool>, capacity: nat)
    requires |b| <= capacity && capacity % 8 == 0
    ensures var c, least := Closed(b, capacity), if |b| + 4 <= capacity then |b| + 4 else capacity;
      && least <= |c| < least + 8 && |c| % 8 == 0 && |c| <= capacity
      && c[..|b|] == b && forall i :: |b| <= i < |c| ==> !c[i]
  {
  }

  const PAD_FIRST: Byte := 0xEC
  const PAD_SECOND: Byte := 0x11

  function PadByte(first: Byte, second: Byte, k: nat): Byte {
    if k % 2 == 0 then first else second
  }

  // n pad bytes, alternating.
  function Padding(n: nat, first: Byte, second: Byte): (b: seq<bool>)
    ensures |b| == 8 * n
    decreases n
  {
    if n == 0 then [] else Padding(n - 1, first, second) + BitString(PadByte(first, second, n - 1), 8)
  }

  function PadCount(used: nat, capacity: nat): (n: nat)
    requires used <= capacity && used % 8 == 0 && capacity % 8 == 0
    ensures used + 8 * n == capacity
  {
    (capacity - used) / 8
  }

  // Pad bytes up to capacity.
  function Filled(c: seq<bool>, capacity: nat): (f: seq<bool>)
    requires |c| <= capacity && |c| % 8 == 0 && capacity % 8 == 0
    ensures |f| == capacity
  {
    c + Padding(PadCount(|c|, capacity), PAD_FIRST, PAD_SECOND)
  }

  /** The data bits of a symbol: the stream, closed and padded to capacity. */
  function FullBits(b: seq<bool>, capacity: nat): (f: seq<bool>)
    requires |b| <= capacity && capacity % 8 == 0
    ensures |f| == capacity
  {
    Filled(Closed(b, capacity), capacity)
  }

  lemma {:induction false} ZeroValue(n: nat)
    ensures Value(ZeroBits(n)) == 0
  {
    if n > 0 {
      ZeroValue(n - 1);
      assert ZeroBits(n)[..n - 1] == ZeroBits(n - 1);
    }
  }

  // What follows the stream ends it.
  lemma {:induction false} FullBitsEnd(b: seq<bool>, capacity: nat)
    requires |b| <= capacity && capacity % 8 == 0
    ensures FullBits(b, capacity)[..|b|] == b
    ensures EndsStream(FullBits(b, capacity)[|b|..])
  {
    var tail := FullBits(b, capacity)[|b|..];
    if |tail| >= 4 {
      assert tail[..4] == ZeroBits(4);
      ZeroValue(4);
    }
  }

  lemma {:induction false} PaddingByte(n: nat, first: Byte, second: Byte, k: nat)
    requires k < n
    ensures Padding(n, first, second)[8 * k..8 * k + 8] == BitString(PadByte(first, second, k), 8)
  {
    if k < n - 1 {
      PaddingByte(n - 1, first, second, k);
      assert Padding(n, first, second)[8 * k..8 * k + 8] == Padding(n - 1, first, second)[8 * k..8 * k + 8];
    }
  }

  lemma {:induction false} PackedByteOf(bits: seq<bool>, i: nat, value: Byte)
    requires |bits| % 8 == 0 && 8 * i + 8 <= |bits|
    requires bits[8 * i..8 * i + 8] == BitString(value, 8)
    ensures Pack(bits)[i] == value
  {
    Powers();
    ValueOfBitString(value, 8);
  }

  /** The codewords after the closed stream alternate 0xEC and 0x11. */
  lemma {:induction false} PadCodewords(b: seq<bool>, capacity: nat, k: nat)
    requires |b| <= capacity && capacity % 8 == 0
    requires k < PadCount(|Closed(b, capacity)|, capacity)
    ensures Pack(FullBits(b, capacity))[|Closed(b, capacity)| / 8 + k] == if k % 2 == 0 then 0xEC else 0x11
  {
    PaddedByte(Closed(b, capacity), PadCount(|Closed(b, capacity)|, capacity), PAD_FIRST, PAD_SECOND, k);
  }

  lemma {:induction false} PaddedByte(c: seq<bool>, n: nat, first: Byte, second: Byte, k: nat)
    requires |c| % 8 == 0 && k < n
    ensures Pack(c + Padding(n, first, second))[|c| / 8 + k] == PadByte(first, second, k)
  {
    PaddingByte(n, first, second, k);
    var i := |c| / 8 + k;
    assert (c + Padding(n, first, second))[8 * i..8 * i + 8] == Padding(n, first, second)[8 * k..8 * k + 8];
    PackedByteOf(c + Padding(n, first, second), i, PadByte(first, second, k));
  }

  // ---- building the data codewords ----

  /** The loop that concatenates the segments. */
  method BuildStream(segs: seq<Segment>, version: nat) returns (bb: seq<bool>)
    requires IsVersion(version) && CountsFit(segs, version)
    ensures bb == Stream(segs, version)
  {
    bb := [];
    for i := 0 to |segs|
      invariant bb == Stream(segs[..i], version)
    {
      assert segs[..i + 1] == segs[..i] + [segs[i]];
      StreamPush(segs[..i], segs[i], version);
      bb := AppendSegment(bb, segs[i], version);
    }
    assert segs[..|segs|] == segs;
  }

  method AppendSegment(before: seq<bool>, seg: Segment, version: nat) returns (bb: seq<bool>)
    requires IsVersion(version) && seg.numChars < Pow2(seg.mode.CharCountBits(version))
    ensures bb == before + SegmentBits(seg, version)
  {
    Powers();
    var mode := AppendBits(seg.mode.ModeBits(), 4, before);
    var count := AppendBits(seg.numChars, seg.mode.CharCountBits(version), mode.value);
    bb := count.value + seg.bitData;
    Regroup(before, BitString(seg.mode.ModeBits(), 4), BitString(seg.numChars, seg.mode.CharCountBits(version)), seg.bitData);
  }

  lemma {:induction false} Regroup(a: seq<bool>, b: seq<bool>, c: seq<bool>, d: seq<bool>)
    ensures ((a + b) + c) + d == a + ((b + c) + d)
  {
  }

  /** Terminator, padding and packing. */
  method FillCapacity(stream: seq<bool>, capacity: nat) returns (dataCodewords: seq<Byte>)
    requires |stream| <= capacity && capacity % 8 == 0
    ensures dataCodewords == Pack(FullBits(stream, capacity))
  {
    var bb := Close(stream, capacity);
    bb := PadToCapacity(bb, capacity, PAD_FIRST, PAD_SECOND);
    dataCodewords := PackBits(bb);
  }

  method Close(stream: seq<bool>, capacity: nat) returns (bb: seq<bool>)
    requires |stream| <= capacity
    ensures bb == Closed(stream, capacity)
  {
    bb := AppendZeros(Min(4, capacity - |stream|), stream);
    bb := AppendZeros((8 - |bb| % 8) % 8, bb);
  }

  method AppendZeros(n: nat, before: seq<bool>) returns (bb: seq<bool>)
    requires n < 8
    ensures bb == before + ZeroBits(n)
  {
    var r := AppendBits(0, n, before);
    BitStringOfZero(n);
    bb := r.value;
  }

  method PadToCapacity(closed: seq<bool>, capacity: nat, first: Byte, second: Byte) returns (bb: seq<bool>)
    requires |closed| <= capacity && capacity % 8 == 0 && |closed| % 8 == 0
    ensures bb == closed + Padding(PadCount(|closed|, capacity), first, second)
  {
    bb := closed;
    var padByte := first;
    ghost var k, n := 0, PadCount(|closed|, capacity);
    while |bb| < capacity
      invariant k <= n && bb == closed + Padding(k, first, second) && padByte == PadByte(first, second, k)
      decreases n - k
    {
      PaddingStep(closed, k, first, second);
      bb := AppendOctet(padByte, bb);
      padByte := NextPad(padByte, first, second, k);
      k := k + 1;
    }
  }

  method NextPad(padByte: Byte, first: Byte, second: Byte, ghost k: nat) returns (next: Byte)
    requires padByte == PadByte(first, second, k)
    ensures next == PadByte(first, second, k + 1)
  {
    XorSwaps(first, second);
    next := Xor(padByte, Xor(first, second));
  }

  lemma {:induction false} PaddingStep(closed: seq<bool>, k: nat, first: Byte, second: Byte)
    ensures (closed + Padding(k, first, second)) + BitString(PadByte(first, second, k), 8) == closed + Padding(k + 1, first, second)
  {
  }

  lemma {:induction false} XorSwaps(x: nat, y: nat)
    ensures Xor(x, Xor(x, y)) == y && Xor(y, Xor(x, y)) == x
  {
    XorAssociates(x, x, y);
    XorSelf(x);
    XorZero(y);
    XorCommutes(x, y);
    XorAssociates(y, y, x);
    XorSelf(y);
    XorZero(x);
  }

  // ---- the whole encoding ----

  /** The data codewords of a list of segments. */
  function DataOf(tables: CodeTables, segs: seq<Segment>, version: nat, ecl: EccLevel): seq<Byte>
    requires tables.Valid() && IsVersion(version) && FitsIn(tables, segs, version, ecl)
  {
    DataAt(Stream(segs, version), tables.Capacity(version, ecl), SizeOf(version))
  }

  // The depth plays no part: it keeps proofs that only pass the data on from looking inside.
  function DataAt(stream: seq<bool>, capacity: nat, depth: nat): seq<Byte>
    requires |stream| <= capacity && capacity % 8 == 0
    decreases depth
  {
    if depth > 0 then DataAt(stream, capacity, depth - 1) else Pack(FullBits(stream, capacity))
  }

  lemma {:induction false} DataAtIs(stream: seq<bool>, capacity: nat, depth: nat)
    requires |stream| <= capacity && capacity % 8 == 0
    ensures DataAt(stream, capacity, depth) == Pack(FullBits(stream, capacity))
    decreases depth
  {
    if depth > 0 {
      DataAtIs(stream, capacity, depth - 1);
    }
  }

  method BuildData(tables: CodeTables, segs: seq<Segment>, version: nat, ecl: EccLevel) returns (dataCodewords: seq<Byte>)
    requires tables.Valid() && IsVersion(version) && FitsIn(tables, segs, version, ecl)
    ensures dataCodewords == DataOf(tables, segs, version, ecl)
  {
    var bb := BuildStream(segs, version);
    DataAtIs(bb, tables.Capacity(version, ecl), SizeOf(version));
    dataCodewords := FillCapacity(bb, tables.Capacity(version, ecl));
  }

  // The blocks put back in order, from the bits of the grid.
  function ReadData(n: nat, e: nat, bits: seq<bool>): seq<Byte>
    requires n >= 1
  {
    if |bits| % 8 == 0 && e * n <= |bits| / 8
    then Interleaving.ReadAll(Interleaving.ShapeOf(n, e, |bits| / 8), Pack(bits), n)
    else []
  }

  /** A reader of the finished grid: level, mask and codewords, then the blocks put back in order,
      then the segments. */
  function ReadMessage(tables: CodeTables, g: Grid, version: nat): seq<Payload>
    requires tables.Valid() && IsVersion(version) && Square(g, SizeOf(version))
  {
    var reading := ReadSymbol(LayoutOf(version), g, 8 * RawCodewords(version));
    var data := ReadData(tables.Blocks(version, reading.ecl), tables.EccLen(version, reading.ecl), reading.bits);
    ReadStream(BitsOf(data), version)
  }

  lemma {:induction false} ReadFullBits(ps: seq<Payload>, version: nat, b: seq<bool>, capacity: nat)
    requires IsVersion(version) && AllWellFormed(ps) && CountsFit(SegmentsOf(ps), version)
    requires b == Stream(SegmentsOf(ps), version) && |b| <= capacity && capacity % 8 == 0
    ensures ReadStream(FullBits(b, capacity), version) == ps
  {
    var full := FullBits(b, capacity);
    FullBitsEnd(b, capacity);
    var tail := full[|b|..];
    assert full == b + tail;
    StreamRoundTrip(ps, version, tail);
  }

  lemma {:induction false} ReadDataOf(tables: CodeTables, ps: seq<Payload>, version: nat, ecl: EccLevel)
    requires tables.Valid() && IsVersion(version) && AllWellFormed(ps)
    requires FitsIn(tables, SegmentsOf(ps), version, ecl)
    ensures ReadStream(BitsOf(DataOf(tables, SegmentsOf(ps), version, ecl)), version) == ps
  {
    var capacity := tables.Capacity(version, ecl);
    DataAtIs(Stream(SegmentsOf(ps), version), capacity, SizeOf(version));
    BitsOfPack(FullBits(Stream(SegmentsOf(ps), version), capacity));
    ReadFullBits(ps, version, Stream(SegmentsOf(ps), version), capacity);
  }

  lemma {:induction false} ReadCodewords(tables: CodeTables, data: seq<Byte>, version: nat, ecl: EccLevel)
    requires tables.Valid() && IsVersion(version)
    requires AllCodewords(tables, version, ecl, data).Done?
    ensures ReadData(tables.Blocks(version, ecl), tables.EccLen(version, ecl),
                     BitsOf(AllCodewords(tables, version, ecl, data).value)) == data
  {
    var n, e, raw := tables.Blocks(version, ecl), tables.EccLen(version, ecl), RawCodewords(version);
    var codewords := AllCodewords(tables, version, ecl, data).value;
    AllCodewordsAre(tables, version, ecl, data);
    Interleaving.DataRecovered(Interleaving.ShapeOf(n, e, raw), data);
    PackOfBits(codewords);
    assert |BitsOf(codewords)| == 8 * raw;
  }

  /** Whole-encoder round trip: whatever the mask, the data that went into the segments can be
      read from the finished grid. */
  lemma {:induction false} MessageRoundTrip(tables: CodeTables, ps: seq<Payload>, version: nat, ecl: EccLevel,
                                            codewords: seq<Byte>, mask: nat)
    requires tables.Valid() && IsVersion(version) && AllWellFormed(ps) && mask < 8
    requires FitsIn(tables, SegmentsOf(ps), version, ecl)
    requires AllCodewords(tables, version, ecl, DataOf(tables, SegmentsOf(ps), version, ecl)) == Done(codewords)
    ensures ReadMessage(tables, WithMask(LayoutOf(version), UnmaskedSymbol(version, ecl, codewords), ecl, mask), version) == ps
  {
    LayoutProper(version);
    ReadCodewords(tables, DataOf(tables, SegmentsOf(ps), version, ecl), version, ecl);
    AllCodewordsLength(tables, version, ecl, DataOf(tables, SegmentsOf(ps), version, ecl));
    RoomForCodewords(version);
    SymbolRoundTrip(LayoutOf(version), Patterned(version, ecl), ecl, codewords, mask);
    ReadDataOf(tables, ps, version, ecl);
  }

  // The symbol holds the segments, under the requested or the best mask.
  ghost predicate Holds(tables: CodeTables, segs: seq<Segment>, mask: int, qr: QrCode)
    requires tables.Valid()
    reads qr
  {
    && IsVersion(qr.version) && FitsIn(tables, segs, qr.version, qr.ecl)
    && var codewords := AllCodewords(tables, qr.version, qr.ecl, DataOf(tables, segs, qr.version, qr.ecl));
       && codewords.Done?
       && qr.IsSymbol(LayoutOf(qr.version), UnmaskedSymbol(qr.version, qr.ecl, codewords.value), mask)
  }

  // A reader of the grid finds the data the segments were made from, if the factories made them.
  ghost predicate Reads(tables: CodeTables, segs: seq<Segment>, version: int, modules: Grid)
  {
    tables.Valid() && IsVersion(version) && Square(modules, SizeOf(version))
    && forall ps :: AllWellFormed(ps) && SegmentsOf(ps) == segs ==> ReadMessage(tables, modules, version) == ps
  }

  // The version is the least in range that holds the segments, the level is raised if wanted.
  predicate IsChoice(tables: CodeTables, segs: seq<Segment>, ecl: EccLevel, minVersion: int, maxVersion: int,
                     boostEcl: bool, version: int, level: EccLevel)
    requires tables.Valid()
  {
    && MIN_VERSION <= minVersion <= version <= maxVersion <= MAX_VERSION
    && FitsIn(tables, segs, version, ecl) && NoneFits(tables, segs, minVersion, version, ecl)
    && level == Boosted(tables, version, TotalBits(segs, version).bits, ecl, boostEcl)
  }

  // The symbol made from the segments: least version, safe level, requested or best mask.
  ghost predicate IsEncoding(tables: CodeTables, segs: seq<Segment>, ecl: EccLevel, minVersion: int, maxVersion: int,
                             mask: int, boostEcl: bool, qr: QrCode)
    requires tables.Valid()
    reads qr
  {
    IsChoice(tables, segs, ecl, minVersion, maxVersion, boostEcl, qr.version, qr.ecl) && Holds(tables, segs, mask, qr)
  }

  /** encodeSegments: no assertion in it can fail, and with usable code tables it succeeds exactly if
      the arguments are in range and a version in range holds the segments. */
  method EncodeSegments(tables: CodeTables, segs: seq<Segment>, ecl: EccLevel, minVersion: int, maxVersion: int,
                        mask: int, boostEcl: bool)
    returns (r: Outcome<QrCode>)
    requires tables.Valid()
    ensures r.Done? || r == RangeError
    ensures r.Done? ==> MIN_VERSION <= minVersion <= maxVersion <= MAX_VERSION && -1 <= mask <= 7
    ensures (MIN_VERSION <= minVersion <= maxVersion <= MAX_VERSION && -1 <= mask <= 7) ==>
      && (r.Done? ==> !NoneFits(tables, segs, minVersion, maxVersion + 1, ecl))
      && (tables.Usable() && !NoneFits(tables, segs, minVersion, maxVersion + 1, ecl) ==> r.Done?)
    ensures r.Done? ==> fresh(r.value) && IsEncoding(tables, segs, ecl, minVersion, maxVersion, mask, boostEcl, r.value)
    ensures r.Done? ==> Reads(tables, segs, r.value.version, r.value.modules)
  {
    if !(MIN_VERSION <= minVersion && minVersion <= maxVersion && maxVersion <= MAX_VERSION) || mask < -1 || mask > 7 {
      return RangeError;
    }
    var chosen := Choose(tables, segs, ecl, minVersion, maxVersion, boostEcl);
    if !chosen.Done? {
      return RangeError;
    }
    var (version, level) := chosen.value;
    r := EncodeAt(tables, segs, version, level, mask);
  }

  // The version loop, then the level loop.
  method Choose(tables: CodeTables, segs: seq<Segment>, ecl: EccLevel, minVersion: nat, maxVersion: nat, boostEcl: bool)
    returns (r: Outcome<(nat, EccLevel)>)
    requires tables.Valid() && MIN_VERSION <= minVersion <= maxVersion <= MAX_VERSION
    ensures r.Done? <==> !NoneFits(tables, segs, minVersion, maxVersion + 1, ecl)
    ensures r.Done? ==>
      && IsChoice(tables, segs, ecl, minVersion, maxVersion, boostEcl, r.value.0, r.value.1)
      && FitsIn(tables, segs, r.value.0, r.value.1)
  {
    var found := FindVersion(tables, segs, ecl, minVersion, maxVersion);
    if !found.Done? {
      return RangeError;
    }
    var (version, dataUsedBits) := found.value;
    NoneFitsUpTo(tables, segs, minVersion, version, maxVersion + 1, ecl);
    var level := RaiseLevel(tables, segs, version, dataUsedBits, ecl, boostEcl);
    return Done((version, level));
  }

  // A version of the range that fits.
  lemma {:induction false} NoneFitsUpTo(tables: CodeTables, segs: seq<Segment>, from: nat, v: nat, to: nat, ecl: EccLevel)
    requires tables.Valid() && MIN_VERSION <= from <= v < to <= MAX_VERSION + 1
    requires FitsIn(tables, segs, v, ecl)
    ensures !NoneFits(tables, segs, from, to, ecl)
  {
    if v < to - 1 {
      NoneFitsUpTo(tables, segs, from, v, to - 1, ecl);
    }
  }

  // The loop over the higher levels.
  method RaiseLevel(tables: CodeTables, segs: seq<Segment>, version: nat, bits: nat, ecl: EccLevel, boostEcl: bool)
    returns (level: EccLevel)
    requires tables.Valid() && IsVersion(version)
    requires FitsIn(tables, segs, version, ecl) && TotalBits(segs, version) == Finite(bits)
    ensures level == Boosted(tables, version, bits, ecl, boostEcl) && FitsIn(tables, segs, version, level)
  {
    BoostIsSafe(tables, version, bits, ecl, boostEcl);
    level := ecl;
    for n := 0 to 3
      invariant level == if boostEcl then Raised(tables, version, bits, ecl, n) else ecl
    {
      var newEcl := LevelTried(n + 1);
      if boostEcl && bits <= tables.Capacity(version, newEcl) {
        level := newEcl;
      }
    }
  }

  // Data of the right length are refused only if the block length is no degree.
  lemma {:induction false} RefusedData(tables: CodeTables, version: nat, ecl: EccLevel, data: seq<Byte>)
    requires tables.Valid() && IsVersion(version) && |data| * 8 == tables.Capacity(version, ecl)
    ensures AllCodewords(tables, version, ecl, data).Done? <==> 1 <= tables.EccLen(version, ecl) <= 255
  {
    AllCodewordsAre(tables, version, ecl, data);
  }

  lemma {:induction false} Refused(tables: CodeTables, segs: seq<Segment>, version: nat, ecl: EccLevel)
    requires tables.Valid() && IsVersion(version) && FitsIn(tables, segs, version, ecl)
    ensures AllCodewords(tables, version, ecl, DataOf(tables, segs, version, ecl)).Done? <==> 1 <= tables.EccLen(version, ecl) <= 255
  {
    DataAtIs(Stream(segs, version), tables.Capacity(version, ecl), SizeOf(version));
    RefusedData(tables, version, ecl, DataOf(tables, segs, version, ecl));
  }

  lemma {:induction false} SegmentsRead(tables: CodeTables, segs: seq<Segment>, version: nat, ecl: EccLevel, mask: nat)
    requires tables.Valid() && IsVersion(version) && FitsIn(tables, segs, version, ecl) && mask < 8
    ensures var codewords := AllCodewords(tables, version, ecl, DataOf(tables, segs, version, ecl));
      codewords.Done? ==>
        Reads(tables, segs, version, WithMask(LayoutOf(version), UnmaskedSymbol(version, ecl, codewords.value), ecl, mask))
  {
    var codewords := AllCodewords(tables, version, ecl, DataOf(tables, segs, version, ecl));
    if codewords.Done? {
      forall ps | AllWellFormed(ps) && SegmentsOf(ps) == segs
        ensures ReadMessage(tables, WithMask(LayoutOf(version), UnmaskedSymbol(version, ecl, codewords.value), ecl, mask), version) == ps
      {
        MessageRoundTrip(tables, ps, version, ecl, codewords.value, mask);
      }
    }
  }

  // Version and level are settled: the data codewords are built and drawn.
  method EncodeAt(tables: CodeTables, segs: seq<Segment>, version: nat, level: EccLevel, mask: int)
    returns (r: Outcome<QrCode>)
    requires tables.Valid() && IsVersion(version) && FitsIn(tables, segs, version, level) && -1 <= mask <= 7
    ensures if 1 <= tables.EccLen(version, level) <= 255 then r.Done? else r == RangeError
    ensures r.Done? ==> fresh(r.value) && r.value.version == version && r.value.ecl == level
    ensures r.Done? ==> Holds(tables, segs, mask, r.value) && Reads(tables, segs, version, r.value.modules)
  {
    var dataCodewords := BuildData(tables, segs, version, level);
    Refused(tables, segs, version, level);
    r := QrCode.Create(tables, version, level, dataCodewords, mask);
    if r.Done? {
      SegmentsRead(tables, segs, version, level, r.value.mask);
    }
  }

  /** encodeText: the least version, a raised level and the best mask; a reader of the grid finds
      the text again. */
  method EncodeText(tables: CodeTables, text: string, utf8: seq<Byte>, ecl: EccLevel) returns (r: Outcome<QrCode>)
    requires tables.Valid()
    ensures r.Done? ==>
      && IsVersion(r.value.version) && Square(r.value.modules, SizeOf(r.value.version))
      && ReadMessage(tables, r.value.modules, r.value.version) == PayloadsFor(text, utf8)
      && r.value.ecl.Ordinal() >= ecl.Ordinal()
    ensures r.Done? || r == RangeError
    ensures r.Done? ==> !NoneFits(tables, SegmentsOf(PayloadsFor(text, utf8)), MIN_VERSION, MAX_VERSION + 1, ecl)
    ensures tables.Usable() && !NoneFits(tables, SegmentsOf(PayloadsFor(text, utf8)), MIN_VERSION, MAX_VERSION + 1, ecl) ==> r.Done?
  {
    var segs := MakeSegments(text, utf8);
    r := EncodeSegments(tables, segs.value, ecl, MIN_VERSION, MAX_VERSION, -1, true);
    if r.Done? {
      BoostIsSafe(tables, r.value.version, TotalBits(segs.value, r.value.version).bits, ecl, true);
    }
  }
}
