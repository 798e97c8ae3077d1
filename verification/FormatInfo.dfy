/** The format and version words with their error correcting codes
    (frontend/js/qrcodegen.js, drawFormatBits and drawVersion). */
module FormatInfo {
  import opened Bits
  import opened Tables

  const FORMAT_GENERATOR := 0x537
  const FORMAT_MASK := 0x5412
  const VERSION_GENERATOR := 0x1F25

  // One turn of the remainder loops: (rem << 1) ^ ((rem >>> (width - 1)) * generator).
  function BchStep(rem: nat, width: nat, generator: nat): nat
    requires width > 0
  {
    Xor(2 * rem, if rem >= Pow2(width - 1) then generator else 0)
  }

  function BchRemainder(data: nat, n: nat, width: nat, generator: nat): nat
    requires width > 0
  {
    if n == 0 then data else BchStep(BchRemainder(data, n - 1, width, generator), width, generator)
  }

  lemma {:induction false} ShrTop(a: nat, w: nat)
    requires a < Pow2(w + 1)
    ensures Shr(a, w) == if a >= Pow2(w) then 1 else 0
  {
    ShrZero(a, w);
    ShrZero(a, w + 1);
    ShrStep(a, w);
  }

  // The multiplication of the source is by a single bit.
  lemma {:induction false} BchWordForm(rem: nat, width: nat, generator: nat)
    requires width > 0 && rem < Pow2(width)
    ensures Xor(2 * rem, Shr(rem, width - 1) * generator) == BchStep(rem, width, generator)
  {
    ShrTop(rem, width - 1);
  }

  lemma {:induction false} TopsCancel(a: nat, b: nat, w: nat)
    requires Pow2(w) <= a < Pow2(w + 1) && Pow2(w) <= b < Pow2(w + 1)
    ensures Xor(a, b) < Pow2(w)
  {
    ShrTop(a, w);
    ShrTop(b, w);
    XorShr(a, b, w);
    XorSelf(1);
    ShrZero(Xor(a, b), w);
  }

  lemma {:induction false} BchRemainderFits(data: nat, n: nat, width: nat, generator: nat)
    requires width > 0 && data < Pow2(width) <= generator < Pow2(width + 1)
    ensures BchRemainder(data, n, width, generator) < Pow2(width)
  {
    if n > 0 {
      BchRemainderFits(data, n - 1, width, generator);
      var rem := BchRemainder(data, n - 1, width, generator);
      XorZero(2 * rem);
      if rem >= Pow2(width - 1) {
        TopsCancel(2 * rem, generator, width);
      }
    }
  }

  function Shl(a: nat, n: nat): nat {
    if n == 0 then a else 2 * Shl(a, n - 1)
  }

  // The quotient collected by n turns of the loop.
  function BchQuotient(data: nat, n: nat, width: nat, generator: nat): nat
    requires width > 0
  {
    if n == 0 then 0
    else 2 * BchQuotient(data, n - 1, width, generator)
         + (if BchRemainder(data, n - 1, width, generator) >= Pow2(width - 1) then 1 else 0)
  }

  /** Data shifted left, plus the remainder, is a multiple of the generator: the word belongs to
      the code that the generator spans. */
  lemma {:induction false} BchMultiple(data: nat, n: nat, width: nat, generator: nat)
    requires width > 0
    ensures Xor(Shl(data, n), BchRemainder(data, n, width, generator))
         == CarrylessProduct(generator, BchQuotient(data, n, width, generator))
  {
    if n == 0 {
      XorSelf(data);
    } else {
      BchMultiple(data, n - 1, width, generator);
      var rem, a := BchRemainder(data, n - 1, width, generator), Shl(data, n - 1);
      var q, top := BchQuotient(data, n - 1, width, generator), rem >= Pow2(width - 1);
      DoubledXor(a, rem, if top then generator else 0);
      CarrylessStep(generator, q, top);
      assert BchQuotient(data, n, width, generator) == 2 * q + (if top then 1 else 0);
      assert BchRemainder(data, n, width, generator) == Xor(2 * rem, if top then generator else 0);
    }
  }

  lemma {:induction false} ShlTimes(a: nat, n: nat)
    ensures Shl(a, n) == a * Pow2(n)
  {
    if n > 0 {
      ShlTimes(a, n - 1);
      assert a * Pow2(n) == 2 * (a * Pow2(n - 1));
    }
  }

  // Shifted words do not overlap, so `|` is addition.
  lemma {:induction false} ShiftedOr(a: nat, b: nat, n: nat)
    requires b < Pow2(n)
    ensures Xor(Shl(a, n), b) == Shl(a, n) + b
  {
    if n == 0 {
      XorZero(a);
    } else {
      ShiftedOr(a, b / 2, n - 1);
      XorHalf(Shl(a, n), b);
    }
  }

  // ---- the format word ----

  function FormatData(ecl: EccLevel, mask: nat): nat {
    ecl.FormatBits() * 8 + mask
  }

  function FormatCode(data: nat): nat {
    data * 1024 + BchRemainder(data, 10, 10, FORMAT_GENERATOR)
  }

  /** The fifteen format bits for a level and a mask (spelled out by FormatWordIs). */
  function FormatWord(ecl: EccLevel, mask: nat): nat {
    FormatWordAt(ecl, mask, mask + 9)
  }

  // The depth plays no part: it keeps proofs that only pass the word on from looking inside.
  function FormatWordAt(ecl: EccLevel, mask: nat, depth: nat): nat {
    if depth > 0 then FormatWordAt(ecl, mask, depth - 1)
    else Xor(FormatCode(FormatData(ecl, mask)), FORMAT_MASK)
  }

  lemma {:induction false} FormatWordAtIs(ecl: EccLevel, mask: nat, depth: nat)
    ensures FormatWordAt(ecl, mask, depth) == Xor(FormatCode(FormatData(ecl, mask)), FORMAT_MASK)
  {
    if depth > 0 {
      FormatWordAtIs(ecl, mask, depth - 1);
    }
  }

  lemma {:induction false} FormatWordIs(ecl: EccLevel, mask: nat)
    ensures FormatWord(ecl, mask) == Xor(FormatCode(FormatData(ecl, mask)), FORMAT_MASK)
  {
    FormatWordAtIs(ecl, mask, mask + 9);
  }

  lemma {:induction false} MorePowers(n: nat)
    ensures Pow2(n + 5) == 32 * Pow2(n)
    ensures Pow2(n + 8) == 256 * Pow2(n)
  {
    assert Pow2(n + 2) == 4 * Pow2(n);
    assert Pow2(n + 4) == 4 * Pow2(n + 2);
    assert Pow2(n + 6) == 4 * Pow2(n + 4);
  }

  lemma {:induction false} FormatPowers()
    ensures Pow2(10) == 1024 && Pow2(11) == 2048 && Pow2(12) == 4096 && Pow2(13) == 8192 && Pow2(15) == 32768
    ensures Pow2(18) == 262144
  {
    Powers();
    MorePowers(2);
    MorePowers(3);
    MorePowers(4);
    MorePowers(5);
    MorePowers(7);
    MorePowers(10);
  }

  // What a reader of the symbol makes of a format word.
  function DecodeFormat(word: nat): (EccLevel, nat)
  {
    DecodeWith(word, FORMAT_MASK)
  }

  function DecodeWith(word: nat, m: nat): (EccLevel, nat) {
    DecodeData((Xor(word, m) / 1024) % 32)
  }

  function DecodeData(data: nat): (EccLevel, nat)
    requires data < 32
  {
    (LevelOfFormat(data / 8), data % 8)
  }

  lemma {:induction false} DataRoundTrip(ecl: EccLevel, mask: nat)
    requires mask < 8
    ensures FormatData(ecl, mask) < 32 && DecodeData(FormatData(ecl, mask)) == (ecl, mask)
  {
    assert FormatData(ecl, mask) / 8 == ecl.FormatBits() && FormatData(ecl, mask) % 8 == mask;
  }

  lemma {:induction false} FormatCodeFits(data: nat)
    requires data < 32
    ensures FormatCode(data) < 32768 && FormatCode(data) / 1024 == data
  {
    FormatPowers();
    BchRemainderFits(data, 10, 10, FORMAT_GENERATOR);
  }

  lemma {:induction false} Unmasked(code: nat, m: nat, n: nat)
    requires code < Pow2(n) && m < Pow2(n)
    ensures Xor(code, m) < Pow2(n)
    ensures Xor(Xor(code, m), m) == code
  {
    XorBound(code, m, n);
    XorCancel(code, m);
  }

  /** The format word fits fifteen bits and determines the level and the mask. */
  lemma {:induction false} FormatRoundTrip(ecl: EccLevel, mask: nat)
    requires mask < 8
    ensures FormatWord(ecl, mask) < 32768
    ensures DecodeFormat(FormatWord(ecl, mask)) == (ecl, mask)
  {
    var data := FormatData(ecl, mask);
    FormatCodeFits(data);
    FormatWordIs(ecl, mask);
    MaskedWord(FormatCode(data), FORMAT_MASK, ecl, mask);
  }

  lemma {:induction false} MaskedWord(code: nat, m: nat, ecl: EccLevel, mask: nat)
    requires mask < 8 && code < 32768 && m < 32768 && code / 1024 == FormatData(ecl, mask)
    ensures Xor(code, m) < 32768
    ensures DecodeWith(Xor(code, m), m) == (ecl, mask)
  {
    FormatPowers();
    Unmasked(code, m, 15);
    DataRoundTrip(ecl, mask);
  }

  /** ... and before masking it is a codeword of the format code. */
  lemma {:induction false} FormatCodeIsMultiple(data: nat)
    requires data < 32
    ensures FormatCode(data) == CarrylessProduct(FORMAT_GENERATOR, BchQuotient(data, 10, 10, FORMAT_GENERATOR))
  {
    FormatPowers();
    BchRemainderFits(data, 10, 10, FORMAT_GENERATOR);
    BchMultiple(data, 10, 10, FORMAT_GENERATOR);
    ShlTimes(data, 10);
    ShiftedOr(data, BchRemainder(data, 10, 10, FORMAT_GENERATOR), 10);
  }

  /** What a format word is: with the mask 0x5412 taken off, the bits of the level and the number of
      the mask pattern in its upper five digits, in a multiple of the generator 0x537. */
  lemma {:induction false} FormatWordMeans(ecl: EccLevel, mask: nat, g: nat, m: nat)
    requires mask < 8 && g == 0x537 && m == 0x5412
    ensures var code := Xor(FormatWord(ecl, mask), m);
      var data := (if ecl.Low? then 1 else if ecl.Medium? then 0 else if ecl.Quartile? then 3 else 2) * 8 + mask;
      && FormatWord(ecl, mask) < 32768 && code < 32768 && code / 1024 == data
      && code == CarrylessProduct(g, BchQuotient(data, 10, 10, g))
  {
    var data := FormatData(ecl, mask);
    FormatWordIs(ecl, mask);
    FormatRoundTrip(ecl, mask);
    FormatCodeFits(data);
    FormatCodeIsMultiple(data);
    FormatPowers();
    Unmasked(FormatCode(data), m, 15);
  }

  // ---- the version word ----

  /** The eighteen version bits. */
  function VersionWord(version: nat): nat {
    version * 4096 + BchRemainder(version, 12, 12, VERSION_GENERATOR)
  }

  lemma {:induction false} VersionWordFits(version: nat)
    requires version < 64
    ensures VersionWord(version) < 262144 && VersionWord(version) / 4096 == version
  {
    FormatPowers();
    BchRemainderFits(version, 12, 12, VERSION_GENERATOR);
  }

  lemma {:induction false} VersionWordIsMultiple(version: nat)
    requires version < 64
    ensures VersionWord(version)
         == CarrylessProduct(VERSION_GENERATOR, BchQuotient(version, 12, 12, VERSION_GENERATOR))
  {
    FormatPowers();
    BchRemainderFits(version, 12, 12, VERSION_GENERATOR);
    BchMultiple(version, 12, 12, VERSION_GENERATOR);
    ShlTimes(version, 12);
    ShiftedOr(version, BchRemainder(version, 12, 12, VERSION_GENERATOR), 12);
  }

  /** What a version word is: the version in its upper six digits, in a multiple of the generator
      0x1F25. */
  lemma {:induction false} VersionWordMeans(version: nat, g: nat)
    requires version < 64 && g == 0x1F25
    ensures VersionWord(version) < 262144 && VersionWord(version) / 4096 == version
    ensures VersionWord(version) == CarrylessProduct(g, BchQuotient(version, 12, 12, g))
  {
    VersionWordFits(version);
    VersionWordIsMultiple(version);
  }

  /** The remainder loop, shared by the format and the version word. */
  method ComputeBch(data: nat, n: nat, width: nat, generator: nat) returns (rem: nat)
    requires width > 0 && data < Pow2(width) <= generator < Pow2(width + 1)
    ensures rem == BchRemainder(data, n, width, generator)
  {
    rem := data;
    for i := 0 to n
      invariant rem == BchRemainder(data, i, width, generator)
    {
      // the source's (rem << 1) ^ ((rem >>> (width - 1)) * generator), see BchWordForm
      rem := BchStep(rem, width, generator);
    }
  }
}
