/** Data segments (frontend/js/qrcodegen.js, class QrSegment) and a reader of their bit stream. */
module Segments {
  import opened Bits
  import opened BitStrings
  import opened Outcomes
  import opened Tables

  datatype Mode = Numeric | Alphanumeric | ByteMode | Kanji | Eci
  {
    function ModeBits(): (n: nat)
      ensures 0 < n < 16
    {
      match this
      case Numeric => 1
      case Alphanumeric => 2
      case ByteMode => 4
      case Kanji => 8
      case Eci => 7
    }

    /** numCharCountBits. */
    function CharCountBits(version: nat): (n: nat)
      requires IsVersion(version)
      ensures n <= 16
    {
      var band := (version + 7) / 17;
      match this
      case Numeric => if band == 0 then 10 else if band == 1 then 12 else 14
      case Alphanumeric => if band == 0 then 9 else if band == 1 then 11 else 13
      case ByteMode => if band == 0 then 8 else 16
      case Kanji => if band == 0 then 8 else if band == 1 then 10 else 12
      case Eci => 0
    }
  }

  datatype Segment = Segment(mode: Mode, numChars: nat, bitData: seq<bool>)

  // ---- what the factories encode ----

  datatype Payload =
    | Digits(digits: string)
    | Text(text: string)
    | Bytes(data: seq<Byte>)
    | Assignment(assignVal: nat)

  predicate IsDigit(c: char) {
    '0' <= c <= '9'
  }

  // The alphanumeric characters, by IndexOf: 0 to 9, A to Z, space and $ % * + - . / :
  predicate InCharset(c: char) {
    || IsDigit(c) || 'A' <= c <= 'Z' || c == ' ' || c == '$' || c == '%' || c == '*' || c == '+'
    || c == '-' || c == '.' || c == '/' || c == ':'
  }

  // Position of a character in the set.
  function IndexOf(c: char): (i: nat)
    requires InCharset(c)
    ensures i < 45
  {
    if IsDigit(c) then (c - '0') as nat
    else if 'A' <= c <= 'Z' then 10 + (c - 'A') as nat
    else if c == ' ' then 36
    else if c == '$' then 37
    else if c == '%' then 38
    else if c == '*' then 39
    else if c == '+' then 40
    else if c == '-' then 41
    else if c == '.' then 42
    else if c == '/' then 43
    else 44
  }

  function CharAt(i: nat): (c: char)
    requires i < 45
    ensures InCharset(c) && IndexOf(c) == i
  {
    if i < 10 then '0' + i as char
    else if i < 36 then 'A' + (i - 10) as char
    else if i == 36 then ' '
    else if i == 37 then '$'
    else if i == 38 then '%'
    else if i == 39 then '*'
    else if i == 40 then '+'
    else if i == 41 then '-'
    else if i == 42 then '.'
    else if i == 43 then '/'
    else ':'
  }

  lemma {:induction false} CharOfIndex(c: char)
    requires InCharset(c)
    ensures CharAt(IndexOf(c)) == c
  {
  }

  predicate WellFormed(p: Payload) {
    match p
    case Digits(digits) => forall i :: 0 <= i < |digits| ==> IsDigit(digits[i])
    case Text(text) => forall i :: 0 <= i < |text| ==> InCharset(text[i])
    case Bytes(_) => true
    case Assignment(v) => v < 1000000
  }

  // ---- numeric mode: three digits in ten bits ----

  function DigitOf(c: char): (d: nat)
    requires IsDigit(c)
    ensures d < 10
  {
    (c - '0') as nat
  }

  function DecimalValue(s: string): (n: nat)
    requires forall i :: 0 <= i < |s| ==> IsDigit(s[i])
  {
    if s == [] then 0 else 10 * DecimalValue(s[..|s| - 1]) + DigitOf(s[|s| - 1])
  }

  // n as exactly k digits.
  function DecimalDigits(n: nat, k: nat): (s: string)
    ensures |s| == k
  {
    if k == 0 then [] else DecimalDigits(n / 10, k - 1) + ['0' + (n % 10) as char]
  }

  lemma {:induction false} DigitsOfValue(s: string)
    requires forall i :: 0 <= i < |s| ==> IsDigit(s[i])
    ensures DecimalDigits(DecimalValue(s), |s|) == s
  {
    if s != [] {
      var t := s[..|s| - 1];
      DigitsOfValue(t);
      assert s == t + [s[|s| - 1]];
    }
  }

  lemma {:induction false} GroupBound(s: string)
    requires |s| <= 3 && forall i :: 0 <= i < |s| ==> IsDigit(s[i])
    ensures DecimalValue(s) < (if |s| == 0 then 1 else if |s| == 1 then 10 else if |s| == 2 then 100 else 1000)
  {
    if s != [] {
      GroupBound(s[..|s| - 1]);
    }
  }

  lemma {:induction false} GroupValue(s: string)
    requires |s| <= 3 && forall i :: 0 <= i < |s| ==> IsDigit(s[i])
    ensures DecimalValue(s) < Pow2(3 * |s| + 1)
  {
    GroupBound(s);
    Powers();
    assert Pow2(10) == 1024;
  }

  function Group(n: nat): nat {
    if n < 3 then n else 3
  }

  function NumericBits(s: string): (b: seq<bool>)
    requires forall i :: 0 <= i < |s| ==> IsDigit(s[i])
  {
    if s == [] then []
    else
      var n := Group(|s|);
      BitString(DecimalValue(s[..n]), n * 3 + 1) + NumericBits(s[n..])
  }

  // The text of a numeric segment and what follows it, if the bits suffice.
  function ReadNumeric(count: nat, b: seq<bool>): Read<string>
  {
    if count == 0 then Read([], b)
    else
      var n := Group(count);
      if |b| < n * 3 + 1 then Malformed
      else
        match ReadNumeric(count - n, b[n * 3 + 1..])
        case Malformed => Malformed
        case Read(s, rest) => Read(DecimalDigits(Value(b[..n * 3 + 1]), n) + s, rest)
  }

  datatype Read<+T> = Malformed | Read(value: T, rest: seq<bool>)

  lemma {:induction false} SplitAt(a: seq<bool>, b: seq<bool>, c: seq<bool>)
    ensures ((a + b) + c)[..|a|] == a && ((a + b) + c)[|a|..] == b + c
  {
  }

  lemma {:induction false} ReadNumericBits(s: string, rest: seq<bool>)
    requires forall i :: 0 <= i < |s| ==> IsDigit(s[i])
    ensures ReadNumeric(|s|, NumericBits(s) + rest) == Read(s, rest)
    decreases |s|
  {
    if s == [] {
      assert NumericBits(s) + rest == rest;
    } else {
      var n := Group(|s|);
      var head, tail := s[..n], s[n..];
      ReadNumericBits(tail, rest);
      GroupValue(head);
      ValueOfBitString(DecimalValue(head), n * 3 + 1);
      SplitAt(BitString(DecimalValue(head), n * 3 + 1), NumericBits(tail), rest);
      DigitsOfValue(head);
      assert s == head + tail;
    }
  }

  // ---- alphanumeric mode: two characters in eleven bits ----

  function TextBits(s: string): (b: seq<bool>)
    requires forall i :: 0 <= i < |s| ==> InCharset(s[i])
  {
    if s == [] then []
    else if |s| == 1 then BitString(IndexOf(s[0]), 6)
    else BitString(IndexOf(s[0]) * 45 + IndexOf(s[1]), 11) + TextBits(s[2..])
  }

  function ReadText(count: nat, b: seq<bool>): Read<string>
  {
    if count == 0 then Read([], b)
    else if count == 1 then
      if |b| < 6 || Value(b[..6]) >= 45 then Malformed else Read([CharAt(Value(b[..6]))], b[6..])
    else if |b| < 11 || Value(b[..11]) >= 2025 then Malformed
    else
      var v := Value(b[..11]);
      match ReadText(count - 2, b[11..])
      case Malformed => Malformed
      case Read(s, rest) => Read([CharAt(v / 45), CharAt(v % 45)] + s, rest)
  }

  lemma {:induction false} ReadOneBits(c: char, rest: seq<bool>)
    requires InCharset(c)
    ensures ReadText(1, BitString(IndexOf(c), 6) + rest) == Read([c], rest)
  {
    Powers();
    var v := IndexOf(c);
    ValueOfBitString(v, 6);
    assert (BitString(v, 6) + rest)[..6] == BitString(v, 6) && (BitString(v, 6) + rest)[6..] == rest;
    CharOfIndex(c);
  }

  lemma {:induction false} PairValue(c: char, d: char)
    requires InCharset(c) && InCharset(d)
    ensures var v := IndexOf(c) * 45 + IndexOf(d);
      v < 2025 && Value(BitString(v, 11)) == v && CharAt(v / 45) == c && CharAt(v % 45) == d
  {
    var v := IndexOf(c) * 45 + IndexOf(d);
    Powers();
    assert Pow2(11) == 2048;
    ValueOfBitString(v, 11);
    assert v / 45 == IndexOf(c) && v % 45 == IndexOf(d);
    CharOfIndex(c);
    CharOfIndex(d);
  }

  lemma {:induction false} ReadTextStep(count: nat, head: seq<bool>, after: seq<bool>, t: string, rest: seq<bool>)
    requires count >= 2 && |head| == 11 && Value(head) < 2025
    requires ReadText(count - 2, after) == Read(t, rest)
    ensures ReadText(count, head + after) == Read([CharAt(Value(head) / 45), CharAt(Value(head) % 45)] + t, rest)
  {
    assert (head + after)[..11] == head && (head + after)[11..] == after;
  }

  lemma {:induction false} ReadTextPair(s: string, head: seq<bool>, rest: seq<bool>)
    requires |s| >= 2 && forall i :: 0 <= i < |s| ==> InCharset(s[i])
    requires |head| == 11 && Value(head) < 2025 && TextBits(s) == head + TextBits(s[2..])
    requires CharAt(Value(head) / 45) == s[0] && CharAt(Value(head) % 45) == s[1]
    requires ReadText(|s| - 2, TextBits(s[2..]) + rest) == Read(s[2..], rest)
    ensures ReadText(|s|, TextBits(s) + rest) == Read(s, rest)
  {
    ReadTextStep(|s|, head, TextBits(s[2..]) + rest, s[2..], rest);
    assert (head + TextBits(s[2..])) + rest == head + (TextBits(s[2..]) + rest);
    assert s == [s[0], s[1]] + s[2..];
  }

  lemma {:induction false} ReadTextBits(s: string, rest: seq<bool>)
    requires forall i :: 0 <= i < |s| ==> InCharset(s[i])
    ensures ReadText(|s|, TextBits(s) + rest) == Read(s, rest)
    decreases |s|
  {
    if s == [] {
      assert TextBits(s) + rest == rest;
    } else if |s| == 1 {
      ReadOneBits(s[0], rest);
      assert s == [s[0]];
    } else {
      ReadTextBits(s[2..], rest);
      PairValue(s[0], s[1]);
      ReadTextPair(s, BitString(IndexOf(s[0]) * 45 + IndexOf(s[1]), 11), rest);
    }
  }

  // ---- byte mode ----

  function ByteBits(data: seq<Byte>): (b: seq<bool>) {
    if data == [] then [] else BitString(data[0], 8) + ByteBits(data[1..])
  }

  function ReadBytes(count: nat, b: seq<bool>): Read<seq<Byte>>
  {
    if count == 0 then Read([], b)
    else if |b| < 8 then Malformed
    else
      match ReadBytes(count - 1, b[8..])
      case Malformed => Malformed
      case Read(s, rest) => ByteValue(b[..8]); Read([Value(b[..8])] + s, rest)
  }

  lemma {:induction false} ReadByteBits(data: seq<Byte>, rest: seq<bool>)
    ensures ReadBytes(|data|, ByteBits(data) + rest) == Read(data, rest)
  {
    if data == [] {
      assert ByteBits(data) + rest == rest;
    } else {
      ReadByteBits(data[1..], rest);
      Powers();
      ValueOfBitString(data[0], 8);
      SplitAt(BitString(data[0], 8), ByteBits(data[1..]), rest);
      assert data == [data[0]] + data[1..];
    }
  }

  // ---- ECI ----

  function EciBits(v: nat): seq<bool>
    requires v < 1000000
  {
    if v < 128 then BitString(v, 8)
    else if v < 16384 then BitString(2, 2) + BitString(v, 14)
    else BitString(6, 3) + BitString(v, 21)
  }

  function ReadEci(b: seq<bool>): Read<nat> {
    if |b| >= 8 && !b[0] then Read(Value(b[..8]), b[8..])
    else if |b| >= 16 && b[0] && !b[1] then Read(Value(b[2..16]), b[16..])
    else if |b| >= 24 && b[0] && b[1] && !b[2] then Read(Value(b[3..24]), b[24..])
    else Malformed
  }

  lemma {:induction false} FirstBit(v: nat, len: nat)
    requires len > 0 && v < Pow2(len - 1)
    ensures !BitString(v, len)[0]
  {
    if len > 1 {
      FirstBit(v / 2, len - 1);
    }
  }

  lemma {:induction false} EciPrefixes()
    ensures BitString(2, 2) == [true, false] && BitString(6, 3) == [true, true, false]
  {
    assert BitString(1, 1) == BitString(0, 0) + [true] == [true];
    assert BitString(2, 2) == BitString(1, 1) + [false];
    assert BitString(3, 2) == BitString(1, 1) + [true];
    assert BitString(6, 3) == BitString(3, 2) + [false];
  }

  lemma {:induction false} ReadEciBits(v: nat, rest: seq<bool>)
    requires v < 1000000
    ensures ReadEci(EciBits(v) + rest) == Read(v, rest)
  {
    Powers();
    EciPowers();
    if v < 128 {
      ReadShortEci(v, rest);
    } else if v < 16384 {
      EciPrefixes();
      ValueOfBitString(v, 14);
      ReadLongEci(BitString(2, 2), BitString(v, 14), rest);
    } else {
      EciPrefixes();
      ValueOfBitString(v, 21);
      ReadLongEci(BitString(6, 3), BitString(v, 21), rest);
    }
  }

  lemma {:induction false} ReadShortEci(v: nat, rest: seq<bool>)
    requires v < 128 && Pow2(7) == 128 && Pow2(8) == 256
    ensures ReadEci(BitString(v, 8) + rest) == Read(v, rest)
  {
    var b := BitString(v, 8) + rest;
    ValueOfBitString(v, 8);
    FirstBit(v, 8);
    assert b[..8] == BitString(v, 8) && b[8..] == rest;
  }

  lemma {:induction false} ReadLongEci(prefix: seq<bool>, bits: seq<bool>, rest: seq<bool>)
    requires (prefix == [true, false] && |bits| == 14) || (prefix == [true, true, false] && |bits| == 21)
    ensures ReadEci(prefix + bits + rest) == Read(Value(bits), rest)
  {
    var b, n := prefix + bits + rest, |prefix|;
    assert b[n..n + |bits|] == bits && b[n + |bits|..] == rest;
  }

  lemma {:induction false} EciPowers()
    ensures Pow2(14) == 16384 && Pow2(21) == 2097152
  {
    Powers();
    assert Pow2(11) == 2048;
  }

  // ---- segments and their stream ----

  /** The segment the factory for this kind of data makes. */
  function SegmentOf(p: Payload): Segment
    requires WellFormed(p)
  {
    match p
    case Digits(digits) => Segment(Numeric, |digits|, NumericBits(digits))
    case Text(text) => Segment(Alphanumeric, |text|, TextBits(text))
    case Bytes(data) => Segment(ByteMode, |data|, ByteBits(data))
    case Assignment(v) => Segment(Eci, 0, EciBits(v))
  }

  function SegmentBits(seg: Segment, version: nat): seq<bool>
    requires IsVersion(version)
  {
    BitString(seg.mode.ModeBits(), 4) + BitString(seg.numChars, seg.mode.CharCountBits(version)) + seg.bitData
  }

  function Stream(segs: seq<Segment>, version: nat): seq<bool>
    requires IsVersion(version)
  {
    if segs == [] then [] else Stream(segs[..|segs| - 1], version) + SegmentBits(segs[|segs| - 1], version)
  }

  // Every length fits its count field.
  predicate CountsFit(segs: seq<Segment>, version: nat)
    requires IsVersion(version)
  {
    forall i :: 0 <= i < |segs| ==> segs[i].numChars < Pow2(segs[i].mode.CharCountBits(version))
  }

  datatype Bound = Finite(bits: nat) | Infinity

  /** getTotalBits: the length of the stream, or infinity if a length does not fit its field. */
  function TotalBits(segs: seq<Segment>, version: nat): Bound
    requires IsVersion(version)
  {
    if CountsFit(segs, version) then Finite(|Stream(segs, version)|) else Infinity
  }

  lemma {:induction false} CountedPush(segs: seq<Segment>, seg: Segment, version: nat)
    requires IsVersion(version) && CountsFit(segs, version)
    requires seg.numChars < Pow2(seg.mode.CharCountBits(version))
    ensures CountsFit(segs + [seg], version)
    ensures |Stream(segs + [seg], version)| == |Stream(segs, version)| + 4 + seg.mode.CharCountBits(version) + |seg.bitData|
  {
    assert (segs + [seg])[..|segs|] == segs;
  }

  method GetTotalBits(segs: seq<Segment>, version: nat) returns (result: Bound)
    requires IsVersion(version)
    ensures result == TotalBits(segs, version)
  {
    var bits := 0;
    for i := 0 to |segs|
      invariant CountsFit(segs[..i], version) && bits == |Stream(segs[..i], version)|
    {
      var ccbits := segs[i].mode.CharCountBits(version);
      if segs[i].numChars >= Pow2(ccbits) {
        return Infinity;
      }
      assert segs[..i + 1] == segs[..i] + [segs[i]];
      CountedPush(segs[..i], segs[i], version);
      bits := bits + 4 + ccbits + |segs[i].bitData|;
    }
    assert segs[..|segs|] == segs;
    return Finite(bits);
  }

  // ---- reading the stream ----

  // One segment's payload after its header: the mode is known, the bits follow.
  function ReadBody(mode: Mode, count: nat, b: seq<bool>): Read<Payload> {
    match mode
    case Numeric =>
      (match ReadNumeric(count, b) case Malformed => Malformed case Read(s, rest) => Read(Digits(s), rest))
    case Alphanumeric =>
      (match ReadText(count, b) case Malformed => Malformed case Read(s, rest) => Read(Text(s), rest))
    case ByteMode =>
      (match ReadBytes(count, b) case Malformed => Malformed case Read(s, rest) => Read(Bytes(s), rest))
    case Kanji => Malformed
    case Eci =>
      (match ReadEci(b) case Malformed => Malformed case Read(v, rest) => Read(Assignment(v), rest))
  }

  datatype ModeReading = NoMode | AMode(mode: Mode)

  function ModeOf(n: nat): ModeReading {
    if n == 1 then AMode(Numeric)
    else if n == 2 then AMode(Alphanumeric)
    else if n == 4 then AMode(ByteMode)
    else if n == 7 then AMode(Eci)
    else NoMode
  }

  function ReadSegment(b: seq<bool>, version: nat): Read<Payload>
    requires IsVersion(version)
  {
    if |b| < 4 then Malformed
    else
      match ModeOf(Value(b[..4]))
      case NoMode => Malformed
      case AMode(mode) =>
        var c := mode.CharCountBits(version);
        if |b| < 4 + c then Malformed
        else ReadBody(mode, Value(b[4..4 + c]), b[4 + c..])
  }

  /** All payloads up to the terminator, or to the end of the bits. */
  function ReadStream(b: seq<bool>, version: nat): seq<Payload>
    requires IsVersion(version)
    decreases |b|
  {
    match ReadSegment(b, version)
    case Malformed => []
    case Read(p, rest) => if |rest| < |b| then [p] + ReadStream(rest, version) else []
  }

  // Bits that end a stream: a terminator, or too few bits for a mode.
  predicate EndsStream(b: seq<bool>) {
    |b| < 4 || Value(b[..4]) == 0
  }

  lemma {:induction false} ReadBodyOf(p: Payload, rest: seq<bool>)
    requires WellFormed(p)
    ensures ReadBody(SegmentOf(p).mode, SegmentOf(p).numChars, SegmentOf(p).bitData + rest) == Read(p, rest)
  {
    match p
    case Digits(digits) => ReadNumericBits(digits, rest);
    case Text(text) => ReadTextBits(text, rest);
    case Bytes(data) => ReadByteBits(data, rest);
    case Assignment(v) => ReadEciBits(v, rest);
  }

  lemma {:induction false} ReadHeader(mode: Mode, m: seq<bool>, c: seq<bool>, rest: seq<bool>, version: nat)
    requires IsVersion(version) && mode != Kanji
    requires |m| == 4 && Value(m) == mode.ModeBits() && |c| == mode.CharCountBits(version)
    ensures ReadSegment(m + (c + rest), version) == ReadBody(mode, Value(c), rest)
  {
    var b := m + (c + rest);
    assert b[..4] == m;
    assert b[4..4 + |c|] == c;
    assert b[4 + |c|..] == rest;
  }

  lemma {:induction false} ReadSegmentOf(p: Payload, version: nat, rest: seq<bool>)
    requires IsVersion(version) && WellFormed(p)
    requires SegmentOf(p).numChars < Pow2(SegmentOf(p).mode.CharCountBits(version))
    ensures ReadSegment(SegmentBits(SegmentOf(p), version) + rest, version) == Read(p, rest)
  {
    ReadSegmentParts(SegmentOf(p), version, rest);
    ReadBodyOf(p, rest);
  }

  lemma {:induction false} Regrouped(a: seq<bool>, b: seq<bool>, c: seq<bool>, d: seq<bool>)
    ensures (a + b + c) + d == a + (b + (c + d))
  {
  }

  lemma {:induction false} ReadSegmentParts(seg: Segment, version: nat, rest: seq<bool>)
    requires IsVersion(version) && seg.mode != Kanji && seg.numChars < Pow2(seg.mode.CharCountBits(version))
    ensures ReadSegment(SegmentBits(seg, version) + rest, version) == ReadBody(seg.mode, seg.numChars, seg.bitData + rest)
  {
    var m, n := BitString(seg.mode.ModeBits(), 4), BitString(seg.numChars, seg.mode.CharCountBits(version));
    Powers();
    ValueOfBitString(seg.mode.ModeBits(), 4);
    ValueOfBitString(seg.numChars, seg.mode.CharCountBits(version));
    Regrouped(m, n, seg.bitData, rest);
    ReadHeader(seg.mode, m, n, seg.bitData + rest, version);
  }

  predicate AllWellFormed(ps: seq<Payload>) {
    forall i :: 0 <= i < |ps| ==> WellFormed(ps[i])
  }

  function SegmentsOf(ps: seq<Payload>): (segs: seq<Segment>)
    requires AllWellFormed(ps)
    ensures |segs| == |ps|
  {
    seq(|ps|, i requires 0 <= i < |ps| => SegmentOf(ps[i]))
  }

  lemma {:induction false} StreamPush(segs: seq<Segment>, seg: Segment, version: nat)
    requires IsVersion(version)
    ensures Stream(segs + [seg], version) == Stream(segs, version) + SegmentBits(seg, version)
  {
    assert (segs + [seg])[..|segs|] == segs;
  }

  lemma {:induction false} StreamFirst(first: Segment, rest: seq<Segment>, version: nat)
    requires IsVersion(version)
    ensures Stream([first] + rest, version) == SegmentBits(first, version) + Stream(rest, version)
    decreases |rest|
  {
    if rest == [] {
      assert [first] + rest == [] + [first];
      StreamPush([], first, version);
    } else {
      var n := |rest| - 1;
      assert [first] + rest == ([first] + rest[..n]) + [rest[n]];
      StreamPush([first] + rest[..n], rest[n], version);
      StreamFirst(first, rest[..n], version);
      Joined(SegmentBits(first, version), Stream(rest[..n], version), SegmentBits(rest[n], version));
    }
  }

  lemma {:induction false} Joined(a: seq<bool>, b: seq<bool>, c: seq<bool>)
    ensures (a + b) + c == a + (b + c)
  {
  }

  lemma {:induction false} ReadStreamStep(b: seq<bool>, version: nat, p: Payload, rest: seq<bool>)
    requires IsVersion(version) && ReadSegment(b, version) == Read(p, rest) && |rest| < |b|
    ensures ReadStream(b, version) == [p] + ReadStream(rest, version)
  {
  }

  lemma {:induction false} ReadFirst(p: Payload, segs: seq<Segment>, version: nat, tail: seq<bool>)
    requires IsVersion(version) && WellFormed(p) && segs != [] && segs[0] == SegmentOf(p)
    requires segs[0].numChars < Pow2(segs[0].mode.CharCountBits(version))
    ensures ReadStream(Stream(segs, version) + tail, version)
         == [p] + ReadStream(Stream(segs[1..], version) + tail, version)
  {
    var rest := Stream(segs[1..], version) + tail;
    assert segs == [segs[0]] + segs[1..];
    StreamFirst(segs[0], segs[1..], version);
    Joined(SegmentBits(segs[0], version), Stream(segs[1..], version), tail);
    ReadSegmentOf(p, version, rest);
    ReadStreamStep(SegmentBits(segs[0], version) + rest, version, p, rest);
  }

  /** The stream of factory-made segments reads back as the data they were made from, whatever
      follows the terminator. */
  lemma {:induction false} StreamRoundTrip(ps: seq<Payload>, version: nat, tail: seq<bool>)
    requires IsVersion(version) && AllWellFormed(ps) && CountsFit(SegmentsOf(ps), version)
    requires EndsStream(tail)
    ensures ReadStream(Stream(SegmentsOf(ps), version) + tail, version) == ps
    decreases |ps|
  {
    if ps == [] {
      assert Stream(SegmentsOf(ps), version) + tail == tail;
    } else {
      assert SegmentsOf(ps)[1..] == SegmentsOf(ps[1..]);
      ReadFirst(ps[0], SegmentsOf(ps), version, tail);
      StreamRoundTrip(ps[1..], version, tail);
      assert ps == [ps[0]] + ps[1..];
    }
  }

  // ---- the factories ----

  /** makeBytes. */
  method MakeBytes(data: seq<Byte>) returns (r: Outcome<Segment>)
    ensures r == Done(SegmentOf(Bytes(data)))
  {
    var bb: seq<bool> := [];
    EmptyFirst(ByteBits(data));
    assert data[0..] == data;
    for i := 0 to |data|
      invariant bb + ByteBits(data[i..]) == ByteBits(data)
    {
      BytesStep(data, i, bb);
      bb := AppendOctet(data[i], bb);
    }
    EmptyLast(bb);
    return Done(Segment(ByteMode, |data|, bb));
  }

  method AppendOctet(b: Byte, bb: seq<bool>) returns (r: seq<bool>)
    ensures r == bb + BitString(b, 8)
  {
    Powers();
    var appended := AppendBits(b, 8, bb);
    r := appended.value;
  }

  lemma {:induction false} BytesStep(data: seq<Byte>, i: nat, bb: seq<bool>)
    requires i < |data|
    ensures bb + ByteBits(data[i..]) == (bb + BitString(data[i], 8)) + ByteBits(data[i + 1..])
  {
    assert data[i..][1..] == data[i + 1..];
    assert bb + (BitString(data[i], 8) + ByteBits(data[i + 1..])) == (bb + BitString(data[i], 8)) + ByteBits(data[i + 1..]);
  }

  /** makeNumeric. */
  method MakeNumeric(digits: string) returns (r: Outcome<Segment>)
    ensures r == if WellFormed(Digits(digits)) then Done(SegmentOf(Digits(digits))) else RangeError
  {
    if !WellFormed(Digits(digits)) {
      return RangeError;
    }
    var bb: seq<bool> := [];
    var i := 0;
    EmptyFirst(NumericBits(digits));
    assert digits[0..] == digits;
    while i < |digits|
      invariant 0 <= i <= |digits|
      invariant bb + NumericBits(digits[i..]) == NumericBits(digits)
    {
      var n := Group(|digits| - i);
      NumericStep(digits, i, n, bb);
      var head := digits[i..i + n];
      assert forall k :: 0 <= k < |head| ==> head[k] == digits[i + k];
      bb := AppendDigits(head, bb);
      i := i + n;
    }
    EmptyLast(bb);
    return Done(Segment(Numeric, |digits|, bb));
  }

  // One group of digits.
  method AppendDigits(head: string, bb: seq<bool>) returns (r: seq<bool>)
    requires |head| <= 3 && forall i :: 0 <= i < |head| ==> IsDigit(head[i])
    ensures r == bb + BitString(DecimalValue(head), |head| * 3 + 1)
  {
    GroupValue(head);
    var appended := AppendBits(DecimalValue(head), |head| * 3 + 1, bb);
    r := appended.value;
  }

  lemma {:induction false} NumericStep(digits: string, i: nat, n: nat, bb: seq<bool>)
    requires i < |digits| && n == Group(|digits| - i)
    requires forall k :: 0 <= k < |digits| ==> IsDigit(digits[k])
    ensures bb + NumericBits(digits[i..])
         == (bb + BitString(DecimalValue(digits[i..i + n]), n * 3 + 1)) + NumericBits(digits[i + n..])
  {
    var s := digits[i..];
    assert s[..n] == digits[i..i + n] && s[n..] == digits[i + n..];
    var head, tail := BitString(DecimalValue(digits[i..i + n]), n * 3 + 1), NumericBits(digits[i + n..]);
    assert NumericBits(s) == head + tail;
    assert bb + (head + tail) == (bb + head) + tail;
  }

  /** makeAlphanumeric. */
  method MakeAlphanumeric(text: string) returns (r: Outcome<Segment>)
    ensures r == if WellFormed(Text(text)) then Done(SegmentOf(Text(text))) else RangeError
  {
    if !WellFormed(Text(text)) {
      return RangeError;
    }
    var bb := AppendText(text);
    return Done(Segment(Alphanumeric, |text|, bb));
  }

  // The loop, and the character left over.
  method AppendText(text: string) returns (bb: seq<bool>)
    requires WellFormed(Text(text))
    ensures bb == TextBits(text)
  {
    bb := [];
    var i := 0;
    TextStart(text);
    while i + 2 <= |text|
      invariant 0 <= i <= |text|
      invariant bb + TextFrom(text, i) == TextBits(text)
    {
      bb := AppendPair(text, i, bb);
      i := i + 2;
    }
    if i < |text| {
      bb := AppendSingle(text, i, bb);
    } else {
      TextEnd(text, bb);
    }
  }

  // The bits from character i on.
  ghost function TextFrom(text: string, i: nat): seq<bool>
    requires WellFormed(Text(text)) && i <= |text|
  {
    TextBits(text[i..])
  }

  // The body of the loop, and what is done with a character left over.
  method AppendPair(text: string, i: nat, bb: seq<bool>) returns (r: seq<bool>)
    requires WellFormed(Text(text)) && i + 2 <= |text|
    ensures r + TextFrom(text, i + 2) == bb + TextFrom(text, i)
  {
    TextStep(text, i, bb);
    var temp := IndexOf(text[i]) * 45;
    temp := temp + IndexOf(text[i + 1]);
    PairFits(temp);
    var appended := AppendBits(temp, 11, bb);
    r := appended.value;
  }

  method AppendSingle(text: string, i: nat, bb: seq<bool>) returns (r: seq<bool>)
    requires WellFormed(Text(text)) && |text| == i + 1
    ensures r == bb + TextFrom(text, i)
  {
    assert text[i..] == [text[i]];
    PairFits(0);
    var appended := AppendBits(IndexOf(text[i]), 6, bb);
    r := appended.value;
  }

  lemma {:induction false} PairFits(v: nat)
    requires v < 2025
    ensures v < Pow2(11) && Pow2(6) == 64
  {
    Powers();
    assert Pow2(11) == 2048;
  }

  lemma {:induction false} TextStart(text: string)
    requires WellFormed(Text(text))
    ensures [] + TextFrom(text, 0) == TextBits(text)
  {
    assert text[0..] == text;
  }

  lemma {:induction false} TextStep(text: string, i: nat, bb: seq<bool>)
    requires WellFormed(Text(text)) && i + 2 <= |text|
    ensures bb + TextFrom(text, i)
         == (bb + BitString(IndexOf(text[i]) * 45 + IndexOf(text[i + 1]), 11)) + TextFrom(text, i + 2)
  {
    var s := text[i..];
    assert s[0] == text[i] && s[1] == text[i + 1] && s[2..] == text[i + 2..];
    var head, tail := BitString(IndexOf(text[i]) * 45 + IndexOf(text[i + 1]), 11), TextBits(text[i + 2..]);
    assert TextBits(s) == head + tail;
    assert bb + (head + tail) == (bb + head) + tail;
  }

  lemma {:induction false} TextEnd(text: string, bb: seq<bool>)
    requires WellFormed(Text(text))
    ensures bb + TextFrom(text, |text|) == bb
  {
    assert text[|text|..] == [] && bb + [] == bb;
  }

  /** makeEci. */
  method MakeEci(assignVal: int) returns (r: Outcome<Segment>)
    ensures r == if 0 <= assignVal < 1000000 then Done(SegmentOf(Assignment(assignVal))) else RangeError
  {
    if assignVal < 0 {
      return RangeError;
    }
    EciPowers();
    Powers();
    var bb := Done([]);
    if assignVal < 128 {
      bb := AppendBits(assignVal, 8, []);
    } else if assignVal < 16384 {
      bb := AppendBits(2, 2, []);
      bb := AppendBits(assignVal, 14, bb.value);
    } else if assignVal < 1000000 {
      bb := AppendBits(6, 3, []);
      bb := AppendBits(assignVal, 21, bb.value);
    } else {
      return RangeError;
    }
    EmptyFirst(BitString(assignVal, 8));
    EmptyFirst(BitString(2, 2));
    EmptyFirst(BitString(6, 3));
    return Done(Segment(Eci, 0, bb.value));
  }

  lemma {:induction false} EmptyLast(b: seq<bool>)
    ensures b + [] == b
  {
  }

  lemma {:induction false} EmptyFirst(b: seq<bool>)
    ensures [] + b == b
  {
  }

  /** makeSegments: numeric if possible, else alphanumeric, else the UTF-8 bytes of the text,
      which come from outside the model. */
  method MakeSegments(text: string, utf8: seq<Byte>) returns (r: Outcome<seq<Segment>>)
    ensures r == Done(SegmentsOf(PayloadsFor(text, utf8)))
  {
    if text == "" {
      return Done([]);
    }
    ghost var p := PayloadsFor(text, utf8);
    assert SegmentsOf(p) == [SegmentOf(p[0])];
    var seg: Outcome<Segment>;
    if WellFormed(Digits(text)) {
      seg := MakeNumeric(text);
    } else if WellFormed(Text(text)) {
      seg := MakeAlphanumeric(text);
    } else {
      seg := MakeBytes(utf8);
    }
    return Done([seg.value]);
  }

  // The most compact mode that can hold the text.
  function PayloadsFor(text: string, utf8: seq<Byte>): (ps: seq<Payload>)
    ensures AllWellFormed(ps)
  {
    if text == "" then []
    else if WellFormed(Digits(text)) then [Digits(text)]
    else if WellFormed(Text(text)) then [Text(text)]
    else [Bytes(utf8)]
  }
}
