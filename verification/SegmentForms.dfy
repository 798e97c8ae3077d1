/** The bit forms of segments in numbers (sections 7.4.1 to 7.4.5 of ISO/IEC 18004:2015), and the
    choice of the mode (frontend/js/qrcodegen.js, makeSegments). */
module SegmentForms {
  import opened Bits
  import opened BitStrings
  import opened Segments
  import opened Tables

  // ---- headers ----

  /** The widths of the character count. */
  lemma {:induction false} CountWidths(version: nat)
    requires IsVersion(version)
    ensures Numeric.CharCountBits(version) == if version <= 9 then 10 else if version <= 26 then 12 else 14
    ensures Alphanumeric.CharCountBits(version) == if version <= 9 then 9 else if version <= 26 then 11 else 13
    ensures ByteMode.CharCountBits(version) == if version <= 9 then 8 else 16
    ensures Kanji.CharCountBits(version) == if version <= 9 then 8 else if version <= 26 then 10 else 12
    ensures Eci.CharCountBits(version) == 0
  {
  }

  function IndicatorBits(mode: Mode): seq<bool> {
    match mode
    case Numeric => [false, false, false, true]
    case Alphanumeric => [false, false, true, false]
    case ByteMode => [false, true, false, false]
    case Kanji => [true, false, false, false]
    case Eci => [false, true, true, true]
  }

  lemma {:induction false} OneMoreBit(v: nat, front: seq<bool>, len: nat)
    requires BitString(v / 2, len) == front
    ensures BitString(v, len + 1) == front + [v % 2 == 1]
  {
  }

  lemma {:induction false} FourBits(n: nat)
    requires n < 16
    ensures BitString(n, 4) == [n / 8 == 1, n / 4 % 2 == 1, n / 2 % 2 == 1, n % 2 == 1]
  {
    OneMoreBit(n / 8, [], 0);
    OneMoreBit(n / 4, [n / 8 == 1], 1);
    OneMoreBit(n / 2, [n / 8 == 1, n / 4 % 2 == 1], 2);
    OneMoreBit(n, [n / 8 == 1, n / 4 % 2 == 1, n / 2 % 2 == 1], 3);
  }

  /** A segment is its mode indicator, its count and its data. */
  lemma {:induction false} HeaderBits(seg: Segment, version: nat)
    requires IsVersion(version)
    ensures SegmentBits(seg, version)
         == IndicatorBits(seg.mode) + BitString(seg.numChars, seg.mode.CharCountBits(version)) + seg.bitData
  {
    FourBits(seg.mode.ModeBits());
  }

  // ---- data ----

  lemma {:induction false} OneDigit(s: string)
    requires |s| == 1 && IsDigit(s[0])
    ensures DecimalValue(s) == (s[0] - '0') as nat
  {
    assert s[..0] == "";
  }

  lemma {:induction false} TwoDigits(s: string)
    requires |s| == 2 && IsDigit(s[0]) && IsDigit(s[1])
    ensures DecimalValue(s) == 10 * (s[0] - '0') as nat + (s[1] - '0') as nat
  {
    OneDigit(s[..1]);
  }

  lemma {:induction false} ThreeDigits(s: string)
    requires |s| == 3 && IsDigit(s[0]) && IsDigit(s[1]) && IsDigit(s[2])
    ensures DecimalValue(s) == 100 * (s[0] - '0') as nat + 10 * (s[1] - '0') as nat + (s[2] - '0') as nat
  {
    TwoDigits(s[..2]);
  }

  /** Three digits become ten bits, two or one left over become seven or four. */
  lemma {:induction false} NumericForm(s: string)
    requires WellFormed(Digits(s))
    ensures |s| == 1 ==> NumericBits(s) == BitString((s[0] - '0') as nat, 4)
    ensures |s| == 2 ==> NumericBits(s) == BitString(10 * (s[0] - '0') as nat + (s[1] - '0') as nat, 7)
    ensures |s| >= 3 ==>
      NumericBits(s) == BitString(100 * (s[0] - '0') as nat + 10 * (s[1] - '0') as nat + (s[2] - '0') as nat, 10) + NumericBits(s[3..])
  {
    if |s| == 1 {
      OneDigit(s[..1]);
    } else if |s| == 2 {
      TwoDigits(s[..2]);
    } else if |s| >= 3 {
      ThreeDigits(s[..3]);
    }
  }

  // ALPHANUMERIC_CHARSET
  function Charset(): (s: string)
    ensures |s| == 45
  {
    "0123456789" + "ABCDEFGHIJKLM" + "NOPQRSTUVWXYZ" + " $%*+-./:"
  }

  lemma {:induction false} CharsetDigits(i: nat)
    requires i < 10
    ensures "0123456789"[i] == '0' + i as char
  {
  }

  lemma {:induction false} CharsetLetters(i: nat)
    requires i < 13
    ensures "ABCDEFGHIJKLM"[i] == 'A' + i as char && "NOPQRSTUVWXYZ"[i] == 'N' + i as char
  {
  }

  lemma {:induction false} CharsetIs(i: nat)
    requires i < 45
    ensures Charset()[i] == CharAt(i)
  {
    if i < 10 {
      CharsetDigits(i);
    } else if i < 23 {
      CharsetLetters(i - 10);
    } else if i < 36 {
      CharsetLetters(i - 23);
    }
  }

  /** The characters of the mode are those of the set. */
  lemma {:induction false} CharsetExactly(c: char)
    ensures InCharset(c) <==> c in Charset()
  {
    if InCharset(c) {
      CharsetIs(IndexOf(c));
      CharOfIndex(c);
    }
    if i :| 0 <= i < 45 && Charset()[i] == c {
      CharsetIs(i);
    }
  }

  /** A character's number is its place in the set, a pair becomes eleven bits, and one left over
      six. */
  lemma {:induction false} TextForm(s: string)
    requires WellFormed(Text(s))
    ensures forall k :: 0 <= k < |s| ==> Charset()[IndexOf(s[k])] == s[k]
    ensures |s| == 1 ==> TextBits(s) == BitString(IndexOf(s[0]), 6)
    ensures |s| >= 2 ==> TextBits(s) == BitString(45 * IndexOf(s[0]) + IndexOf(s[1]), 11) + TextBits(s[2..])
  {
    forall k | 0 <= k < |s| ensures Charset()[IndexOf(s[k])] == s[k] {
      CharsetIs(IndexOf(s[k]));
      CharOfIndex(s[k]);
    }
  }

  /** An assignment number in one, two or three bytes, told apart by the first bits. */
  lemma {:induction false} EciForms(v: nat)
    requires v < 1000000
    ensures v < 128 ==> |EciBits(v)| == 8 && !EciBits(v)[0] && Value(EciBits(v)) == v
    ensures 128 <= v < 16384 ==> |EciBits(v)| == 16 && EciBits(v)[..2] == [true, false] && Value(EciBits(v)[2..]) == v
    ensures v >= 16384 ==> |EciBits(v)| == 24 && EciBits(v)[..3] == [true, true, false] && Value(EciBits(v)[3..]) == v
  {
    Powers();
    EciPrefixes();
    EciPowers();
    if v < 128 {
      ValueOfBitString(v, 8);
      FirstBit(v, 8);
    } else if v < 16384 {
      ValueOfBitString(v, 14);
      assert EciBits(v)[2..] == BitString(v, 14);
    } else {
      ValueOfBitString(v, 21);
      assert EciBits(v)[3..] == BitString(v, 21);
    }
  }

  // ---- the choice of the mode ----

  lemma {:induction false} NumericLength(s: string)
    requires forall i :: 0 <= i < |s| ==> IsDigit(s[i])
    ensures |NumericBits(s)| == 10 * (|s| / 3) + (if |s| % 3 == 0 then 0 else if |s| % 3 == 1 then 4 else 7)
    decreases |s|
  {
    if s != "" {
      NumericLength(s[Group(|s|)..]);
    }
  }

  lemma {:induction false} TextLength(s: string)
    requires forall i :: 0 <= i < |s| ==> InCharset(s[i])
    ensures |TextBits(s)| == 11 * (|s| / 2) + 6 * (|s| % 2)
    decreases |s|
  {
    if |s| >= 2 {
      TextLength(s[2..]);
    }
  }

  lemma {:induction false} BytesLength(data: seq<Byte>)
    ensures |ByteBits(data)| == 8 * |data|
  {
    if data != [] {
      BytesLength(data[1..]);
    }
  }

  // The length of a segment by its mode and number of characters.
  lemma {:induction false} PayloadLength(p: Payload, version: nat)
    requires IsVersion(version) && WellFormed(p) && !p.Assignment?
    ensures var seg := SegmentOf(p);
      |SegmentBits(seg, version)| == 4 + seg.mode.CharCountBits(version)
        + (if p.Digits? then 10 * (seg.numChars / 3) + (if seg.numChars % 3 == 0 then 0 else if seg.numChars % 3 == 1 then 4 else 7)
           else if p.Text? then 11 * (seg.numChars / 2) + 6 * (seg.numChars % 2) else 8 * seg.numChars)
  {
    match p
    case Digits(digits) => NumericLength(digits);
    case Text(text) => TextLength(text);
    case Bytes(data) => BytesLength(data);
  }

  lemma {:induction false} DigitsInCharset(text: string)
    requires WellFormed(Digits(text))
    ensures WellFormed(Text(text))
  {
  }

  /** The mode taken for a text is the shortest of those that can hold it, in every version. Digits
      and alphanumeric characters have one byte each in UTF-8. */
  lemma {:induction false} ModeIsShortest(text: string, utf8: seq<Byte>, version: nat, p: Payload)
    requires IsVersion(version) && text != "" && WellFormed(p)
    requires p == Digits(text) || p == Text(text) || p == Bytes(utf8)
    requires WellFormed(Text(text)) ==> |utf8| == |text|
    ensures |PayloadsFor(text, utf8)| == 1
    ensures |SegmentBits(SegmentOf(PayloadsFor(text, utf8)[0]), version)| <= |SegmentBits(SegmentOf(p), version)|
  {
    var chosen := PayloadsFor(text, utf8)[0];
    PayloadLength(chosen, version);
    PayloadLength(p, version);
    CountWidths(version);
    if WellFormed(Digits(text)) {
      DigitsInCharset(text);
    }
  }
}
