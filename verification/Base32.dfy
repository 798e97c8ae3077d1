/** Base32 (src/util/Strings.cpp, Base32Encode and Base32Decode; section 6 of RFC 4648).

    Characters are bytes. Masking and shifting are written as division and remainder; the parts
    that the source joins with `|` never overlap, so they are added. */
module Base32 {
  import opened Bits

  type Quintet = n: nat | n < 32

  // ---- the alphabet ----

  // BASE32_TABLE
  function Symbol(v: Quintet): Byte {
    if v < 26 then 65 + v else 50 + (v - 26)
  }

  // base32ToChar: anything outside the alphabet counts as 0.
  function SymbolValue(c: Byte): Quintet {
    if 65 <= c <= 90 then c - 65
    else if 50 <= c <= 55 then c - 50 + 26
    else 0
  }

  predicate InAlphabet(c: Byte) {
    65 <= c <= 90 || 50 <= c <= 55
  }

  predicate IsText(t: seq<Byte>) {
    forall i :: 0 <= i < |t| ==> InAlphabet(t[i])
  }

  // ---- groups of forty bits ----

  // The number that bytes, or quintets, spell.
  function BytesNumber(b: seq<Byte>): nat {
    if b == [] then 0 else BytesNumber(b[..|b| - 1]) * 256 + b[|b| - 1]
  }

  function QuintetsNumber(q: seq<Quintet>): nat {
    if q == [] then 0 else QuintetsNumber(q[..|q| - 1]) * 32 + q[|q| - 1]
  }

  /** Digits are determined by the number they spell. */
  lemma {:induction false} BytesDetermined(b: seq<Byte>, c: seq<Byte>)
    requires |b| == |c| && BytesNumber(b) == BytesNumber(c)
    ensures b == c
    decreases |b|
  {
    if b != [] {
      var n := |b| - 1;
      LastByte(BytesNumber(b[..n]), b[n], BytesNumber(c[..n]), c[n]);
      BytesDetermined(b[..n], c[..n]);
      assert b == b[..n] + [b[n]] && c == c[..n] + [c[n]];
    }
  }

  lemma {:induction false} QuintetsDetermined(p: seq<Quintet>, q: seq<Quintet>)
    requires |p| == |q| && QuintetsNumber(p) == QuintetsNumber(q)
    ensures p == q
    decreases |p|
  {
    if p != [] {
      var n := |p| - 1;
      LastQuintet(QuintetsNumber(p[..n]), p[n], QuintetsNumber(q[..n]), q[n]);
      QuintetsDetermined(p[..n], q[..n]);
      assert p == p[..n] + [p[n]] && q == q[..n] + [q[n]];
    }
  }

  lemma {:induction false} LastByte(x: nat, b: Byte, y: nat, c: Byte)
    requires x * 256 + b == y * 256 + c
    ensures x == y && b == c
  {
  }

  lemma {:induction false} LastQuintet(x: nat, p: Quintet, y: nat, q: Quintet)
    requires x * 32 + p == y * 32 + q
    ensures x == y && p == q
  {
  }

  lemma {:induction false} BytesPush(b: seq<Byte>, n: nat)
    requires n < |b|
    ensures BytesNumber(b[..n + 1]) == BytesNumber(b[..n]) * 256 + b[n]
  {
    assert b[..n + 1][..n] == b[..n];
  }

  lemma {:induction false} QuintetsPush(q: seq<Quintet>, n: nat)
    requires n < |q|
    ensures QuintetsNumber(q[..n + 1]) == QuintetsNumber(q[..n]) * 32 + q[n]
  {
    assert q[..n + 1][..n] == q[..n];
  }

  function SumOfBytes(b0: nat, b1: nat, b2: nat, b3: nat, b4: nat): nat {
    4294967296 * b0 + 16777216 * b1 + 65536 * b2 + 256 * b3 + b4
  }

  function SumOfQuintets(q0: nat, q1: nat, q2: nat, q3: nat, q4: nat, q5: nat, q6: nat, q7: nat): nat {
    34359738368 * q0 + 1073741824 * q1 + 33554432 * q2 + 1048576 * q3 + 32768 * q4 + 1024 * q5 + 32 * q6 + q7
  }

  lemma {:induction false} FiveBytes(b: seq<Byte>)
    requires |b| == 5
    ensures BytesNumber(b) == SumOfBytes(b[0], b[1], b[2], b[3], b[4])
  {
    BytesPush(b, 0);
    BytesPush(b, 1);
    BytesPush(b, 2);
    BytesPush(b, 3);
    BytesPush(b, 4);
    assert b[..5] == b;
  }

  lemma {:induction false} EightQuintets(q: seq<Quintet>)
    requires |q| == 8
    ensures QuintetsNumber(q) == SumOfQuintets(q[0], q[1], q[2], q[3], q[4], q[5], q[6], q[7])
  {
    QuintetsPush(q, 0);
    QuintetsPush(q, 1);
    QuintetsPush(q, 2);
    QuintetsPush(q, 3);
    QuintetsPush(q, 4);
    QuintetsPush(q, 5);
    QuintetsPush(q, 6);
    QuintetsPush(q, 7);
    assert q[..8] == q;
  }

  // The eight values computed from five bytes.
  function Quintets(b: seq<Byte>): (q: seq<Quintet>)
    requires |b| == 5
    ensures |q| == 8
  {
    var b0: nat, b1: nat, b2: nat, b3: nat, b4: nat := b[0], b[1], b[2], b[3], b[4];
    [b0 / 8, b0 % 8 * 4 + b1 / 64, b1 / 2 % 32, b1 % 2 * 16 + b2 / 16,
     b2 % 16 * 2 + b3 / 128, b3 / 4 % 32, b3 % 4 * 8 + b4 / 32, b4 % 32]
  }

  // What is left of a value shifted within a byte.
  lemma {:induction false} Kept(v: nat, weight: nat, kept: nat)
    requires (weight == 64 && kept == 4) || (weight == 16 && kept == 16) || (weight == 128 && kept == 2) || (weight == 32 && kept == 8)
    ensures v * weight % 256 == v % kept * weight && v == v / kept * kept + v % kept
  {
    if weight == 64 {
      DivUnique(v * 64, 256, v / 4, v % 4 * 64);
    } else if weight == 16 {
      DivUnique(v * 16, 256, v / 16, v % 16 * 16);
    } else if weight == 128 {
      DivUnique(v * 128, 256, v / 2, v % 2 * 128);
    } else {
      DivUnique(v * 32, 256, v / 8, v % 8 * 32);
    }
  }

  // The five bytes computed from eight values; what is shifted out of a byte is lost.
  function Octets(q: seq<Quintet>): (b: seq<Byte>)
    requires |q| == 8
    ensures |b| == 5
  {
    var q0: nat, q1: nat, q2: nat, q3: nat := q[0], q[1], q[2], q[3];
    var q4: nat, q5: nat, q6: nat, q7: nat := q[4], q[5], q[6], q[7];
    Kept(q1, 64, 4);
    Kept(q3, 16, 16);
    Kept(q4, 128, 2);
    Kept(q6, 32, 8);
    [q0 * 8 + q1 / 4, q1 * 64 % 256 + q2 * 2 + q3 / 16, q3 * 16 % 256 + q4 / 2,
     q4 * 128 % 256 + q5 * 4 + q6 / 8, q6 * 32 % 256 + q7]
  }

  // A byte cut in two, or in three.
  lemma {:induction false} Cut(b: nat, low: nat)
    requires low == 8 || low == 16 || low == 32
    ensures b == low * (b / low) + b % low
  {
  }

  lemma {:induction false} CutInThree(b: nat)
    ensures b == 64 * (b / 64) + 2 * (b / 2 % 32) + b % 2
    ensures b == 128 * (b / 128) + 4 * (b / 4 % 32) + b % 4
  {
    CutWhole(b, 2);
    CutWhole(b, 4);
  }

  lemma {:induction false} CutWhole(b: nat, low: nat)
    requires low == 2 || low == 4
    ensures b == 32 * low * (b / (32 * low)) + low * (b / low % 32) + b % low
  {
    var h := b / low;
    if low == 2 {
      DivUnique(b, 64, h / 32, 2 * (h % 32) + b % 2);
    } else {
      DivUnique(b, 128, h / 32, 4 * (h % 32) + b % 4);
    }
  }

  // The cuts of the five bytes against the cuts of the eight values: x and z are the low parts of
  // the bytes, y the high parts.
  lemma {:induction false} SameSum(q0: nat, x0: nat, y1: nat, q2: nat, z1: nat, y2: nat, z2: nat, y3: nat, q5: nat, z3: nat, y4: nat, q7: nat)
    ensures SumOfBytes(8 * q0 + x0, 64 * y1 + 2 * q2 + z1, 16 * y2 + z2, 128 * y3 + 4 * q5 + z3, 32 * y4 + q7)
         == SumOfQuintets(q0, x0 * 4 + y1, q2, z1 * 16 + y2, z2 * 2 + y3, q5, z3 * 8 + y4, q7)
  {
  }

  lemma {:induction false} SpellEncoded(b0: nat, b1: nat, b2: nat, b3: nat, b4: nat)
    ensures SumOfQuintets(b0 / 8, b0 % 8 * 4 + b1 / 64, b1 / 2 % 32, b1 % 2 * 16 + b2 / 16,
                          b2 % 16 * 2 + b3 / 128, b3 / 4 % 32, b3 % 4 * 8 + b4 / 32, b4 % 32)
         == SumOfBytes(b0, b1, b2, b3, b4)
  {
    Cut(b0, 8);
    CutInThree(b1);
    Cut(b2, 16);
    CutInThree(b3);
    Cut(b4, 32);
    SameSum(b0 / 8, b0 % 8, b1 / 64, b1 / 2 % 32, b1 % 2, b2 / 16, b2 % 16, b3 / 128, b3 / 4 % 32, b3 % 4, b4 / 32, b4 % 32);
  }

  /** The eight values spell the same forty bit number as the five bytes ... */
  lemma {:induction false} QuintetsSpell(b: seq<Byte>)
    requires |b| == 5
    ensures QuintetsNumber(Quintets(b)) == BytesNumber(b)
  {
    FiveBytes(b);
    EightQuintets(Quintets(b));
    SpellEncoded(b[0], b[1], b[2], b[3], b[4]);
  }

  /** ... and the five bytes the same as the eight values. */
  lemma {:induction false} OctetsSpell(q: seq<Quintet>)
    requires |q| == 8
    ensures BytesNumber(Octets(q)) == QuintetsNumber(q)
  {
    FiveBytes(Octets(q));
    EightQuintets(q);
    Kept(q[1], 64, 4);
    Kept(q[3], 16, 16);
    Kept(q[4], 128, 2);
    Kept(q[6], 32, 8);
  }

  lemma {:induction false} OctetsOfQuintets(b: seq<Byte>)
    requires |b| == 5
    ensures Octets(Quintets(b)) == b
  {
    QuintetsSpell(b);
    OctetsSpell(Quintets(b));
    BytesDetermined(Octets(Quintets(b)), b);
  }

  lemma {:induction false} QuintetsOfOctets(q: seq<Quintet>)
    requires |q| == 8
    ensures Quintets(Octets(q)) == q
  {
    OctetsSpell(q);
    QuintetsSpell(Octets(q));
    QuintetsDetermined(Quintets(Octets(q)), q);
  }

  // ---- groups as text ----

  function Symbols(q: seq<Quintet>): (t: seq<Byte>)
    ensures |t| == |q|
  {
    seq(|q|, i requires 0 <= i < |q| => Symbol(q[i]))
  }

  function SymbolValues(t: seq<Byte>): (q: seq<Quintet>)
    ensures |q| == |t|
  {
    seq(|t|, i requires 0 <= i < |t| => SymbolValue(t[i]))
  }

  // The text of a group of bytes, and the bytes of a group of text (spelled out by EncodeGroupIs
  // and DecodeGroupIs).
  function EncodeGroup(b: seq<Byte>): (t: seq<Byte>)
    requires |b| == 5
    ensures |t| == 8
  {
    EncodeGroupAt(b, b[0] as nat + 9)
  }

  function DecodeGroup(t: seq<Byte>): (b: seq<Byte>)
    requires |t| == 8
    ensures |b| == 5
  {
    DecodeGroupAt(t, t[0] as nat + 9)
  }

  // The depth plays no part: it keeps proofs that only pass a group on from looking inside.
  function EncodeGroupAt(b: seq<Byte>, depth: nat): (t: seq<Byte>)
    requires |b| == 5
    ensures |t| == 8
    decreases depth
  {
    if depth > 0 then EncodeGroupAt(b, depth - 1) else Symbols(Quintets(b))
  }

  function DecodeGroupAt(t: seq<Byte>, depth: nat): (b: seq<Byte>)
    requires |t| == 8
    ensures |b| == 5
    decreases depth
  {
    if depth > 0 then DecodeGroupAt(t, depth - 1) else Octets(SymbolValues(t))
  }

  lemma {:induction false} EncodeGroupAtIs(b: seq<Byte>, depth: nat)
    requires |b| == 5
    ensures EncodeGroupAt(b, depth) == Symbols(Quintets(b)) && IsText(EncodeGroupAt(b, depth))
    decreases depth
  {
    if depth > 0 {
      EncodeGroupAtIs(b, depth - 1);
    }
  }

  lemma {:induction false} DecodeGroupAtIs(t: seq<Byte>, depth: nat)
    requires |t| == 8
    ensures DecodeGroupAt(t, depth) == Octets(SymbolValues(t))
    decreases depth
  {
    if depth > 0 {
      DecodeGroupAtIs(t, depth - 1);
    }
  }

  lemma {:induction false} EncodeGroupIs(b: seq<Byte>)
    requires |b| == 5
    ensures EncodeGroup(b) == Symbols(Quintets(b)) && IsText(EncodeGroup(b))
  {
    EncodeGroupAtIs(b, b[0] as nat + 9);
  }

  lemma {:induction false} DecodeGroupIs(t: seq<Byte>)
    requires |t| == 8
    ensures DecodeGroup(t) == Octets(SymbolValues(t))
  {
    DecodeGroupAtIs(t, t[0] as nat + 9);
  }

  lemma {:induction false} ValuesOfSymbols(q: seq<Quintet>)
    ensures SymbolValues(Symbols(q)) == q
  {
  }

  lemma {:induction false} SymbolsOfValues(t: seq<Byte>)
    requires IsText(t)
    ensures Symbols(SymbolValues(t)) == t
  {
  }

  lemma {:induction false} DecodeEncodedGroup(b: seq<Byte>)
    requires |b| == 5
    ensures DecodeGroup(EncodeGroup(b)) == b
  {
    EncodeGroupIs(b);
    DecodeGroupIs(EncodeGroup(b));
    ValuesOfSymbols(Quintets(b));
    OctetsOfQuintets(b);
  }

  lemma {:induction false} EncodeDecodedGroup(t: seq<Byte>)
    requires |t| == 8 && IsText(t)
    ensures EncodeGroup(DecodeGroup(t)) == t
  {
    DecodeGroupIs(t);
    EncodeGroupIs(DecodeGroup(t));
    QuintetsOfOctets(SymbolValues(t));
    SymbolsOfValues(t);
  }

  // ---- whole texts ----

  // Whole groups of five bytes; up to four trailing bytes are dropped.
  function Encoded(data: seq<Byte>): (t: seq<Byte>) {
    if |data| < 5 then [] else EncodeGroup(data[..5]) + Encoded(data[5..])
  }

  // Whole groups of eight characters; up to seven trailing characters are dropped.
  function Decoded(text: seq<Byte>): (d: seq<Byte>) {
    if |text| < 8 then [] else DecodeGroup(text[..8]) + Decoded(text[8..])
  }

  lemma {:induction false} EncodedLength(data: seq<Byte>)
    ensures |Encoded(data)| == 8 * (|data| / 5) && IsText(Encoded(data))
    decreases |data|
  {
    if |data| >= 5 {
      EncodedLength(data[5..]);
      EncodeGroupIs(data[..5]);
    }
  }

  lemma {:induction false} DecodedLength(text: seq<Byte>)
    ensures |Decoded(text)| == 5 * (|text| / 8)
    decreases |text|
  {
    if |text| >= 8 {
      DecodedLength(text[8..]);
    }
  }

  lemma {:induction false} DecodedGroup(head: seq<Byte>, tail: seq<Byte>)
    requires |head| == 8
    ensures Decoded(head + tail) == DecodeGroup(head) + Decoded(tail)
  {
    assert (head + tail)[..8] == head && (head + tail)[8..] == tail;
  }

  lemma {:induction false} EncodedGroup(head: seq<Byte>, tail: seq<Byte>)
    requires |head| == 5
    ensures Encoded(head + tail) == EncodeGroup(head) + Encoded(tail)
  {
    assert (head + tail)[..5] == head && (head + tail)[5..] == tail;
  }

  /** Decoding what was encoded gives the longest prefix of whole groups. */
  lemma {:induction false} DecodeEncoded(data: seq<Byte>)
    ensures Decoded(Encoded(data)) == data[..|data| - |data| % 5]
    decreases |data|
  {
    if |data| >= 5 {
      var head, rest := data[..5], data[5..];
      DecodeEncoded(rest);
      var t := EncodeGroup(head);
      DecodedGroup(t, Encoded(rest));
      DecodeEncodedGroup(head);
      assert head + rest[..|rest| - |rest| % 5] == data[..|data| - |data| % 5];
    }
  }

  /** Encoding what was decoded gives the text back, if it consists of whole groups of alphabet
      characters ... */
  lemma {:induction false} EncodeDecoded(text: seq<Byte>)
    requires IsText(text) && |text| % 8 == 0
    ensures Encoded(Decoded(text)) == text
    decreases |text|
  {
    if text != [] {
      var head, rest := text[..8], text[8..];
      EncodeDecoded(rest);
      var d := DecodeGroup(head);
      EncodedGroup(d, Decoded(rest));
      EncodeDecodedGroup(head);
      assert head + rest == text;
    }
  }

  /** ... and only then. */
  lemma {:induction false} EncodeDecodedOnly(text: seq<Byte>)
    requires Encoded(Decoded(text)) == text
    ensures IsText(text) && |text| % 8 == 0
  {
    EncodedLength(Decoded(text));
  }

  // ---- the text in numbers ----

  // The alphabet of Table 3 of RFC 4648.
  function Alphabet(): (s: string)
    ensures |s| == 32
  {
    "ABCDEFGHIJKLM" + "NOPQRSTUVWXYZ" + "234567"
  }

  lemma {:induction false} AlphabetLetters(i: nat)
    requires i < 13
    ensures "ABCDEFGHIJKLM"[i] == (65 + i) as char && "NOPQRSTUVWXYZ"[i] == (78 + i) as char
  {
  }

  lemma {:induction false} SymbolIs(v: Quintet)
    ensures Alphabet()[v] == Symbol(v) as char
  {
    if v < 13 {
      AlphabetLetters(v);
    } else if v < 26 {
      AlphabetLetters(v - 13);
    }
  }

  // The characters stand for the digits to the base 32, highest first, of the number that the bytes
  // are the digits of to the base 256.
  ghost predicate Spells(t: seq<Byte>, b: seq<Byte>) {
    exists q: seq<Quintet> :: |q| == |t| && QuintetsNumber(q) == BytesNumber(b)
      && forall k :: 0 <= k < |t| ==> t[k] as char == Alphabet()[q[k]]
  }

  lemma {:induction false} GroupSpells(b: seq<Byte>)
    requires |b| == 5
    ensures Spells(EncodeGroup(b), b)
  {
    EncodeGroupIs(b);
    QuintetsSpell(b);
    var q := Quintets(b);
    forall k | 0 <= k < 8 ensures EncodeGroup(b)[k] as char == Alphabet()[q[k]] {
      SymbolIs(q[k]);
    }
  }

  lemma {:induction false} LaterPart(head: seq<Byte>, tail: seq<Byte>, n: nat, i: nat)
    requires |head| == n && i + n <= |tail|
    ensures (head + tail)[i + n..i + n + n] == tail[i..i + n]
  {
  }

  /** What encoding means: each eight characters spell the forty bits of the five bytes in their
      place. */
  lemma {:induction false} EncodedMeans(data: seq<Byte>, g: nat)
    requires 5 * g + 5 <= |data|
    ensures 8 * g + 8 <= |Encoded(data)| && Spells(Encoded(data)[8 * g..8 * g + 8], data[5 * g..5 * g + 5])
    decreases g
  {
    EncodedLength(data);
    var first, rest := data[..5], data[5..];
    EncodedGroup(first, rest);
    assert data == first + rest;
    if g == 0 {
      GroupSpells(first);
      assert (EncodeGroup(first) + Encoded(rest))[0..8] == EncodeGroup(first);
    } else {
      EncodedMeans(rest, g - 1);
      LaterPart(EncodeGroup(first), Encoded(rest), 8, 8 * (g - 1));
      LaterPart(first, rest, 5, 5 * (g - 1));
    }
  }

  // The text with the characters outside the alphabet replaced by A.
  predicate Cleaned(text: seq<Byte>, clean: seq<Byte>) {
    |clean| == |text| && forall i :: 0 <= i < |text| ==> clean[i] == if InAlphabet(text[i]) then text[i] else 65
  }

  /** Decoding reads characters outside the alphabet as A. */
  lemma {:induction false} UnknownReadAsA(text: seq<Byte>, clean: seq<Byte>)
    requires Cleaned(text, clean)
    ensures Decoded(text) == Decoded(clean)
    decreases |text|
  {
    if |text| >= 8 {
      UnknownReadAsA(text[8..], clean[8..]);
      DecodeGroupIs(text[..8]);
      DecodeGroupIs(clean[..8]);
      assert SymbolValues(text[..8]) == SymbolValues(clean[..8]);
    }
  }

  // ---- the buffers ----

  // What the output buffer holds after the text was stored: as much as fits, the last place
  // given up for a terminator if not all of it does.
  function Stored(text: seq<Byte>, before: seq<Byte>, olen: nat): (after: seq<Byte>)
    requires olen <= |before| && (olen > 0 || text == [])
    ensures |after| == |before|
  {
    if |text| <= olen then text + before[|text|..]
    else text[..olen - 1] + [0] + before[olen..]
  }

  lemma {:induction false} StoreOne(text: seq<Byte>, before: seq<Byte>, k: nat)
    requires k < |text| && k < |before|
    ensures (text[..k] + before[k..])[k := text[k]] == text[..k + 1] + before[k + 1..]
  {
  }

  // The text from position k on begins with a group.
  ghost predicate GroupAt(text: seq<Byte>, k: nat, group: seq<Byte>) {
    k + |group| <= |text| && text[k..k + |group|] == group
  }

  lemma {:induction false} NextEncoded(data: seq<Byte>, text: seq<Byte>, i: nat)
    requires 5 * i + 5 <= |data| && 8 * i <= |text| && text[8 * i..] == Encoded(data[5 * i..])
    ensures GroupAt(text, 8 * i, Symbols(Quintets(data[5 * i..5 * i + 5])))
    ensures 8 * i + 8 <= |text| && text[8 * i + 8..] == Encoded(data[5 * i + 5..])
  {
    var rest := data[5 * i..];
    assert rest[..5] == data[5 * i..5 * i + 5] && rest[5..] == data[5 * i + 5..];
    EncodeGroupIs(rest[..5]);
    Next(text, 8 * i, EncodeGroup(rest[..5]), Encoded(rest[5..]));
  }

  // The bytes of group i of the text.
  function GroupOf(text: seq<Byte>, i: nat): (b: seq<Byte>)
    requires 8 * i + 8 <= |text|
    ensures |b| == 5
  {
    Octets(SymbolValues(text[8 * i..8 * i + 8]))
  }

  // The data are the groups of the text in order.
  ghost predicate GroupsOf(text: seq<Byte>, data: seq<Byte>) {
    |data| == 5 * (|text| / 8) && forall i: nat :: 8 * i + 8 <= |text| ==> GroupAt(data, 5 * i, GroupOf(text, i))
  }

  lemma {:induction false} DecodedGroups(text: seq<Byte>)
    ensures GroupsOf(text, Decoded(text))
    decreases |text|
  {
    DecodedLength(text);
    if |text| >= 8 {
      var first, rest := text[..8], text[8..];
      DecodedGroups(rest);
      DecodeGroupIs(first);
      forall i: nat | 8 * i + 8 <= |text| ensures GroupAt(Decoded(text), 5 * i, GroupOf(text, i)) {
        if i == 0 {
          assert text[0..8] == first;
        } else {
          LaterPart(first, rest, 8, 8 * (i - 1));
          assert first + rest == text;
          LaterPart5(DecodeGroup(first), Decoded(rest), 5 * (i - 1));
          assert GroupAt(Decoded(rest), 5 * (i - 1), GroupOf(rest, i - 1));
        }
      }
    }
  }

  lemma {:induction false} LaterPart5(head: seq<Byte>, tail: seq<Byte>, k: nat)
    requires |head| == 5 && k + 5 <= |tail|
    ensures (head + tail)[k + 5..k + 10] == tail[k..k + 5]
  {
  }

  lemma {:induction false} Next(s: seq<Byte>, k: nat, head: seq<Byte>, tail: seq<Byte>)
    requires k <= |s| && s[k..] == head + tail
    ensures k + |head| <= |s| && s[k..k + |head|] == head && s[k + |head|..] == tail
  {
    assert s[k..k + |head|] == s[k..][..|head|];
    assert s[k + |head|..] == s[k..][|head|..];
  }

  /** Base32Encode. No terminator is written when the text fits. */
  method Base32Encode(pin: array<Byte>, ilen: nat, pout: array<Byte>, olen: nat)
    requires pin != pout && ilen <= pin.Length && olen <= pout.Length && (olen > 0 || ilen < 5)
    modifies pout
    ensures pout[..] == Stored(Encoded(pin[..ilen]), old(pout[..]), olen)
  {
    var chunks := ilen / 5;
    var resultPos := 0;
    ghost var data, before := pin[..ilen], pout[..];
    ghost var text := Encoded(data);
    EncodedLength(data);
    assert data[0..] == data && text[0..] == text && text[..0] + before[0..] == before;
    for i := 0 to chunks
      invariant resultPos == 8 * i <= olen
      invariant text[8 * i..] == Encoded(data[5 * i..]) && pin[..ilen] == data
      invariant pout[..] == text[..resultPos] + before[resultPos..]
    {
      assert pin[5 * i..5 * i + 5] == pin[..ilen][5 * i..5 * i + 5];
      NextEncoded(data, text, i);
      var symbols := Symbols(Quintets(pin[5 * i..5 * i + 5]));
      var full: bool;
      resultPos, full := StoreSymbols(symbols, pout, resultPos, olen, text, before);
      if full {
        return;
      }
    }
    assert text[..resultPos] == text;
  }

  // The loop over the symbols of one group; it stops when the buffer is full.
  method StoreSymbols(symbols: seq<Byte>, pout: array<Byte>, start: nat, olen: nat, ghost text: seq<Byte>, ghost before: seq<Byte>)
    returns (resultPos: nat, full: bool)
    requires |before| == pout.Length && 0 < olen <= pout.Length && start <= olen
    requires GroupAt(text, start, symbols) && pout[..] == text[..start] + before[start..]
    modifies pout
    ensures full ==> |text| > olen && pout[..] == text[..olen - 1] + [0] + before[olen..]
    ensures !full ==> resultPos == start + |symbols| <= olen && pout[..] == text[..resultPos] + before[resultPos..]
  {
    resultPos := start;
    for j := 0 to |symbols|
      invariant resultPos == start + j <= olen
      invariant pout[..] == text[..resultPos] + before[resultPos..]
    {
      if resultPos >= olen {
        assert text[start..start + |symbols|][j] == symbols[j];
        pout[olen - 1] := 0;
        return resultPos, true;
      }
      assert text[resultPos] == text[start..start + |symbols|][j];
      StoreOne(text, before, resultPos);
      pout[resultPos] := symbols[j];
      resultPos := resultPos + 1;
    }
    full := false;
  }

  /** Base32Decode. The input may be the output buffer itself: writes never overtake reads, and
      the result is the same. */
  method Base32Decode(pin: array<Byte>, ilen: nat, pout: array<Byte>)
    requires ilen <= pin.Length && 5 * (ilen / 8) < pout.Length
    modifies pout
    ensures pout[..] == old(Decoded(pin[..ilen]) + [0] + pout[5 * (ilen / 8) + 1..])
  {
    ghost var text := pin[..ilen];
    DecodedGroups(text);
    DecodeGroups(pin, ilen, pout, Decoded(text));
  }

  // The loop over the groups, and the terminator.
  method DecodeGroups(pin: array<Byte>, ilen: nat, pout: array<Byte>, ghost data: seq<Byte>)
    requires ilen <= pin.Length && 5 * (ilen / 8) < pout.Length && GroupsOf(pin[..ilen], data)
    modifies pout
    ensures pout[..] == data + [0] + old(pout[5 * (ilen / 8) + 1..])
  {
    var chunks := ilen / 8;
    var resultPos := 0;
    ghost var text, before := pin[..ilen], pout[..];
    assert text[0..] == text && data[..0] + before[0..] == before;
    for i := 0 to chunks
      invariant resultPos == 5 * i
      invariant pin[8 * i..ilen] == text[8 * i..]
      invariant pout[..] == data[..resultPos] + before[resultPos..]
    {
      resultPos := DecodeChunk(pin, i, ilen, pout, text, data, before);
    }
    pout[resultPos] := 0;
    Terminated(data, before);
  }

  lemma {:induction false} Terminated(data: seq<Byte>, before: seq<Byte>)
    requires |data| < |before|
    ensures (data[..|data|] + before[|data|..])[|data| := 0] == data + [0] + before[|data| + 1..]
  {
  }

  // Group i is read and its bytes are stored.
  method DecodeChunk(pin: array<Byte>, i: nat, ilen: nat, pout: array<Byte>,
                     ghost text: seq<Byte>, ghost data: seq<Byte>, ghost before: seq<Byte>)
    returns (resultPos: nat)
    requires 8 * i + 8 <= ilen <= pin.Length && |text| == ilen && |before| == pout.Length
    requires 5 * i + 5 <= pout.Length && GroupsOf(text, data)
    requires pin[8 * i..ilen] == text[8 * i..]
    requires pout[..] == data[..5 * i] + before[5 * i..]
    modifies pout
    ensures resultPos == 5 * i + 5 <= |data|
    ensures pin[8 * i + 8..ilen] == text[8 * i + 8..]
    ensures pout[..] == data[..resultPos] + before[resultPos..]
  {
    assert pin[8 * i..8 * i + 8] == pin[8 * i..ilen][..8] == text[8 * i..8 * i + 8];
    assert pin[8 * i + 8..ilen] == pin[8 * i..ilen][8..];
    assert GroupAt(data, 5 * i, GroupOf(text, i));
    var bytes := Octets(SymbolValues(pin[8 * i..8 * i + 8]));
    resultPos := StoreBytes(bytes, pin, 8 * i + 8, ilen, pout, 5 * i, data, before);
  }

  // The loop over the bytes of one group. What is still to be read, from `next` on, lies behind
  // the places written.
  method StoreBytes(bytes: seq<Byte>, pin: array<Byte>, next: nat, ilen: nat, pout: array<Byte>, start: nat,
                    ghost data: seq<Byte>, ghost before: seq<Byte>)
    returns (resultPos: nat)
    requires |before| == pout.Length && start + |bytes| <= pout.Length
    requires start + |bytes| <= next <= ilen <= pin.Length
    requires GroupAt(data, start, bytes) && pout[..] == data[..start] + before[start..]
    modifies pout
    ensures resultPos == start + |bytes| && pout[..] == data[..resultPos] + before[resultPos..]
    ensures pin[next..ilen] == old(pin[next..ilen])
  {
    resultPos := start;
    for j := 0 to |bytes|
      invariant resultPos == start + j
      invariant pout[..] == data[..resultPos] + before[resultPos..]
      invariant pin[next..ilen] == old(pin[next..ilen])
    {
      assert data[resultPos] == data[start..start + |bytes|][j];
      StoreOne(data, before, resultPos);
      pout[resultPos] := bytes[j];
      resultPos := resultPos + 1;
    }
  }
}
