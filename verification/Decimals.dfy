/** Decimal numbers in text (src/util/Strings.cpp, NumberToString and StringToNumber) and the file
    names made from them. */
module Decimals {

  const MAX_UINT64: nat := 0xFFFF_FFFF_FFFF_FFFF

  predicate IsDigit(c: char) {
    '0' <= c <= '9'
  }

  function DigitOf(d: nat): (c: char)
    requires d < 10
    ensures IsDigit(c)
  {
    '0' + d as char
  }

  function DigitValue(c: char): (d: nat)
    requires IsDigit(c)
    ensures d < 10
  {
    (c - '0') as nat
  }

  /** What std::to_chars writes: decimal digits without leading zeros. */
  function Decimal(n: nat): (s: string)
    ensures |s| > 0
  {
    if n < 10 then [DigitOf(n)] else Decimal(n / 10) + [DigitOf(n % 10)]
  }

  predicate AllDigits(s: string) {
    forall i :: 0 <= i < |s| ==> IsDigit(s[i])
  }

  // The number that digits spell.
  function Spelled(s: string): nat
    requires AllDigits(s)
  {
    if s == [] then 0 else Spelled(s[..|s| - 1]) * 10 + DigitValue(s[|s| - 1])
  }

  /** Decimal is inverted by reading the digits, so it is injective. */
  lemma {:induction false} SpelledDecimal(n: nat)
    ensures AllDigits(Decimal(n)) && Spelled(Decimal(n)) == n
  {
    if n >= 10 {
      SpelledDecimal(n / 10);
      assert Decimal(n)[..|Decimal(n)| - 1] == Decimal(n / 10);
    } else {
      assert Decimal(n)[..0] == [];
    }
  }

  /** Its digits are the usual ones, the first of them 0 for the number 0 alone. */
  lemma {:induction false} DecimalForm(n: nat)
    ensures n < 10 ==> Decimal(n) == ["0123456789"[n]]
    ensures Decimal(n)[0] == '0' <==> n == 0
    ensures n >= 10 ==> Decimal(n) == Decimal(n / 10) + Decimal(n % 10)
  {
    if n >= 10 {
      DecimalForm(n / 10);
    }
  }

  lemma {:induction false} DecimalInjective(m: nat, n: nat)
    requires Decimal(m) == Decimal(n)
    ensures m == n
  {
    SpelledDecimal(m);
    SpelledDecimal(n);
  }

  // ---- names ----

  /** The suffix of files that are being written. */
  const TEMP_SUFFIX: string := "T"

  function TargetName(id: nat): string {
    Decimal(id)
  }

  function TempName(id: nat): string {
    Decimal(id) + TEMP_SUFFIX
  }

  /** Names of different files, and names of a file and of a file being written, never collide. */
  lemma {:induction false} NamesDistinct(i: nat, j: nat)
    ensures TargetName(i) == TargetName(j) ==> i == j
    ensures TempName(i) == TempName(j) ==> i == j
    ensures TargetName(i) != TempName(j)
  {
    SpelledDecimal(i);
    if TargetName(i) == TargetName(j) {
      DecimalInjective(i, j);
    }
    if TempName(i) == TempName(j) {
      assert Decimal(i) == TempName(i)[..|TempName(i)| - 1] == Decimal(j);
      DecimalInjective(i, j);
    }
    assert TempName(j)[|TempName(j)| - 1] == 'T';
  }

  // ---- writing ----

  /** NumberToString: the digits, the suffix and a terminator, if all of it fits. A null suffix is
      the empty one; a null buffer is one of length 0. */
  method NumberToString(buf: array<char>, len: nat, num: nat, add: string) returns (ok: bool)
    requires len <= buf.Length && '\0' !in add
    modifies buf
    ensures ok <==> |Decimal(num)| + |add| < len
    ensures ok ==> var text := Decimal(num) + add + ['\0'];
      buf[..] == text + old(buf[|text|..])
    ensures buf[len..] == old(buf[len..])
  {
    if len == 0 {
      return false;
    }
    var digits := Decimal(num);
    if |digits| > len - 1 {
      return false;
    }
    ghost var before := buf[..];
    ok := Store(buf, digits, 0, len - 1);
    Ended(digits, before);
    buf[|digits|] := '\0';
    if add != [] {
      ghost var middle := buf[..];
      ok := Store(buf, digits + add, |digits|, len - 1);
      if !ok {
        return;
      }
      assert middle[|digits + add|..] == before[|digits + add|..];
      Ended(digits + add, before);
      buf[|digits + add|] := '\0';
    } else {
      assert digits + add == digits;
    }
  }

  lemma {:induction false} Ended(text: string, before: string)
    requires |text| < |before|
    ensures (text + before[|text|..])[|text| := '\0'] == (text + ['\0']) + before[|text| + 1..]
  {
  }

  lemma {:induction false} StoreOne(text: string, before: string, k: nat)
    requires k < |text| && k < |before|
    ensures (text[..k] + before[k..])[k := text[k]] == text[..k + 1] + before[k + 1..]
  {
  }

  // Stores the text from position `start` on, character by character, and gives up at the limit.
  method Store(buf: array<char>, text: string, start: nat, limit: nat) returns (ok: bool)
    requires start <= |text| && start <= limit <= buf.Length && buf[..start] == text[..start]
    modifies buf
    ensures ok <==> |text| <= limit
    ensures ok ==> buf[..] == text + old(buf[|text|..])
    ensures buf[limit..] == old(buf[limit..])
  {
    ghost var before := buf[..];
    var k := start;
    assert before == before[..k] + before[k..];
    while k < |text|
      invariant start <= k <= |text| && k <= limit
      invariant buf[..] == text[..k] + before[k..]
      invariant buf[limit..] == before[limit..]
    {
      if k >= limit {
        return false;
      }
      StoreOne(text, before, k);
      buf[k] := text[k];
      k := k + 1;
    }
    assert text[..k] == text;
    return true;
  }

  // ---- reading ----

  datatype Number = Failed | Parsed(value: nat)

  // How many digits the text begins with.
  function Leading(s: string): (n: nat)
    ensures n <= |s| && AllDigits(s[..n]) && (n < |s| ==> !IsDigit(s[n]))
  {
    if s != [] && IsDigit(s[0]) then
      var n := Leading(s[1..]);
      assert s[..n + 1] == [s[0]] + s[1..][..n];
      n + 1
    else 0
  }

  /** StringToNumber: the leading digits, if there are any and their number fits 64 bits.
      Whatever follows them is ignored. */
  function StringToNumber(s: string): (r: Number) {
    var n := Leading(s);
    if n > 0 && Spelled(s[..n]) <= MAX_UINT64 then Parsed(Spelled(s[..n])) else Failed
  }

  lemma {:induction false} LeadingOf(digits: string, rest: string)
    requires AllDigits(digits) && (rest == [] || !IsDigit(rest[0]))
    ensures Leading(digits + rest) == |digits|
    decreases |digits|
  {
    if digits == [] {
      assert digits + rest == rest;
    } else {
      assert (digits + rest)[1..] == digits[1..] + rest;
      LeadingOf(digits[1..], rest);
    }
  }

  /** A number that was written is read again, with or without a suffix. */
  lemma {:induction false} NumberRoundTrip(n: nat, suffix: string)
    requires suffix == [] || !IsDigit(suffix[0])
    ensures StringToNumber(Decimal(n) + suffix) == if n <= MAX_UINT64 then Parsed(n) else Failed
  {
    SpelledDecimal(n);
    LeadingOf(Decimal(n), suffix);
    assert (Decimal(n) + suffix)[..|Decimal(n)|] == Decimal(n);
  }
}
