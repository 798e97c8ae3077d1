/** Strings of bits, highest bit first (frontend/js/qrcodegen.js, appendBits and the packing of
    bits into bytes in encodeSegments). */
module BitStrings {
  import opened Bits
  import opened Outcomes
  import opened Zigzag

  // The low `len` digits of val, the highest first.
  function BitString(val: nat, len: nat): (b: seq<bool>)
    ensures |b| == len
  {
    if len == 0 then [] else BitString(val / 2, len - 1) + [val % 2 == 1]
  }

  // The number a bit string stands for.
  function Value(b: seq<bool>): nat {
    if b == [] then 0 else 2 * Value(b[..|b| - 1]) + (if b[|b| - 1] then 1 else 0)
  }

  lemma {:induction false} ValuePush(b: seq<bool>, c: bool)
    ensures Value(b + [c]) == 2 * Value(b) + (if c then 1 else 0)
  {
    assert (b + [c])[..|b|] == b;
  }

  /** A number that fits comes back from its bits. */
  lemma {:induction false} ValueOfBitString(val: nat, len: nat)
    requires val < Pow2(len)
    ensures Value(BitString(val, len)) == val
  {
    if len > 0 {
      ValueOfBitString(val / 2, len - 1);
      ValuePush(BitString(val / 2, len - 1), val % 2 == 1);
    }
  }

  lemma {:induction false} ValueFits(b: seq<bool>)
    ensures Value(b) < Pow2(|b|)
  {
    if b != [] {
      ValueFits(b[..|b| - 1]);
    }
  }

  // Digits of the value are the bits.
  lemma {:induction false} ValueBit(b: seq<bool>, j: nat)
    requires j < |b|
    ensures GetBit(Value(b), |b| - 1 - j) == b[j]
  {
    var front := b[..|b| - 1];
    if j < |b| - 1 {
      ValueBit(front, j);
      assert Value(b) / 2 == Value(front);
    }
  }

  /** appendBits. Its shifts see the low 32 bits of the value only. */
  method AppendBits(val: int, len: int, bb: seq<bool>) returns (r: Outcome<seq<bool>>)
    ensures len < 0 || len > 31 || Word(val) >= Pow2(len) ==> r == RangeError
    ensures 0 <= len <= 31 && Word(val) < Pow2(len) ==> r == Done(bb + BitString(Word(val), len))
    ensures 0 <= len <= 31 && 0 <= val < Pow2(len) ==> r == Done(bb + BitString(val, len))
  {
    if len < 0 || len > 31 {
      return RangeError;
    }
    var word := Word(val);
    PowersFit(len);
    ShrZero(word, len);
    if Shr(word, len) != 0 {
      return RangeError;
    }
    var bits := bb;
    var i := len - 1;
    while i >= 0
      invariant -1 <= i < len
      invariant bits == bb + BitString(Shr(word, i + 1), len - 1 - i)
      decreases i
    {
      ShrStep(word, i);
      bits := bits + [Shr(word, i) % 2 == 1];
      i := i - 1;
    }
    return Done(bits);
  }

  lemma {:induction false} PowersGrow(a: nat, b: nat)
    requires a <= b
    ensures Pow2(a) <= Pow2(b)
    decreases b
  {
    if a < b {
      PowersGrow(a, b - 1);
    }
  }

  lemma {:induction false} PowersFit(len: nat)
    requires len <= 31
    ensures Pow2(len) < 0x1_0000_0000
  {
    PowersGrow(len, 31);
    Powers();
    assert Pow2(10) == 1024;
    assert Pow2(13) == 8192;
    assert Pow2(16) == 0x1_0000;
    assert Pow2(19) == 0x8_0000;
    assert Pow2(22) == 0x40_0000;
    assert Pow2(25) == 0x200_0000;
    assert Pow2(28) == 0x1000_0000;
  }

  // ---- packing into bytes ----

  // Codeword k of the packed bits.
  function PackedByte(bits: seq<bool>, k: nat): Byte
    requires 8 * k + 8 <= |bits|
  {
    ByteValue(bits[8 * k..8 * k + 8]);
    Value(bits[8 * k..8 * k + 8])
  }

  lemma {:induction false} ByteValue(b: seq<bool>)
    requires |b| == 8
    ensures Value(b) < 256
  {
    Powers();
    ValueFits(b);
  }

  function Pack(bits: seq<bool>): (data: seq<Byte>)
    requires |bits| % 8 == 0
    ensures |data| * 8 == |bits|
  {
    seq(|bits| / 8, k requires 0 <= k < |bits| / 8 => PackedByte(bits, k))
  }

  /** Reading packed bytes bit by bit gives the bits back. */
  lemma {:induction false} BitsOfPack(bits: seq<bool>)
    requires |bits| % 8 == 0
    ensures BitsOf(Pack(bits)) == bits
  {
    forall i | 0 <= i < |bits| ensures BitsOf(Pack(bits))[i] == bits[i] {
      var k := i / 8;
      ValueBit(bits[8 * k..8 * k + 8], i % 8);
    }
  }

  /** ... and packing the bits of bytes gives the bytes back. */
  lemma {:induction false} PackOfBits(data: seq<Byte>)
    ensures Pack(BitsOf(data)) == data
  {
    BitsOfPack(BitsOf(data));
    BitsOfInjective(Pack(BitsOf(data)), data);
  }

  // The bytes when the first i bits have been stored: the rest is still 0.
  function Partial(bits: seq<bool>, i: nat): (data: seq<Byte>)
    requires |bits| % 8 == 0 && i <= |bits|
    ensures |data| == |bits| / 8
  {
    seq(|bits| / 8, k requires 0 <= k < |bits| / 8 => PartialByte(bits[8 * k..8 * k + 8], i - 8 * k))
  }

  // A byte with its first n bits stored.
  function PartialByte(b: seq<bool>, n: int): Byte
    requires |b| == 8
  {
    if n <= 0 then 0
    else if n >= 8 then ByteValue(b); Value(b)
    else StoredFits(b[..n], 8 - n); Shifted(Value(b[..n]), 8 - n)
  }

  function Shifted(v: nat, n: nat): nat
    decreases n
  {
    if n == 0 then v else Shifted(2 * v, n - 1)
  }

  lemma {:induction false} ShiftedTimes(v: nat, n: nat)
    ensures Shifted(v, n) == v * Pow2(n)
    decreases n
  {
    if n > 0 {
      ShiftedTimes(2 * v, n - 1);
    }
  }

  lemma {:induction false} ShiftedBound(v: nat, m: nat, n: nat)
    requires v < Pow2(m)
    ensures Shifted(v, n) < Pow2(m + n)
    decreases n
  {
    if n > 0 {
      ShiftedBound(2 * v, m + 1, n - 1);
    }
  }

  lemma {:induction false} StoredFits(b: seq<bool>, n: nat)
    requires |b| + n == 8
    ensures Shifted(Value(b), n) < 256
  {
    ValueFits(b);
    ShiftedBound(Value(b), |b|, n);
    Powers();
  }

  lemma {:induction false} ShiftedSum(v: nat, c: nat, n: nat)
    ensures Shifted(v + c, n) == Shifted(v, n) + Shifted(c, n)
    decreases n
  {
    if n > 0 {
      ShiftedSum(2 * v, 2 * c, n - 1);
    }
  }

  lemma {:induction false} ShiftedOne(n: nat)
    ensures Shifted(1, n) == Pow2(n)
  {
    ShiftedTimes(1, n);
  }

  lemma {:induction false} PartialByteIs(b: seq<bool>, n: nat)
    requires |b| == 8 && n <= 8
    ensures PartialByte(b, n) == Shifted(Value(b[..n]), 8 - n)
  {
    if n == 0 {
      ShiftedTimes(0, 8);
    } else if n == 8 {
      assert b[..8] == b;
    }
  }

  // Storing one more bit adds its weight.
  lemma {:induction false} PartialByteStep(b: seq<bool>, n: nat)
    requires |b| == 8 && n < 8
    ensures PartialByte(b, n + 1) == PartialByte(b, n) + (if b[n] then Pow2(7 - n) else 0)
  {
    PartialByteIs(b, n);
    PartialByteIs(b, n + 1);
    assert b[..n + 1] == b[..n] + [b[n]];
    ValuePush(b[..n], b[n]);
    ShiftedPush(Value(b[..n]), b[n], 7 - n);
  }

  lemma {:induction false} ShiftedPush(v: nat, bit: bool, n: nat)
    ensures Shifted(2 * v + (if bit then 1 else 0), n) == Shifted(v, n + 1) + (if bit then Pow2(n) else 0)
  {
    ShiftedSum(2 * v, if bit then 1 else 0, n);
    ShiftedOne(n);
    ShiftedTimes(0, n);
  }

  /** Packing bits into bytes in big endian. Each bit is or-ed into a place still 0, which is
      addition of its weight. */
  method PackBits(bits: seq<bool>) returns (data: seq<Byte>)
    requires |bits| % 8 == 0
    ensures data == Pack(bits)
  {
    data := seq(|bits| / 8, _ => 0);
    for i := 0 to |bits|
      invariant data == Partial(bits, i)
    {
      PartialStep(bits, i);
      data := data[i / 8 := data[i / 8] + (if bits[i] then Pow2(7 - i % 8) else 0)];
    }
  }

  lemma {:induction false} PartialStep(bits: seq<bool>, i: nat)
    requires |bits| % 8 == 0 && i < |bits|
    ensures var weight := if bits[i] then Pow2(7 - i % 8) else 0;
      && Partial(bits, i)[i / 8] + weight < 256
      && Partial(bits, i + 1) == Partial(bits, i)[i / 8 := Partial(bits, i)[i / 8] + weight]
  {
    var k := i / 8;
    PartialByteStep(bits[8 * k..8 * k + 8], i % 8);
  }
}
