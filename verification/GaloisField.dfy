/** Arithmetic in GF(2^8) modulo the polynomial 0x11D, as the QR encoder computes it
    (frontend/js/qrcodegen.js, reedSolomonMultiply).

    `Multiply` is the shift-and-xor loop of the source. `Mul` is the product as a recursion
    over the binary digits of the second factor; the field laws are proved about it. */
module GaloisField {
  import opened Bits
  import opened Outcomes
  import opened Polynomials

  // The multiple of the modulus that removes the ninth bit of 2z.
  function Carry(z: Byte): nat {
    if z < 128 then 0 else 0x11D
  }

  function Times(digit: nat, x: Byte): Byte {
    if digit == 0 then 0 else x
  }

  // Multiplication by 2, reduced by 0x11D.
  function Double(z: Byte): Byte {
    XorBound(2 * z, Carry(z), 9);
    DoubleFits(z);
    Xor(2 * z, Carry(z))
  }

  // The product: doubling for every digit of y, adding x for every digit that is 1.
  function Mul(x: Byte, y: nat): Byte {
    if y == 0 then 0
    else
      XorByte(Double(Mul(x, y / 2)), Times(y % 2, x));
      Xor(Double(Mul(x, y / 2)), Times(y % 2, x))
  }

  lemma {:induction false} DoubleFits(z: Byte)
    ensures Xor(2 * z, Carry(z)) < 256
    ensures z < 128 ==> Xor(2 * z, Carry(z)) == 2 * z
  {
    if z < 128 {
      XorZero(2 * z);
    } else {
      Powers();
      assert Shr(2 * z, 8) == Shr(z, 7);
      SeventhDigit(z);
      assert Shr(0x11D, 8) == Shr(0x8E, 7);
      SeventhDigit(0x8E);
      XorShr(2 * z, 0x11D, 8);
      ShrZero(Xor(2 * z, Carry(z)), 8);
      XorSelf(1);
    }
  }

  /** The range check and the Russian-peasant loop, whose operations are on 32-bit words; they are
      given in the form proved equal by WordForms. The final assertion of the source, that the
      product fits a byte, is part of the result's type. */
  method Multiply(x: int, y: int) returns (r: Outcome<Byte>)
    ensures r.RangeError? <==> Word(x) > 255 || Word(y) > 255
    ensures Word(x) < 256 && Word(y) < 256 ==> r == Done(Mul(Word(x), Word(y)))
  {
    if Word(x) > 255 || Word(y) > 255 {
      return RangeError;
    }
    var a: Byte, b: Byte, z: Byte, i := Word(x), Word(y), 0, 8;
    ByteShiftedOut(b);
    while i > 0
      invariant 0 <= i <= 8
      invariant z == Mul(a, Shr(b, i))
    {
      i := i - 1;
      ShrStep(b, i);
      MulStep(a, Shr(b, i));
      z := Xor(2 * z, Carry(z));
      z := Xor(z, Times(Digit(b, i), a));
    }
    return Done(z);
  }

  lemma {:induction false} SameTail(a: nat, b: nat, c: nat)
    ensures Xor(Xor(a, c), Xor(b, c)) == Xor(a, b)
  {
    XorAssociates(a, c, Xor(b, c));
    XorCommutes(b, c);
    XorAssociates(c, c, b);
    XorSelf(c);
    XorZero(b);
  }

  // One digit more: what the product leaves out grows by a multiple of the modulus.
  lemma {:induction false} ReducedStep(p: nat, z: Byte, q: nat, x: nat)
    requires Xor(p, z) == CarrylessProduct(0x11D, q)
    ensures Xor(Xor(2 * p, x), Xor(Xor(2 * z, Carry(z)), x)) == CarrylessProduct(0x11D, 2 * q + (if z < 128 then 0 else 1))
  {
    SameTail(2 * p, Xor(2 * z, Carry(z)), x);
    DoubledXor(p, z, Carry(z));
    CarrylessStep(0x11D, q, z >= 128);
  }

  /** The product of the loop is the carry-less product reduced modulo 0x11D: the two differ by a
      multiple of it. */
  lemma {:induction false} MulIsReduced(x: Byte, y: nat) returns (q: nat)
    ensures Xor(CarrylessProduct(x, y), Mul(x, y)) == CarrylessProduct(0x11D, q)
  {
    if y == 0 {
      q := 0;
    } else {
      var half := MulIsReduced(x, y / 2);
      var z := Mul(x, y / 2);
      ReducedStep(CarrylessProduct(x, y / 2), z, half, Times(y % 2, x));
      q := 2 * half + (if z < 128 then 0 else 1);
    }
  }

  lemma {:induction false} WordForms(z: Byte, digit: nat, x: Byte)
    requires digit < 2
    ensures Shr(z, 7) * 0x11D == Carry(z)
    ensures digit * x == Times(digit, x)
  {
    SeventhDigit(z);
  }

  lemma {:induction false} ByteShiftedOut(y: Byte)
    ensures Shr(y, 8) == 0
  {
    Powers();
    ShrZero(y, 8);
  }

  lemma {:induction false} MulStep(x: Byte, y: nat)
    ensures Mul(x, y) == Xor(Double(Mul(x, y / 2)), Times(y % 2, x))
  {
    if y == 0 {
      XorZero(0);
    }
  }

  // ---- the field laws ----

  lemma {:induction false} CarryXor(a: Byte, b: Byte)
    ensures Xor(a, b) < 256 && Carry(Xor(a, b)) == Xor(Carry(a), Carry(b))
  {
    XorByte(a, b);
    TopDigitXor(a, b);
    XorZero(0x11D);
    XorSelf(0x11D);
    XorZero(0);
  }

  lemma {:induction false} DoubleXor(a: Byte, b: Byte)
    ensures Xor(a, b) < 256
    ensures Double(Xor(a, b)) == Xor(Double(a), Double(b))
  {
    XorByte(a, b);
    var h, k := Carry(a), Carry(b);
    XorSwap(2 * a, h, 2 * b, k);
    assert Xor(2 * a, 2 * b) == 2 * Xor(a, b) by { XorHalf(2 * a, 2 * b); }
    CarryXor(a, b);
  }

  lemma {:induction false} SeventhDigit(a: Byte)
    ensures Shr(a, 7) == (if a >= 128 then 1 else 0)
  {
    Powers();
    ShrZero(a, 7);
    ShrZero(a, 8);
    ShrStep(a, 7);
  }

  lemma {:induction false} TopDigitXor(a: Byte, b: Byte)
    ensures Xor(a, b) >= 128 <==> ((a >= 128) != (b >= 128))
  {
    Powers();
    XorByte(a, b);
    XorShr(a, b, 7);
    SeventhDigit(a);
    SeventhDigit(b);
    SeventhDigit(Xor(a, b));
    XorZero(1);
    XorSelf(1);
  }

  /** Multiplication is linear in its first argument over exclusive or, the field's addition. */
  lemma {:induction false} MulLeftXor(a: Byte, b: Byte, y: nat)
    ensures Xor(a, b) < 256
    ensures Mul(Xor(a, b), y) == Xor(Mul(a, y), Mul(b, y))
  {
    XorByte(a, b);
    if y == 0 {
      XorZero(0);
    } else {
      MulLeftXor(a, b, y / 2);
      var p, q := Mul(a, y / 2), Mul(b, y / 2);
      DoubleXor(p, q);
      XorSwap(Double(p), Times(y % 2, a), Double(q), Times(y % 2, b));
      XorZero(0);
    }
  }

  /** ... and in its second. */
  lemma {:induction false} MulRightXor(x: Byte, a: nat, b: nat)
    ensures Mul(x, Xor(a, b)) == Xor(Mul(x, a), Mul(x, b))
    decreases a + b
  {
    if a == 0 || b == 0 {
      XorZero(a);
      XorZero(b);
      XorZero(Mul(x, a));
      XorZero(Mul(x, b));
    } else {
      MulRightXor(x, a / 2, b / 2);
      var p, q := Mul(x, a / 2), Mul(x, b / 2);
      DoubleXor(p, q);
      XorSwap(Double(p), Times(a % 2, x), Double(q), Times(b % 2, x));
      XorHalf(a, b);
      MulStep(x, Xor(a, b));
      XorZero(x);
      XorZero(0);
      XorSelf(x);
    }
  }

  lemma {:induction false} MulDouble(x: Byte, y: nat)
    ensures Mul(Double(x), y) == Double(Mul(x, y))
  {
    DoubleFits(0);
    if y > 0 {
      MulDouble(x, y / 2);
      DoubleXor(Double(Mul(x, y / 2)), Times(y % 2, x));
    }
  }

  lemma {:induction false} ZeroMul(y: nat)
    ensures Mul(0, y) == 0
  {
    DoubleFits(0);
    XorZero(0);
    if y > 0 {
      ZeroMul(y / 2);
    }
  }

  // A product times w: w moves through the digit recursion onto the first factor.
  lemma {:induction false} MulSwap(y: Byte, z: nat, w: Byte)
    ensures Mul(Mul(y, z), w) == Mul(Mul(y, w), z)
  {
    ZeroMul(w);
    if z > 0 {
      var t := Mul(y, z / 2);
      MulSwap(y, z / 2, w);
      MulDouble(t, w);
      MulLeftXor(Double(t), Times(z % 2, y), w);
    }
  }

  lemma {:induction false} OneMul(y: Byte)
    ensures Mul(1, y) == y
  {
    if y > 0 {
      OneMul(y / 2);
      DoubleFits(y / 2);
      XorHalf(2 * (y / 2), y % 2);
      XorZero(y / 2);
    }
  }

  lemma {:induction false} MulOne(x: Byte)
    ensures Mul(x, 1) == x
  {
    DoubleFits(0);
    XorZero(x);
    assert Mul(x, 1) == Xor(Double(Mul(x, 0)), x);
  }

  lemma {:induction false} MulCommutes(x: Byte, y: Byte)
    ensures Mul(x, y) == Mul(y, x)
  {
    OneMul(x);
    OneMul(y);
    MulSwap(1, x, y);
  }

  lemma {:induction false} MulAssociates(x: Byte, y: Byte, z: Byte)
    ensures Mul(Mul(x, y), z) == Mul(x, Mul(y, z))
  {
    MulCommutes(x, Mul(y, z));
    MulSwap(y, z, x);
    MulCommutes(x, y);
  }

  // ---- the field as a ring value ----

  function Add(a: Byte, b: Byte): Byte {
    XorByte(a, b);
    Xor(a, b)
  }

  function GF256(): Ring<Byte> {
    Ring(0, 1, Add, (a: Byte, b: Byte) => Mul(a, b))
  }

  lemma {:induction false} AddLaws(a: Byte, b: Byte, c: Byte)
    ensures Add(a, 0) == a && Add(a, a) == 0 && Add(a, b) == Add(b, a)
    ensures Add(Add(a, b), c) == Add(a, Add(b, c))
  {
    XorZero(a);
    XorSelf(a);
    XorCommutes(a, b);
    XorAssociates(a, b, c);
  }

  /** reedSolomonMultiply and exclusive or form a commutative ring of characteristic 2. */
  lemma {:induction false} GF256Laws()
    ensures Laws(GF256())
  {
    var r := GF256();
    forall a: Byte ensures r.add(a, r.zero) == a && r.add(a, a) == r.zero
      && r.mul(a, r.one) == a && r.mul(a, r.zero) == r.zero
    {
      AddLaws(a, 0, 0);
      MulOne(a);
    }
    forall a: Byte, b: Byte ensures r.add(a, b) == r.add(b, a) && r.mul(a, b) == r.mul(b, a) {
      AddLaws(a, b, 0);
      MulCommutes(a, b);
    }
    forall a: Byte, b: Byte, c: Byte
      ensures r.add(r.add(a, b), c) == r.add(a, r.add(b, c))
      ensures r.mul(r.mul(a, b), c) == r.mul(a, r.mul(b, c))
      ensures r.mul(r.add(a, b), c) == r.add(r.mul(a, c), r.mul(b, c))
    {
      AddLaws(a, b, c);
      MulAssociates(a, b, c);
      MulLeftXor(a, b, c);
    }
  }

  // ---- bytes as eight binary digits ----

  datatype Octet = Octet(d7: bool, d6: bool, d5: bool, d4: bool, d3: bool, d2: bool, d1: bool, d0: bool)
  {
    function Xor(o: Octet): Octet {
      Octet(d7 != o.d7, d6 != o.d6, d5 != o.d5, d4 != o.d4, d3 != o.d3, d2 != o.d2, d1 != o.d1, d0 != o.d0)
    }

    // 0x11D has digits 4, 3, 2 and 0 below digit 8
    function Double(): Octet {
      Octet(d6, d5, d4, d3 != d7, d2 != d7, d1 != d7, d0, d7)
    }
  }

  function ToOctet(x: Byte): Octet {
    Octet(GetBit(x, 7), GetBit(x, 6), GetBit(x, 5), GetBit(x, 4), GetBit(x, 3), GetBit(x, 2), GetBit(x, 1), GetBit(x, 0))
  }

  lemma {:induction false} OctetDouble(x: Byte)
    ensures ToOctet(Double(x)) == ToOctet(x).Double()
  {
    SeventhDigit(x);
    DoubleDigit(x, 0);
    DoubleDigit(x, 1);
    DoubleDigit(x, 2);
    DoubleDigit(x, 3);
    DoubleDigit(x, 4);
    DoubleDigit(x, 5);
    DoubleDigit(x, 6);
    DoubleDigit(x, 7);
    ModulusDigits();
  }

  lemma {:induction false} ModulusDigits()
    ensures GetBit(0x11D, 0) && !GetBit(0x11D, 1) && GetBit(0x11D, 2) && GetBit(0x11D, 3) && GetBit(0x11D, 4)
    ensures !GetBit(0x11D, 5) && !GetBit(0x11D, 6) && !GetBit(0x11D, 7)
  {
  }

  lemma {:induction false} DoubleDigit(x: Byte, i: nat)
    ensures GetBit(Double(x), i) == ((i > 0 && GetBit(x, i - 1)) != (x >= 128 && GetBit(0x11D, i)))
  {
    XorBit(2 * x, Carry(x), i);
    ZeroBit(i);
  }

  lemma {:induction false} OctetInjective(x: Byte, y: Byte)
    requires ToOctet(x) == ToOctet(y)
    ensures x == y
  {
    Powers();
    forall i: nat | i < 8 ensures GetBit(x, i) == GetBit(y, i) {
    }
    BitsDetermine(x, y, 8);
  }

  // ---- the order of 2 ----

  predicate At(n: nat) { true }

  // A sequence of octets that starts at 1 and doubles.
  ghost predicate Doubling(s: nat -> Octet) {
    s(0) == Number(1) && forall n: nat {:trigger At(n)} :: s(n + 1) == s(n).Double()
  }

  function Number(x: nat): Octet {
    Octet(x / 128 % 2 == 1, x / 64 % 2 == 1, x / 32 % 2 == 1, x / 16 % 2 == 1,
          x / 8 % 2 == 1, x / 4 % 2 == 1, x / 2 % 2 == 1, x % 2 == 1)
  }

  lemma {:induction false} Five(s: nat -> Octet, n: nat, a: Octet, b: Octet)
    requires Doubling(s)
    requires s(n) == a && b == a.Double().Double().Double().Double().Double()
    ensures s(n + 5) == b
  {
    assert At(n) && s(n + 1) == a.Double();
    assert At(n + 1) && s(n + 2) == a.Double().Double();
    assert At(n + 2) && s(n + 3) == a.Double().Double().Double();
    assert At(n + 3) && s(n + 4) == a.Double().Double().Double().Double();
    assert At(n + 4);
  }

  lemma {:induction false} Fifteen(s: nat -> Octet)
    requires Doubling(s)
    ensures s(15) == Number(38)
  {
    Five(s, 0, Number(1), Number(32));
    Five(s, 5, Number(32), Number(116));
    Five(s, 10, Number(116), Number(38));
  }

  lemma {:induction false} FirstPowers(s: nat -> Octet)
    requires Doubling(s)
    ensures s(15) == Number(38) && s(25) == Number(3)
  {
    Fifteen(s);
    Five(s, 15, Number(38), Number(180));
    Five(s, 20, Number(180), Number(3));
  }

  // x^25 == x + 1
  lemma {:induction false} Recurrence(s: nat -> Octet, n: nat)
    requires Doubling(s)
    ensures s(n + 25) == s(n).Double().Xor(s(n))
  {
    if n == 0 {
      FirstPowers(s);
    } else {
      Recurrence(s, n - 1);
      assert At(n - 1) && s(n) == s(n - 1).Double();
      assert At(n + 24) && s(n + 25) == s(n + 24).Double();
    }
  }

  lemma {:induction false} Plus25(s: nat -> Octet, n: nat, a: Octet, b: Octet)
    requires Doubling(s) && s(n) == a && b == a.Double().Xor(a)
    ensures s(n + 25) == b
  {
    Recurrence(s, n);
  }

  lemma {:induction false} MiddlePowers(s: nat -> Octet)
    requires Doubling(s)
    ensures s(51) == Number(10) && s(75) == Number(15) && s(85) == Number(214)
  {
    FirstPowers(s);
    Plus25(s, 25, Number(3), Number(5));
    assert At(50);
    Plus25(s, 50, Number(5), Number(15));
    Five(s, 75, Number(15), Number(253));
    Five(s, 80, Number(253), Number(214));
  }

  lemma {:induction false} LaterPowers(s: nat -> Octet)
    requires Doubling(s)
    ensures s(175) == Number(255)
  {
    MiddlePowers(s);
    Plus25(s, 75, Number(15), Number(17));
    Plus25(s, 100, Number(17), Number(51));
    Plus25(s, 125, Number(51), Number(85));
    Plus25(s, 150, Number(85), Number(255));
  }

  lemma {:induction false} FullPeriod(s: nat -> Octet)
    requires Doubling(s)
    ensures s(255) == Number(1)
  {
    LaterPowers(s);
    Plus25(s, 175, Number(255), Number(28));
    Plus25(s, 200, Number(28), Number(36));
    Plus25(s, 225, Number(36), Number(108));
    Five(s, 250, Number(108), Number(1));
  }

  // If p does not divide k, some multiple of k leaves remainder 1.
  function Inverse(p: nat, r: nat): nat
    requires p == 3 || p == 5 || p == 17
    requires 0 < r < p
    ensures (Inverse(p, r) * r) % p == 1
  {
    if p == 3 then [0, 1, 2][r]
    else if p == 5 then [0, 1, 3, 2, 4][r]
    else [0, 1, 9, 6, 13, 7, 3, 5, 15, 2, 12, 14, 10, 4, 11, 8, 16][r]
  }

  lemma {:induction false} BezoutQuotient(k: nat, p: nat, u: nat) returns (w: nat)
    requires p > 0 && (u * (k % p)) % p == 1
    ensures u * k == w * p + 1
  {
    var q, r := k / p, k % p;
    var v := u * r;
    w := u * q + v / p;
    assert v == (v / p) * p + 1;
    assert k == q * p + r;
    TimesSum(u, q, p, r);
    TimesSum(p, u * q, 1, v / p);
  }

  lemma {:induction false} TimesSum(u: nat, q: nat, p: nat, r: nat)
    ensures u * (q * p + r) == (u * q) * p + u * r
  {
  }

  lemma {:induction false} MultipleOf(m: nat, u: nat, k: nat, w: nat, p: nat)
    requires u * k == w * p + 1
    ensures (m * u) * k == w * (p * m) + m
  {
    assert (m * u) * k == m * (u * k);
    TimesSum(m, w, p, 1);
    assert (m * w) * p == w * (p * m);
  }

  // A period not divisible by the factor p of the full period makes its cofactor m a period.
  lemma {:induction false} PeriodWithoutFactor<T(!new)>(r: Ring<T>, g: T, k: nat, p: nat, m: nat)
    requires Laws(r)
    requires p == 3 || p == 5 || p == 17
    requires Pow(r, g, p * m) == r.one
    requires Pow(r, g, k) == r.one && k % p != 0
    ensures Pow(r, g, m) == r.one
  {
    var u := Inverse(p, k % p);
    var w := BezoutQuotient(k, p, u);
    MultipleOf(m, u, k, w, p);
    PowOfPeriod(r, g, k, m * u);
    PowOfPeriod(r, g, p * m, w);
    PowAdd(r, g, w * (p * m), m);
    assert Cite2(r.one, Pow(r, g, m)) && Cite1(Pow(r, g, m));
  }

  // An element with period 255 and none of the periods 85, 51, 15 has order 255.
  lemma {:induction false} OrderFromPeriods<T(!new)>(r: Ring<T>, g: T, k: nat)
    requires Laws(r)
    requires Pow(r, g, 255) == r.one
    requires Pow(r, g, 85) != r.one && Pow(r, g, 51) != r.one && Pow(r, g, 15) != r.one
    requires 0 < k < 255
    ensures Pow(r, g, k) != r.one
  {
    if Pow(r, g, k) == r.one {
      if k % 3 != 0 {
        PeriodWithoutFactor(r, g, k, 3, 85);
      } else if k % 5 != 0 {
        PeriodWithoutFactor(r, g, k, 5, 51);
      } else {
        assert k % 17 != 0;
        PeriodWithoutFactor(r, g, k, 17, 15);
      }
    }
  }

  // What the next lemmas use of GF256 and its element 2.
  ghost predicate DoublesBy(r: Ring<Byte>, g: Byte) {
    && Laws(r) && r.zero == 0 && r.one == 1
    && forall z: Byte {:trigger Cite1(z)} :: r.mul(z, g) == Double(z)
  }

  lemma {:induction false} Periods(r: Ring<Byte>, g: Byte)
    requires DoublesBy(r, g)
    ensures Pow(r, g, 255) == 1
    ensures Pow(r, g, 85) != 1 && Pow(r, g, 51) != 1 && Pow(r, g, 15) != 1
  {
    var s := (n: nat) => ToOctet(Pow(r, g, n));
    forall n: nat ensures s(n + 1) == s(n).Double() {
      PowDoubles(r, g, n);
    }
    OctetPeriods(s);
    NotOne(Pow(r, g, 85), s(85));
    NotOne(Pow(r, g, 51), s(51));
    NotOne(Pow(r, g, 15), s(15));
    IsOne(Pow(r, g, 255), s(255));
  }

  lemma {:induction false} OctetPeriods(s: nat -> Octet)
    requires Doubling(s)
    ensures s(255) == Number(1)
    ensures s(85) != Number(1) && s(51) != Number(1) && s(15) != Number(1)
  {
    FirstPowers(s);
    MiddlePowers(s);
    FullPeriod(s);
  }

  lemma {:induction false} OctetOfOne()
    ensures ToOctet(1) == Number(1)
  {
  }

  lemma {:induction false} NotOne(x: Byte, o: Octet)
    requires o == ToOctet(x) && o != Number(1)
    ensures x != 1
  {
    OctetOfOne();
  }

  lemma {:induction false} IsOne(x: Byte, o: Octet)
    requires o == ToOctet(x) && o == Number(1)
    ensures x == 1
  {
    OctetOfOne();
    OctetInjective(x, 1);
  }

  lemma {:induction false} PowDoubles(r: Ring<Byte>, g: Byte, n: nat)
    requires DoublesBy(r, g)
    ensures ToOctet(Pow(r, g, n + 1)) == ToOctet(Pow(r, g, n)).Double()
  {
    assert Cite1(Pow(r, g, n));
    OctetDouble(Pow(r, g, n));
  }

  lemma {:induction false} DistinctPowers(r: Ring<Byte>, g: Byte, i: nat, j: nat)
    requires DoublesBy(r, g) && i < j < 255
    ensures Pow(r, g, i) != Pow(r, g, j)
  {
    Periods(r, g);
    if Pow(r, g, i) == Pow(r, g, j) {
      PowAdd(r, g, i, 255 - j);
      PowAdd(r, g, j, 255 - j);
      OrderFromPeriods(r, g, i + (255 - j));
    }
  }

  lemma {:induction false} NonzeroPower(r: Ring<Byte>, g: Byte, k: nat)
    requires DoublesBy(r, g)
    ensures Pow(r, g, k) != 0
  {
    Periods(r, g);
    PowOfPeriod(r, g, 255, k);
    var rest := k * 255 - k;
    PowAdd(r, g, k, rest);
    assert Cite2(r.zero, Pow(r, g, rest)) && Cite1(Pow(r, g, rest));
  }

  function Below(n: nat): set<Byte>
    requires n < 256
  {
    if n == 0 then {} else Below(n - 1) + {n}
  }

  lemma {:induction false} BelowSize(n: nat)
    requires n < 256
    ensures forall x :: x in Below(n) <==> 0 < x <= n
    ensures |Below(n)| == n
  {
    if n > 0 {
      BelowSize(n - 1);
    }
  }

  function Image(s: nat -> Byte, n: nat): set<Byte> {
    if n == 0 then {} else Image(s, n - 1) + {s(n - 1)}
  }

  lemma {:induction false} ImageOf(s: nat -> Byte, n: nat, x: Byte) returns (k: nat)
    requires x in Image(s, n)
    ensures k < n && s(k) == x
  {
    if x == s(n - 1) {
      k := n - 1;
    } else {
      k := ImageOf(s, n - 1, x);
    }
  }

  lemma {:induction false} ImageSize(s: nat -> Byte, n: nat)
    requires forall i: nat, j: nat :: i < j < n ==> s(i) != s(j)
    ensures |Image(s, n)| == n
  {
    if n > 0 {
      ImageSize(s, n - 1);
      if s(n - 1) in Image(s, n - 1) {
        var k := ImageOf(s, n - 1, s(n - 1));
      }
    }
  }

  lemma {:induction false} SameSize(a: set<Byte>, b: set<Byte>)
    requires a <= b && |b| <= |a|
    ensures a == b
  {
    assert b == a + (b - a);
    assert |b - a| == 0;
  }

  // 255 distinct nonzero bytes are all the nonzero bytes.
  lemma {:induction false} Exhausted(s: nat -> Byte, n: nat, x: Byte) returns (k: nat)
    requires n < 256 <= n + 1
    requires forall i: nat, j: nat :: i < j < n ==> s(i) != s(j)
    requires forall i: nat :: s(i) != 0
    requires x != 0
    ensures k < n && s(k) == x
  {
    ImageSize(s, n);
    BelowSize(n);
    var a, b := Image(s, n), Below(n);
    forall y | y in a ensures y in b {
      var i := ImageOf(s, n, y);
    }
    SameSize(a, b);
    assert x in b;
    k := ImageOf(s, n, x);
  }

  lemma {:induction false} ProductNonzero(r: Ring<Byte>, g: Byte, x: Byte, y: Byte)
    requires DoublesBy(r, g)
    requires r.mul(x, y) == 0
    ensures x == 0 || y == 0
  {
    if x != 0 && y != 0 {
      var s := (n: nat) => Pow(r, g, n);
      forall i: nat, j: nat | i < j < 255 ensures s(i) != s(j) {
        DistinctPowers(r, g, i, j);
      }
      forall i: nat ensures s(i) != 0 {
        NonzeroPower(r, g, i);
      }
      var i := Exhausted(s, 255, x);
      var j := Exhausted(s, 255, y);
      PowAdd(r, g, i, j);
      NonzeroPower(r, g, i + j);
    }
  }

  // ---- what follows for the field itself ----

  lemma {:induction false} GF256Doubles()
    ensures DoublesBy(GF256(), 2)
  {
    GF256Laws();
    forall z: Byte ensures GF256().mul(z, 2) == Double(z) {
      MulTwo(z);
    }
  }

  lemma {:induction false} MulTwo(z: Byte)
    ensures Mul(z, 2) == Double(z)
  {
    MulOne(z);
    MulStep(z, 2);
    XorZero(Double(z));
  }

  /** The 255 powers 2^0 .. 2^254 are distinct and nonzero ... */
  lemma {:induction false} PowersDistinct(i: nat, j: nat)
    requires i < j < 255
    ensures Pow(GF256(), 2, i) != Pow(GF256(), 2, j)
    ensures Pow(GF256(), 2, i) != 0
  {
    GF256Doubles();
    DistinctPowers(GF256(), 2, i, j);
    NonzeroPower(GF256(), 2, i);
  }

  /** ... so they are all nonzero elements and products of nonzero elements are nonzero. */
  lemma {:induction false} GF256NoZeroDivisors()
    ensures NoZeroDivisors(GF256())
  {
    GF256Doubles();
    forall a: Byte, b: Byte | GF256().mul(a, b) == 0 ensures a == 0 || b == 0 {
      ProductNonzero(GF256(), 2, a, b);
    }
  }
}
