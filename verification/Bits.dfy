/** Non-negative machine words as natural numbers, with the bit operations the sources use on
    them: `n >>> i` is `Shr(n, i)`, `n << 1` is `2 * n`, `a ^ b` is `Xor(a, b)`. */
module Bits {

  type Byte = n: nat | n < 256

  // The 32-bit word that a shift turns a number into.
  function Word(val: int): (w: nat)
    ensures w < 0x1_0000_0000 && (0 <= val < 0x1_0000_0000 ==> w == val)
  {
    val % 0x1_0000_0000
  }

  function Pow2(n: nat): (p: nat)
    ensures p > 0
  {
    if n == 0 then 1 else 2 * Pow2(n - 1)
  }

  lemma {:induction false} Powers()
    ensures Pow2(0) == 1 && Pow2(1) == 2 && Pow2(2) == 4 && Pow2(3) == 8 && Pow2(4) == 16
    ensures Pow2(5) == 32 && Pow2(6) == 64 && Pow2(7) == 128 && Pow2(8) == 256
  {
  }

  // n shifted right by i places.
  function Shr(n: nat, i: nat): nat {
    if i == 0 then n else Shr(n / 2, i - 1)
  }

  // The i-th binary digit of n.
  function Digit(n: nat, i: nat): nat {
    Shr(n, i) % 2
  }

  predicate GetBit(n: nat, i: nat) {
    Digit(n, i) != 0
  }

  // Exclusive or of the binary digits.
  function Xor(a: nat, b: nat): nat {
    if a == 0 && b == 0 then 0
    else 2 * Xor(a / 2, b / 2) + (if a % 2 != b % 2 then 1 else 0)
  }

  lemma {:induction false} XorZero(a: nat)
    ensures Xor(a, 0) == a && Xor(0, a) == a
  {
    if a > 0 {
      XorZero(a / 2);
    }
  }

  lemma {:induction false} XorSelf(a: nat)
    ensures Xor(a, a) == 0
  {
    if a > 0 {
      XorSelf(a / 2);
    }
  }

  lemma {:induction false} XorCommutes(a: nat, b: nat)
    ensures Xor(a, b) == Xor(b, a)
  {
    if a > 0 || b > 0 {
      XorCommutes(a / 2, b / 2);
    }
  }

  lemma {:induction false} XorAssociates(a: nat, b: nat, c: nat)
    ensures Xor(Xor(a, b), c) == Xor(a, Xor(b, c))
  {
    if a > 0 || b > 0 || c > 0 {
      XorHalf(a, b);
      XorHalf(b, c);
      XorHalf(Xor(a, b), c);
      XorHalf(a, Xor(b, c));
      XorAssociates(a / 2, b / 2, c / 2);
    }
  }

  // Xor acts digit by digit.
  lemma {:induction false} XorHalf(a: nat, b: nat)
    ensures Xor(a, b) / 2 == Xor(a / 2, b / 2)
    ensures Xor(a, b) % 2 == (if a % 2 != b % 2 then 1 else 0)
  {
  }

  lemma {:induction false} XorShr(a: nat, b: nat, n: nat)
    ensures Shr(Xor(a, b), n) == Xor(Shr(a, n), Shr(b, n))
  {
    if n > 0 {
      XorHalf(a, b);
      XorShr(a / 2, b / 2, n - 1);
    }
  }

  lemma {:induction false} XorBound(a: nat, b: nat, n: nat)
    requires a < Pow2(n) && b < Pow2(n)
    ensures Xor(a, b) < Pow2(n)
  {
    if n > 0 {
      XorBound(a / 2, b / 2, n - 1);
    }
  }

  lemma {:induction false} XorByte(a: Byte, b: Byte)
    ensures Xor(a, b) < 256
  {
    assert Pow2(8) == 256;
    XorBound(a, b, 8);
  }

  lemma {:induction false} XorSwap(a: nat, b: nat, c: nat, d: nat)
    ensures Xor(Xor(a, b), Xor(c, d)) == Xor(Xor(a, c), Xor(b, d))
  {
    XorAssociates(a, b, Xor(c, d));
    XorAssociates(b, c, d);
    XorCommutes(b, c);
    XorAssociates(c, b, d);
    XorAssociates(a, c, Xor(b, d));
  }

  lemma {:induction false} XorCancel(a: nat, b: nat)
    ensures Xor(Xor(a, b), b) == a
    ensures Xor(a, b) == 0 <==> a == b
  {
    XorAssociates(a, b, b);
    XorSelf(b);
    XorZero(a);
    if Xor(a, b) == 0 {
      XorZero(b);
    }
  }

  // ---- shifts ----

  lemma {:induction false} ShrStep(n: nat, i: nat)
    ensures Shr(n, i + 1) == Shr(n, i) / 2
  {
    if i > 0 {
      ShrStep(n / 2, i - 1);
    }
  }

  // n has at most i digits exactly when nothing is left after shifting i places.
  lemma {:induction false} ShrZero(n: nat, i: nat)
    ensures Shr(n, i) == 0 <==> n < Pow2(i)
  {
    if i > 0 {
      ShrZero(n / 2, i - 1);
    }
  }

  lemma {:induction false} ZeroBit(i: nat)
    ensures !GetBit(0, i)
  {
    if i > 0 {
      ZeroBit(i - 1);
    }
  }

  lemma {:induction false} XorBit(a: nat, b: nat, i: nat)
    ensures GetBit(Xor(a, b), i) == (GetBit(a, i) != GetBit(b, i))
  {
    XorShr(a, b, i);
    XorHalf(Shr(a, i), Shr(b, i));
  }

  // Numbers of at most n digits are determined by their digits.
  lemma {:induction false} BitsDetermine(a: nat, b: nat, n: nat)
    requires a < Pow2(n) && b < Pow2(n)
    requires forall i: nat :: i < n ==> GetBit(a, i) == GetBit(b, i)
    ensures a == b
  {
    if n > 0 {
      forall i: nat | i < n - 1 ensures GetBit(a / 2, i) == GetBit(b / 2, i) {
        assert GetBit(a, i + 1) == GetBit(b, i + 1);
      }
      BitsDetermine(a / 2, b / 2, n - 1);
      assert GetBit(a, 0) == GetBit(b, 0);
    }
  }

  // ---- division ----

  lemma {:induction false} TimesAtLeast(e: int, d: int)
    requires e >= 1 && d >= 0
    ensures e * d >= d
  {
  }

  // Quotient and remainder are unique.
  lemma {:induction false} DivUnique(y: int, d: int, q: int, r: int)
    requires d > 0 && y == q * d + r && 0 <= r < d
    ensures y / d == q && y % d == r
  {
    var e, m := y / d, y % d;
    assert y == e * d + m;
    assert (e - q) * d == e * d - q * d;
    if e > q {
      TimesAtLeast(e - q, d);
    } else if e < q {
      assert (q - e) * d == q * d - e * d;
      TimesAtLeast(q - e, d);
    }
  }

  // ---- products without carries ----

  // Multiplication of polynomials over GF(2), written as numbers.
  function CarrylessProduct(g: nat, q: nat): nat {
    if q == 0 then 0 else Xor(2 * CarrylessProduct(g, q / 2), if q % 2 == 1 then g else 0)
  }

  lemma {:induction false} CarrylessStep(g: nat, p: nat, top: bool)
    ensures CarrylessProduct(g, 2 * p + (if top then 1 else 0))
         == Xor(2 * CarrylessProduct(g, p), if top then g else 0)
  {
    var q := 2 * p + (if top then 1 else 0);
    assert q / 2 == p && (q % 2 == 1 <==> top);
    if q == 0 {
      XorZero(0);
    }
  }

  lemma {:induction false} XorOfDoubles(a: nat, b: nat)
    ensures Xor(2 * a, 2 * b) == 2 * Xor(a, b)
  {
  }

  lemma {:induction false} DoubledXor(a: nat, b: nat, c: nat)
    ensures Xor(2 * a, Xor(2 * b, c)) == Xor(2 * Xor(a, b), c)
  {
    var d, e := 2 * a, 2 * b;
    XorOfDoubles(a, b);
    XorAssociates(d, e, c);
  }
}
