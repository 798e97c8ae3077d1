/** Reed-Solomon error correction codewords (frontend/js/qrcodegen.js,
    reedSolomonComputeDivisor and reedSolomonComputeRemainder). */
module ReedSolomon {
  import opened Bits
  import opened GaloisField
  import opened Outcomes
  import opened Polynomials

  const MAX_DEGREE := 255

  // The generator polynomial without its leading 1.
  function Divisor(degree: nat): (g: seq<Byte>)
    ensures |g| == degree
  {
    RootProduct(GF256(), 2, degree)[1..]
  }

  function Ecc(data: seq<Byte>, degree: nat): (e: seq<Byte>)
    requires degree > 0
    ensures |e| == degree
  {
    Remainder(GF256(), data, Divisor(degree))
  }

  // ---- computing the divisor ----

  // The in-place update of one turn of the outer loop: the product with (x - root), truncated
  // to the length of w by dropping the highest coefficient.
  function LinearStep<T>(r: Ring<T>, w: seq<T>, root: T): (s: seq<T>)
    ensures |s| == |w|
  {
    seq(|w|, j requires 0 <= j < |w| =>
      r.add(r.mul(w[j], root), if j + 1 < |w| then w[j + 1] else r.zero))
  }

  // The last `degree` coefficients of a product, padded on the left with zeros.
  function Window<T>(r: Ring<T>, p: seq<T>, degree: nat): (s: seq<T>)
    requires |p| > 0
    ensures |s| == degree
  {
    (Zeros(r, degree) + p)[|p|..]
  }

  lemma {:induction false} WindowStep<T(!new)>(r: Ring<T>, p: seq<T>, root: T, degree: nat)
    requires Laws(r) && |p| > 0
    ensures LinearStep(r, Window(r, p, degree), root) == Window(r, TimesLinear(r, p, root), degree)
  {
    var q := TimesLinear(r, p, root);
    var z := Zeros(r, degree);
    forall j | 0 <= j < degree
      ensures LinearStep(r, Window(r, p, degree), root)[j] == Window(r, q, degree)[j]
    {
      var k := |p| + j;
      var here := (z + p)[k];
      var next := if j + 1 < degree then (z + p)[k + 1] else r.zero;
      assert Cite2(r.mul(here, root), next);
      assert Cite1(root) && Cite2(r.zero, root) && Cite1(r.zero);
      assert Window(r, q, degree)[j] == (z + q)[k + 1];
    }
  }

  // The inner loop of reedSolomonComputeDivisor.
  method MultiplyByLinear(a: array<Byte>, root: Byte)
    modifies a
    ensures a[..] == LinearStep(GF256(), old(a[..]), root)
  {
    ghost var r := GF256();
    for j := 0 to a.Length
      invariant forall k :: 0 <= k < j ==> a[k] == LinearStep(r, old(a[..]), root)[k]
      invariant forall k :: j <= k < a.Length ==> a[k] == old(a[k])
    {
      var product := Multiply(a[j], root);
      a[j] := product.value;
      if j + 1 < a.Length {
        a[j] := Add(a[j], a[j + 1]);
      } else {
        AddLaws(product.value, 0, 0);
      }
    }
  }

  /** reedSolomonComputeDivisor: the nested loops over one array compute the coefficients of
      (x - 2^0)(x - 2^1)...(x - 2^(degree-1)) without the leading one. */
  method ComputeDivisor(degree: int) returns (result: Outcome<seq<Byte>>)
    ensures result.RangeError? <==> degree < 1 || degree > MAX_DEGREE
    ensures 1 <= degree <= MAX_DEGREE ==> result == Done(Divisor(degree))
  {
    if degree < 1 || degree > MAX_DEGREE {
      return RangeError;
    }
    ghost var r := GF256();
    GF256Laws();
    var a := new Byte[degree](k => if k == degree - 1 then 1 else 0);
    var root: Byte := 1;
    WindowOfOne(r, a[..]);
    for i := 0 to degree
      invariant root == Pow(r, 2, i)
      invariant a[..] == Product(r, 2, i, degree)
    {
      ProductStep(r, 2, i, degree);
      MultiplyByLinear(a, root);
      var power := Multiply(root, 2);
      root := power.value;
    }
    WindowFull(r, RootProduct(r, 2, degree), degree);
    return Done(a[..]);
  }

  // What the array holds after i turns of the outer loop.
  function Product<T>(r: Ring<T>, g: T, i: nat, degree: nat): (s: seq<T>)
    ensures |s| == degree
  {
    Window(r, RootProduct(r, g, i), degree)
  }

  lemma {:induction false} WindowOfOne<T>(r: Ring<T>, s: seq<T>)
    requires forall k :: 0 <= k < |s| ==> s[k] == if k == |s| - 1 then r.one else r.zero
    ensures forall g :: s == Product(r, g, 0, |s|)
  {
  }

  lemma {:induction false} ProductStep<T(!new)>(r: Ring<T>, g: T, i: nat, degree: nat)
    requires Laws(r)
    ensures LinearStep(r, Product(r, g, i, degree), Pow(r, g, i)) == Product(r, g, i + 1, degree)
  {
    WindowStep(r, RootProduct(r, g, i), Pow(r, g, i), degree);
  }

  lemma {:induction false} WindowFull<T>(r: Ring<T>, p: seq<T>, degree: nat)
    requires |p| == degree + 1
    ensures Window(r, p, degree) == p[1..]
  {
  }

  /** The generator polynomial is the product over the consecutive powers of 2. */
  lemma {:induction false} DivisorIsProduct(degree: nat)
    ensures [1] + Divisor(degree) == RootProduct(GF256(), 2, degree)
  {
    GF256Laws();
    RootProductMonic(GF256(), 2, degree);
  }

  // ---- computing the remainder ----

  /** reedSolomonComputeRemainder: polynomial long division, one data byte at a time. */
  method ComputeRemainder(data: seq<Byte>, divisor: seq<Byte>) returns (result: seq<Byte>)
    requires |divisor| > 0
    ensures result == Remainder(GF256(), data, divisor)
  {
    ghost var r := GF256();
    result := seq(|divisor|, _ => 0);
    for k := 0 to |data|
      invariant result == Remainder(r, data[..k], divisor)
    {
      ghost var before := result;
      var factor := Add(data[k], result[0]);
      result := result[1..] + [0];
      ghost var shifted := result;
      for i := 0 to |divisor|
        invariant |result| == |divisor|
        invariant result[..i] == DivStep(r, divisor, before, data[k])[..i]
        invariant result[i..] == shifted[i..]
      {
        var product := Multiply(divisor[i], factor);
        result := result[i := Add(result[i], product.value)];
      }
      assert data[..k + 1][..k] == data[..k];
    }
    assert data[..|data|] == data;
  }

  // The codewords for data in any ring, with the powers of g as roots.
  function EccIn<T>(r: Ring<T>, g: T, data: seq<T>, degree: nat): (e: seq<T>)
    requires degree > 0
    ensures |e| == degree
  {
    Remainder(r, data, RootProduct(r, g, degree)[1..])
  }

  lemma {:induction false} VanishesIn<T(!new)>(r: Ring<T>, g: T, data: seq<T>, degree: nat, i: nat)
    requires Laws(r) && i < degree
    ensures Eval(r, data + EccIn(r, g, data, degree), Pow(r, g, i)) == r.zero
  {
    var x, d := Pow(r, g, i), RootProduct(r, g, degree)[1..];
    DivisionIdentity(r, data, d, x);
    RootProductMonic(r, g, degree);
    assert [r.one] + d == RootProduct(r, g, degree);
    EvalRootProduct(r, g, degree, x);
    RootValueVanishes(r, g, degree, i);
    assert Cite1(Eval(r, Quotient(r, data, d), x));
  }

  // The word, read as a polynomial, is zero at g^0 .. g^(n-1): it passes the error check.
  ghost predicate IsCodeword<T>(r: Ring<T>, g: T, word: seq<T>, n: nat) {
    forall i: nat {:trigger Pow(r, g, i)} :: i < n ==> Eval(r, word, Pow(r, g, i)) == r.zero
  }

  lemma {:induction false} CharacterisedIn<T(!new)>(r: Ring<T>, g: T, data: seq<T>, ecc: seq<T>, degree: nat)
    requires Laws(r) && NoZeroDivisors(r) && degree > 0 && |ecc| == degree
    requires forall i: nat, j: nat :: i < j < degree ==> Pow(r, g, i) != Pow(r, g, j)
    ensures IsCodeword(r, g, data + ecc, degree) <==> ecc == EccIn(r, g, data, degree)
  {
    var good := EccIn(r, g, data, degree);
    assert IsCodeword(r, g, data + good, degree) by {
      forall i: nat | i < degree ensures Eval(r, data + good, Pow(r, g, i)) == r.zero {
        VanishesIn(r, g, data, degree, i);
      }
    }
    if IsCodeword(r, g, data + ecc, degree) {
      SameRootsSameEcc(r, g, data, ecc, good);
    }
  }

  /** Data followed by its error correction codewords is a multiple of the generator: it
      vanishes at every power 2^0 .. 2^(degree-1). */
  lemma {:induction false} CodewordVanishes(data: seq<Byte>, degree: nat)
    requires degree > 0
    ensures IsCodeword(GF256(), 2, data + Ecc(data, degree), degree)
  {
    GF256Laws();
    forall i: nat | i < degree ensures Eval(GF256(), data + Ecc(data, degree), Pow(GF256(), 2, i)) == 0 {
      VanishesIn(GF256(), 2, data, degree, i);
    }
  }

  /** ... and these are the only codewords with that property. */
  lemma {:induction false} EccCharacterised(data: seq<Byte>, ecc: seq<Byte>, degree: nat)
    requires 0 < degree <= MAX_DEGREE && |ecc| == degree
    ensures IsCodeword(GF256(), 2, data + ecc, degree) <==> ecc == Ecc(data, degree)
  {
    GF256Laws();
    GF256NoZeroDivisors();
    forall i: nat, j: nat | i < j < degree ensures Pow(GF256(), 2, i) != Pow(GF256(), 2, j) {
      PowersDistinct(i, j);
    }
    CharacterisedIn(GF256(), 2, data, ecc, degree);
  }

  lemma {:induction false} SameRootsSameEcc<T(!new)>(r: Ring<T>, g: T, data: seq<T>, a: seq<T>, b: seq<T>)
    requires Laws(r) && NoZeroDivisors(r) && |a| == |b|
    requires forall i: nat, j: nat :: i < j < |a| ==> Pow(r, g, i) != Pow(r, g, j)
    requires IsCodeword(r, g, data + a, |a|) && IsCodeword(r, g, data + b, |a|)
    ensures a == b
  {
    var roots := seq(|a|, (i: nat) => Pow(r, g, i));
    forall i | 0 <= i < |a| ensures Eval(r, Sum(r, a, b), roots[i]) == r.zero {
      DifferenceVanishes(r, data, a, b, roots[i]);
    }
    RootCount(r, Sum(r, a, b), roots);
    SumZero(r, a, b);
  }

  lemma {:induction false} DifferenceVanishes<T(!new)>(r: Ring<T>, data: seq<T>, a: seq<T>, b: seq<T>, x: T)
    requires Laws(r) && |a| == |b|
    requires Eval(r, data + a, x) == r.zero && Eval(r, data + b, x) == r.zero
    ensures Eval(r, Sum(r, a, b), x) == r.zero
  {
    EvalAppend(r, data, a, x);
    EvalAppend(r, data, b, x);
    EvalSum(r, a, b, x);
    var d, ea, eb := r.mul(Eval(r, data, x), Pow(r, x, |a|)), Eval(r, a, x), Eval(r, b, x);
    Equal(r, d, ea);
    Equal(r, d, eb);
    assert Cite1(d);
  }

  lemma {:induction false} SumZero<T(!new)>(r: Ring<T>, a: seq<T>, b: seq<T>)
    requires Laws(r) && |a| == |b|
    requires Sum(r, a, b) == Zeros(r, |a|)
    ensures a == b
  {
    forall i | 0 <= i < |a| ensures a[i] == b[i] {
      assert Sum(r, a, b)[i] == r.zero;
      Equal(r, a[i], b[i]);
    }
  }
}
