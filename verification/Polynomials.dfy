/** Polynomials over a commutative ring in which every element is its own negative, such as
    GF(2^8). A polynomial is the sequence of its coefficients, highest power first, which is
    how the QR encoder stores data, divisors and remainders.

    The ring is a value (`Ring`), so that proofs here use its laws and nothing else; the laws
    are stated with triggers that fire only where a proof cites them. */
module Polynomials {

  datatype Ring<!T> = Ring(zero: T, one: T, add: (T, T) -> T, mul: (T, T) -> T)

  predicate Cite1<T>(a: T) { true }
  predicate Cite2<T>(a: T, b: T) { true }
  predicate Cite3<T>(a: T, b: T, c: T) { true }

  ghost predicate Laws<T(!new)>(r: Ring<T>) {
    && (forall a {:trigger Cite1(a)} ::
          && r.add(a, r.zero) == a && r.add(a, a) == r.zero
          && r.mul(a, r.one) == a && r.mul(a, r.zero) == r.zero)
    && (forall a, b {:trigger Cite2(a, b)} ::
          && r.add(a, b) == r.add(b, a)
          && r.mul(a, b) == r.mul(b, a))
    && (forall a, b, c {:trigger Cite3(a, b, c)} ::
          && r.add(r.add(a, b), c) == r.add(a, r.add(b, c))
          && r.mul(r.mul(a, b), c) == r.mul(a, r.mul(b, c))
          && r.mul(r.add(a, b), c) == r.add(r.mul(a, c), r.mul(b, c)))
  }

  ghost predicate NoZeroDivisors<T(!new)>(r: Ring<T>) {
    forall a, b {:trigger Cite2(a, b)} :: r.mul(a, b) == r.zero ==> a == r.zero || b == r.zero
  }

  // ---- consequences of the laws ----

  lemma {:induction false} Distribute<T(!new)>(r: Ring<T>, a: T, b: T, c: T)
    requires Laws(r)
    ensures r.mul(r.add(a, b), c) == r.add(r.mul(a, c), r.mul(b, c))
    ensures r.mul(c, r.add(a, b)) == r.add(r.mul(c, a), r.mul(c, b))
  {
    assert Cite3(a, b, c) && Cite2(r.add(a, b), c) && Cite2(a, c) && Cite2(b, c);
  }

  // (a + b) + (c + d) == (a + c) + (b + d)
  lemma {:induction false} Regroup<T(!new)>(r: Ring<T>, a: T, b: T, c: T, d: T)
    requires Laws(r)
    ensures r.add(r.add(a, b), r.add(c, d)) == r.add(r.add(a, c), r.add(b, d))
  {
    assert Cite3(a, b, r.add(c, d)) && Cite3(b, c, d) && Cite2(b, c) && Cite3(c, b, d) && Cite3(a, c, r.add(b, d));
  }

  // (a + b) + (b + c) == a + c
  lemma {:induction false} Telescope<T(!new)>(r: Ring<T>, a: T, b: T, c: T)
    requires Laws(r)
    ensures r.add(r.add(a, b), r.add(b, c)) == r.add(a, c)
  {
    assert Cite3(a, b, r.add(b, c)) && Cite3(b, b, c) && Cite1(b) && Cite1(c) && Cite2(c, r.zero);
  }

  lemma {:induction false} Equal<T(!new)>(r: Ring<T>, a: T, b: T)
    requires Laws(r) && r.add(a, b) == r.zero
    ensures a == b
  {
    assert Cite3(a, b, b) && Cite1(b) && Cite1(a) && Cite2(r.zero, b);
  }

  // a (b c) == b (a c)
  lemma {:induction false} Exchange<T(!new)>(r: Ring<T>, a: T, b: T, c: T)
    requires Laws(r)
    ensures r.mul(a, r.mul(b, c)) == r.mul(b, r.mul(a, c))
    ensures r.mul(r.mul(a, b), c) == r.mul(r.mul(a, c), b)
  {
    assert Cite3(a, b, c) && Cite2(a, b) && Cite3(b, a, c) && Cite3(a, c, b) && Cite2(b, c);
  }

  // ---- powers ----

  function Pow<T>(r: Ring<T>, x: T, n: nat): T {
    if n == 0 then r.one else r.mul(Pow(r, x, n - 1), x)
  }

  lemma {:induction false} PowAdd<T(!new)>(r: Ring<T>, x: T, m: nat, n: nat)
    requires Laws(r)
    ensures Pow(r, x, m + n) == r.mul(Pow(r, x, m), Pow(r, x, n))
  {
    if n == 0 {
      assert Cite1(Pow(r, x, m));
    } else {
      PowAdd(r, x, m, n - 1);
      assert Cite3(Pow(r, x, m), Pow(r, x, n - 1), x);
    }
  }

  lemma {:induction false} PowOfPeriod<T(!new)>(r: Ring<T>, x: T, k: nat, n: nat)
    requires Laws(r) && Pow(r, x, k) == r.one
    ensures Pow(r, x, n * k) == r.one
  {
    if n == 0 {
      assert n * k == 0;
    } else {
      PowOfPeriod(r, x, k, n - 1);
      assert n * k == (n - 1) * k + k;
      PowAdd(r, x, (n - 1) * k, k);
      assert Cite1(r.one);
    }
  }

  // ---- evaluation ----

  function Eval<T>(r: Ring<T>, p: seq<T>, x: T): T {
    if p == [] then r.zero
    else r.add(r.mul(Eval(r, p[..|p| - 1], x), x), p[|p| - 1])
  }

  lemma {:induction false} EvalPush<T(!new)>(r: Ring<T>, p: seq<T>, c: T, x: T)
    ensures Eval(r, p + [c], x) == r.add(r.mul(Eval(r, p, x), x), c)
  {
    assert (p + [c])[..|p|] == p;
  }

  /** p followed by q is p times x^|q| plus q. */
  lemma {:induction false} EvalAppend<T(!new)>(r: Ring<T>, p: seq<T>, q: seq<T>, x: T)
    requires Laws(r)
    ensures Eval(r, p + q, x) == r.add(r.mul(Eval(r, p, x), Pow(r, x, |q|)), Eval(r, q, x))
  {
    var e := Eval(r, p, x);
    if q == [] {
      assert p + q == p;
      assert Cite1(e);
    } else {
      var q', c := q[..|q| - 1], q[|q| - 1];
      var a, b := r.mul(e, Pow(r, x, |q'|)), Eval(r, q', x);
      assert p + q == (p + q') + [c];
      EvalPush(r, p + q', c, x);
      EvalAppend(r, p, q', x);
      Distribute(r, a, b, x);
      assert Cite3(e, Pow(r, x, |q'|), x);
      assert Cite3(r.mul(a, x), r.mul(b, x), c);
    }
  }

  // Coefficientwise sum and multiple.
  function Sum<T>(r: Ring<T>, p: seq<T>, q: seq<T>): (s: seq<T>)
    requires |p| == |q|
    ensures |s| == |p|
  {
    seq(|p|, i requires 0 <= i < |p| => r.add(p[i], q[i]))
  }

  function Scale<T>(r: Ring<T>, p: seq<T>, c: T): (s: seq<T>)
    ensures |s| == |p|
  {
    seq(|p|, i requires 0 <= i < |p| => r.mul(p[i], c))
  }

  lemma {:induction false} EvalSum<T(!new)>(r: Ring<T>, p: seq<T>, q: seq<T>, x: T)
    requires Laws(r) && |p| == |q|
    ensures Eval(r, Sum(r, p, q), x) == r.add(Eval(r, p, x), Eval(r, q, x))
  {
    if p == [] {
      assert Cite1(r.zero);
    } else {
      var n := |p| - 1;
      EvalSum(r, p[..n], q[..n], x);
      assert Sum(r, p, q)[..n] == Sum(r, p[..n], q[..n]);
      Distribute(r, Eval(r, p[..n], x), Eval(r, q[..n], x), x);
      Regroup(r, r.mul(Eval(r, p[..n], x), x), r.mul(Eval(r, q[..n], x), x), p[n], q[n]);
    }
  }

  lemma {:induction false} EvalScale<T(!new)>(r: Ring<T>, p: seq<T>, c: T, x: T)
    requires Laws(r)
    ensures Eval(r, Scale(r, p, c), x) == r.mul(Eval(r, p, x), c)
  {
    if p == [] {
      assert Cite1(c) && Cite2(r.zero, c);
    } else {
      var n := |p| - 1;
      EvalScale(r, p[..n], c, x);
      assert Scale(r, p, c)[..n] == Scale(r, p[..n], c);
      Exchange(r, Eval(r, p[..n], x), c, x);
      Distribute(r, r.mul(Eval(r, p[..n], x), x), p[n], c);
    }
  }

  // ---- products of linear factors ----

  // p times (x - root); in this ring -root is root.
  function TimesLinear<T>(r: Ring<T>, p: seq<T>, root: T): (s: seq<T>)
    ensures |s| == |p| + 1
  {
    Sum(r, p + [r.zero], [r.zero] + Scale(r, p, root))
  }

  lemma {:induction false} EvalTimesLinear<T(!new)>(r: Ring<T>, p: seq<T>, root: T, x: T)
    requires Laws(r)
    ensures Eval(r, TimesLinear(r, p, root), x) == r.mul(Eval(r, p, x), r.add(x, root))
  {
    EvalSum(r, p + [r.zero], [r.zero] + Scale(r, p, root), x);
    EvalPush(r, p, r.zero, x);
    assert Cite1(r.mul(Eval(r, p, x), x));
    EvalLeadingZero(r, Scale(r, p, root), x);
    EvalScale(r, p, root, x);
    Distribute(r, x, root, Eval(r, p, x));
  }

  lemma {:induction false} EvalLeadingZero<T(!new)>(r: Ring<T>, p: seq<T>, x: T)
    requires Laws(r)
    ensures Eval(r, [r.zero] + p, x) == Eval(r, p, x)
  {
    EvalAppend(r, [r.zero], p, x);
    EvalPush(r, [], r.zero, x);
    assert [] + [r.zero] == [r.zero];
    assert Cite1(x) && Cite2(r.zero, x) && Cite1(r.zero);
    assert Cite1(Pow(r, x, |p|)) && Cite2(r.zero, Pow(r, x, |p|));
    assert Cite1(Eval(r, p, x)) && Cite2(r.zero, Eval(r, p, x));
  }

  // (x - g^0) (x - g^1) ... (x - g^(n-1))
  function RootProduct<T>(r: Ring<T>, g: T, n: nat): (p: seq<T>)
    ensures |p| == n + 1
  {
    if n == 0 then [r.one] else TimesLinear(r, RootProduct(r, g, n - 1), Pow(r, g, n - 1))
  }

  lemma {:induction false} RootProductMonic<T(!new)>(r: Ring<T>, g: T, n: nat)
    requires Laws(r)
    ensures RootProduct(r, g, n)[0] == r.one
  {
    if n > 0 {
      RootProductMonic(r, g, n - 1);
      assert Cite1(r.one);
    }
  }

  // The value of that product at x.
  function RootValue<T>(r: Ring<T>, g: T, n: nat, x: T): T {
    if n == 0 then r.one else r.mul(RootValue(r, g, n - 1, x), r.add(x, Pow(r, g, n - 1)))
  }

  lemma {:induction false} EvalRootProduct<T(!new)>(r: Ring<T>, g: T, n: nat, x: T)
    requires Laws(r)
    ensures Eval(r, RootProduct(r, g, n), x) == RootValue(r, g, n, x)
  {
    if n == 0 {
      EvalPush(r, [], r.one, x);
      assert [] + [r.one] == [r.one];
      assert Cite1(x) && Cite2(r.zero, x) && Cite1(r.one) && Cite2(r.zero, r.one);
    } else {
      EvalRootProduct(r, g, n - 1, x);
      EvalTimesLinear(r, RootProduct(r, g, n - 1), Pow(r, g, n - 1), x);
    }
  }

  lemma {:induction false} RootValueVanishes<T(!new)>(r: Ring<T>, g: T, n: nat, i: nat)
    requires Laws(r) && i < n
    ensures RootValue(r, g, n, Pow(r, g, i)) == r.zero
  {
    var x := Pow(r, g, i);
    var e, y := RootValue(r, g, n - 1, x), r.add(x, Pow(r, g, n - 1));
    if i == n - 1 {
      assert Cite1(x) && Cite1(e);
    } else {
      RootValueVanishes(r, g, n - 1, i);
      assert Cite1(y) && Cite2(r.zero, y);
    }
  }

  // ---- division by a monic polynomial ----

  // One step of long division: the remainder after one more coefficient b, divisor [1] + g.
  function DivStep<T>(r: Ring<T>, g: seq<T>, rem: seq<T>, b: T): (s: seq<T>)
    requires |rem| == |g| > 0
    ensures |s| == |g|
  {
    Sum(r, rem[1..] + [r.zero], Scale(r, g, r.add(b, rem[0])))
  }

  function Zeros<T>(r: Ring<T>, n: nat): (s: seq<T>)
    ensures |s| == n
  {
    seq(n, _ => r.zero)
  }

  // Remainder of p * x^|g| by the monic polynomial [1] + g.
  function Remainder<T>(r: Ring<T>, p: seq<T>, g: seq<T>): (s: seq<T>)
    requires |g| > 0
    ensures |s| == |g|
  {
    if p == [] then Zeros(r, |g|)
    else DivStep(r, g, Remainder(r, p[..|p| - 1], g), p[|p| - 1])
  }

  // The quotient of the same division: one leading coefficient per step.
  function Quotient<T>(r: Ring<T>, p: seq<T>, g: seq<T>): (q: seq<T>)
    requires |g| > 0
    ensures |q| == |p|
  {
    if p == [] then []
    else
      var n := |p| - 1;
      Quotient(r, p[..n], g) + [r.add(p[n], Remainder(r, p[..n], g)[0])]
  }

  lemma {:induction false} EvalZeros<T(!new)>(r: Ring<T>, n: nat, x: T)
    requires Laws(r)
    ensures Eval(r, Zeros(r, n), x) == r.zero
  {
    if n > 0 {
      EvalZeros(r, n - 1, x);
      assert Zeros(r, n)[..n - 1] == Zeros(r, n - 1);
      assert Cite1(x) && Cite2(r.zero, x) && Cite1(r.zero);
    }
  }

  // The value of a monic polynomial.
  lemma {:induction false} EvalMonic<T(!new)>(r: Ring<T>, g: seq<T>, x: T)
    requires Laws(r)
    ensures Eval(r, [r.one] + g, x) == r.add(Pow(r, x, |g|), Eval(r, g, x))
  {
    EvalAppend(r, [r.one], g, x);
    EvalPush(r, [], r.one, x);
    assert [] + [r.one] == [r.one];
    assert Cite1(x) && Cite2(r.zero, x) && Cite1(r.one) && Cite2(r.zero, r.one);
    assert Cite1(Pow(r, x, |g|)) && Cite2(r.one, Pow(r, x, |g|));
  }

  // Shifting a remainder left by one place and dropping its leading coefficient.
  lemma {:induction false} EvalShift<T(!new)>(r: Ring<T>, rem: seq<T>, x: T)
    requires Laws(r) && |rem| > 0
    ensures Eval(r, rem[1..] + [r.zero], x)
         == r.add(r.mul(Eval(r, rem, x), x), r.mul(rem[0], Pow(r, x, |rem|)))
  {
    var t, h := rem[1..], rem[0];
    var e, w := Eval(r, t, x), Pow(r, x, |t|);
    EvalPush(r, t, r.zero, x);
    assert Cite1(r.mul(e, x));
    assert rem == [h] + t;
    EvalAppend(r, [h], t, x);
    EvalPush(r, [], h, x);
    assert [] + [h] == [h];
    assert Cite1(x) && Cite2(r.zero, x) && Cite1(h) && Cite2(r.zero, h);
    assert Eval(r, rem, x) == r.add(r.mul(h, w), e);
    Distribute(r, r.mul(h, w), e, x);
    assert Cite3(h, w, x);
    var a, b := r.mul(e, x), r.mul(h, r.mul(w, x));
    assert r.mul(Eval(r, rem, x), x) == r.add(b, a);
    assert Cite2(b, a) && Cite3(a, b, b) && Cite1(b) && Cite1(a);
  }

  // The arithmetic of one division step, with every value named.
  lemma {:induction false} DivArithmetic<T(!new)>(r: Ring<T>, dw: T, ex: T, w: T, eg: T, b: T, h: T)
    requires Laws(r)
    ensures r.add(r.add(dw, r.mul(b, w)), r.add(r.add(ex, r.mul(h, w)), r.mul(eg, r.add(b, h))))
         == r.add(r.add(dw, ex), r.mul(r.add(w, eg), r.add(b, h)))
  {
    var bw, hw, f := r.mul(b, w), r.mul(h, w), r.add(b, h);
    var ef := r.mul(eg, f);
    Distribute(r, b, h, w);
    Distribute(r, w, eg, f);
    assert Cite2(w, f);
    assert r.mul(r.add(w, eg), f) == r.add(r.add(bw, hw), ef);
    assert Cite3(ex, hw, ef);
    Regroup(r, dw, bw, ex, r.add(hw, ef));
    assert Cite3(bw, hw, ef);
  }

  /** The division identity, at every point: p * x^|g| minus the remainder is the quotient
      times the divisor. */
  lemma {:induction false} DivisionIdentity<T(!new)>(r: Ring<T>, p: seq<T>, g: seq<T>, x: T)
    requires Laws(r) && |g| > 0
    ensures Eval(r, p + Remainder(r, p, g), x)
         == r.mul(Eval(r, Quotient(r, p, g), x), Eval(r, [r.one] + g, x))
  {
    var d := Eval(r, [r.one] + g, x);
    if p == [] {
      assert p + Remainder(r, p, g) == Zeros(r, |g|);
      EvalZeros(r, |g|, x);
      assert Cite1(d) && Cite2(r.zero, d);
    } else {
      var n := |p| - 1;
      var p', b := p[..n], p[n];
      var rem, q := Remainder(r, p', g), Quotient(r, p', g);
      var f := r.add(b, rem[0]);
      DivisionIdentity(r, p', g, x);
      DivisionStepValue(r, p', b, rem, g, x);
      assert p == p' + [b];
      EvalPush(r, q, f, x);
      Exchange(r, Eval(r, q, x), d, x);
      Distribute(r, r.mul(Eval(r, q, x), x), f, d);
      assert Cite2(d, f);
    }
  }

  lemma {:induction false} DivisionStepValue<T(!new)>(r: Ring<T>, p: seq<T>, b: T, rem: seq<T>, g: seq<T>, x: T)
    requires Laws(r) && |rem| == |g| > 0
    ensures Eval(r, (p + [b]) + DivStep(r, g, rem, b), x)
         == r.add(r.mul(Eval(r, p + rem, x), x),
                  r.mul(Eval(r, [r.one] + g, x), r.add(b, rem[0])))
  {
    var h, f, w := rem[0], r.add(b, rem[0]), Pow(r, x, |g|);
    var e, ex, eg := Eval(r, p, x), r.mul(Eval(r, rem, x), x), Eval(r, g, x);
    EvalAppend(r, p + [b], DivStep(r, g, rem, b), x);
    EvalPush(r, p, b, x);
    EvalSum(r, rem[1..] + [r.zero], Scale(r, g, f), x);
    EvalShift(r, rem, x);
    EvalScale(r, g, f, x);
    Distribute(r, r.mul(e, x), b, w);
    EvalMonic(r, g, x);
    DivArithmetic(r, r.mul(r.mul(e, x), w), ex, w, eg, b, h);
    EvalAppend(r, p, rem, x);
    Distribute(r, r.mul(e, w), Eval(r, rem, x), x);
    Exchange(r, e, x, w);
  }

  // ---- counting roots ----

  // Synthetic division of p by (x - root): the partial Horner values.
  function Horner<T>(r: Ring<T>, p: seq<T>, root: T): (q: seq<T>)
    ensures |q| == |p|
  {
    if p == [] then []
    else
      var q := Horner(r, p[..|p| - 1], root);
      q + [r.add(if q == [] then r.zero else r.mul(q[|q| - 1], root), p[|p| - 1])]
  }

  lemma {:induction false} HornerLast<T(!new)>(r: Ring<T>, p: seq<T>, root: T)
    requires Laws(r) && |p| > 0
    ensures Horner(r, p, root)[|p| - 1] == Eval(r, p, root)
  {
    if |p| == 1 {
      assert Cite1(root) && Cite2(r.zero, root);
    } else {
      HornerLast(r, p[..|p| - 1], root);
    }
  }

  /** p(x) + p(root) is (x + root) times the synthetic quotient. */
  lemma {:induction false} SyntheticDivision<T(!new)>(r: Ring<T>, p: seq<T>, root: T, x: T)
    requires Laws(r) && |p| > 0
    ensures r.add(Eval(r, p, x), Eval(r, p, root))
         == r.mul(Eval(r, Horner(r, p, root)[..|p| - 1], x), r.add(x, root))
  {
    var n := |p| - 1;
    var p', c, h := p[..n], p[n], Horner(r, p, root);
    var px, pr := Eval(r, p', x), Eval(r, p', root);
    if n == 0 {
      assert h[..n] == [] && p' == [];
      assert Cite1(x) && Cite2(r.zero, x) && Cite1(root) && Cite2(r.zero, root);
      assert Cite1(r.add(r.zero, c)) && Cite1(r.add(x, root)) && Cite2(r.zero, r.add(x, root));
    } else {
      var q := Horner(r, p', root);
      assert h[..n] == q == q[..n - 1] + [q[n - 1]];
      SyntheticDivision(r, p', root, x);
      HornerLast(r, p', root);
      EvalPush(r, q[..n - 1], pr, x);
      var e := Eval(r, q[..n - 1], x);
      SyntheticArithmetic(r, px, pr, e, x, root, c);
    }
  }

  lemma {:induction false} SyntheticArithmetic<T(!new)>(r: Ring<T>, px: T, pr: T, e: T, x: T, root: T, c: T)
    requires Laws(r)
    requires r.add(px, pr) == r.mul(e, r.add(x, root))
    ensures r.add(r.add(r.mul(px, x), c), r.add(r.mul(pr, root), c))
         == r.mul(r.add(r.mul(e, x), pr), r.add(x, root))
  {
    var s := r.add(x, root);
    var a, b, k, l := r.mul(px, x), r.mul(pr, root), r.mul(pr, x), r.mul(e, x);
    assert r.add(r.add(a, c), r.add(b, c)) == r.add(a, b) by {
      assert Cite2(b, c);
      Telescope(r, a, c, b);
    }
    Distribute(r, l, pr, s);
    Exchange(r, e, x, s);
    Distribute(r, px, pr, x);
    assert r.mul(l, s) == r.add(a, k);
    Distribute(r, x, root, pr);
    assert r.mul(pr, s) == r.add(k, b);
    Telescope(r, a, k, b);
  }

  /** A polynomial of degree below n with n distinct roots is zero. */
  lemma {:induction false} RootCount<T(!new)>(r: Ring<T>, p: seq<T>, roots: seq<T>)
    requires Laws(r) && NoZeroDivisors(r)
    requires |p| == |roots|
    requires forall i, j :: 0 <= i < j < |roots| ==> roots[i] != roots[j]
    requires forall i :: 0 <= i < |roots| ==> Eval(r, p, roots[i]) == r.zero
    ensures p == Zeros(r, |p|)
    decreases |p|
  {
    if |p| > 0 {
      var n := |p| - 1;
      var root, h := roots[n], Horner(r, p, roots[n]);
      var q := h[..n];
      forall i | 0 <= i < n ensures Eval(r, q, roots[i]) == r.zero {
        SyntheticDivision(r, p, root, roots[i]);
        assert Cite1(r.zero);
        assert Cite2(Eval(r, q, roots[i]), r.add(roots[i], root));
        if r.add(roots[i], root) == r.zero {
          Equal(r, roots[i], root);
        }
      }
      RootCount(r, q, roots[..n]);
      HornerLast(r, p, root);
      HornerZero(r, p, root);
    }
  }

  // If all partial Horner values vanish, so do the coefficients.
  lemma {:induction false} HornerZero<T(!new)>(r: Ring<T>, p: seq<T>, root: T)
    requires Laws(r)
    requires forall i :: 0 <= i < |p| ==> Horner(r, p, root)[i] == r.zero
    ensures p == Zeros(r, |p|)
  {
    if |p| > 0 {
      var n := |p| - 1;
      var q, h := Horner(r, p[..n], root), Horner(r, p, root);
      assert h[..n] == q;
      forall i | 0 <= i < n ensures q[i] == r.zero {
        assert q[i] == h[i];
      }
      HornerZero(r, p[..n], root);
      assert Cite1(root) && Cite2(r.zero, root) && Cite1(p[n]) && Cite2(r.zero, p[n]);
      assert p == p[..n] + [p[n]];
    }
  }
}
