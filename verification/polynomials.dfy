/**
  Polynomials over GF(2^8), lowest coefficient first: a polynomial with more roots
  than its degree is zero, and interpolation through any distinct points.
 */
module Polynomials {
  import opened Bytes
  import opened Gf256

  type Poly = seq<byte>

  function Eval(p: Poly, x: byte): byte {
    if p == [] then 0 else Xor(p[0], Mul(x, Eval(p[1..], x)))
  }

  /** No two entries are equal. */
  ghost predicate Distinct(xs: seq<byte>) {
    forall i, j :: 0 <= i < j < |xs| ==> xs[i] != xs[j]
  }

  ghost predicate Zero(p: Poly) {
    forall i :: 0 <= i < |p| ==> p[i] == 0
  }

  /** p takes the value ys[i] at xs[i], for every i. */
  ghost predicate Through(p: Poly, xs: seq<byte>, ys: seq<byte>)
    requires |xs| == |ys|
  {
    forall i :: 0 <= i < |xs| ==> Eval(p, xs[i]) == ys[i]
  }

  // ------------------------------------------------------ ring operations ----

  function Add(p: Poly, q: Poly): (r: Poly)
    requires |p| == |q|
    ensures |r| == |p|
  {
    seq(|p|, i requires 0 <= i < |p| => Xor(p[i], q[i]))
  }

  function Scale(c: byte, p: Poly): (r: Poly)
    ensures |r| == |p|
  {
    seq(|p|, i requires 0 <= i < |p| => Mul(c, p[i]))
  }

  /** p times (X + c). */
  function TimesLinear(p: Poly, c: byte): (r: Poly)
    ensures |r| == |p| + 1
  {
    Add([0] + p, Scale(c, p) + [0])
  }

  lemma {:induction false} EvalAdd(p: Poly, q: Poly, x: byte)
    requires |p| == |q|
    ensures Eval(Add(p, q), x) == Xor(Eval(p, x), Eval(q, x))
  {
    hide Xor, Mul;
    XorUnit(0);
    if p != [] {
      EvalAdd(p[1..], q[1..], x);
      assert Add(p, q)[1..] == Add(p[1..], q[1..]);
      MulXorRight(x, Eval(p[1..], x), Eval(q[1..], x));
      XorSwap(p[0], q[0], Mul(x, Eval(p[1..], x)), Mul(x, Eval(q[1..], x)));
    }
  }

  lemma {:induction false} EvalScale(c: byte, p: Poly, x: byte)
    ensures Eval(Scale(c, p), x) == Mul(c, Eval(p, x))
  {
    hide Xor, Mul;
    MulUnits(c);
    if p != [] {
      EvalScale(c, p[1..], x);
      assert Scale(c, p)[1..] == Scale(c, p[1..]);
      var v := Eval(p[1..], x);
      MulXorRight(c, p[0], Mul(x, v));
      MulAssoc(c, x, v);
      MulComm(c, x);
      MulAssoc(x, c, v);
    }
  }

  /** Zero coefficients at the top do not matter. */
  lemma {:induction false} EvalPad(p: Poly, z: Poly, x: byte)
    requires Zero(z)
    ensures Eval(p + z, x) == Eval(p, x)
  {
    hide Xor, Mul;
    if p != [] {
      EvalPad(p[1..], z, x);
      assert (p + z)[1..] == p[1..] + z;
    } else {
      assert p + z == z;
      if z != [] {
        EvalPad([], z[1..], x);
        assert [] + z[1..] == z[1..];
        MulUnits(x);
        XorUnit(0);
      }
    }
  }

  lemma EvalTimesLinear(p: Poly, c: byte, x: byte)
    ensures Eval(TimesLinear(p, c), x) == Mul(Eval(p, x), Xor(x, c))
  {
    hide Xor, Mul;
    var v := Eval(p, x);
    EvalAdd([0] + p, Scale(c, p) + [0], x);
    assert ([0] + p)[1..] == p;
    XorUnit(Mul(x, v));
    EvalPad(Scale(c, p), [0], x);
    EvalScale(c, p, x);
    MulXorRight(v, x, c);
    MulComm(v, x);
    MulComm(v, c);
  }

  // ----------------------------------------------------- roots and degree ----

  /** The quotient of p by (X + a); the remainder is p's value at a. */
  function Quotient(p: Poly, a: byte): (q: Poly)
    ensures |q| == if p == [] then 0 else |p| - 1
  {
    if |p| <= 1 then [] else [Eval(p[1..], a)] + Quotient(p[1..], a)
  }

  lemma {:induction false} DivisionIdentity(p: Poly, a: byte, x: byte)
    ensures Eval(p, x) == Xor(Mul(Eval(Quotient(p, a), x), Xor(x, a)), Eval(p, a))
  {
    hide Xor, Mul;
    MulUnits(x);
    MulUnits(a);
    MulUnits(Xor(x, a));
    XorUnit(0);
    if |p| == 1 {
      XorUnit(p[0]);
    } else if |p| > 1 {
      var t := p[1..];
      var q := Eval(Quotient(t, a), x);
      var r := Eval(t, a);
      DivisionIdentity(t, a, x);
      assert Quotient(p, a)[1..] == Quotient(t, a);
      DivisionStep(p[0], q, r, x, a);
    }
  }

  lemma DivisionStep(c: byte, q: byte, r: byte, x: byte, a: byte)
    ensures Xor(c, Mul(x, Xor(Mul(q, Xor(x, a)), r)))
         == Xor(Mul(Xor(r, Mul(x, q)), Xor(x, a)), Xor(c, Mul(a, r)))
  {
    hide Xor, Mul;
    var d := Xor(x, a);
    var u := Mul(Mul(x, q), d);
    MulXorRight(x, Mul(q, d), r);
    MulAssoc(x, q, d);
    MulXorLeft(r, Mul(x, q), d);
    MulXorRight(r, x, a);
    MulComm(r, x);
    MulComm(r, a);
    CancelPair(c, u, Mul(x, r), Mul(a, r));
  }

  lemma CancelPair(c: byte, u: byte, v: byte, w: byte)
    ensures Xor(c, Xor(u, v)) == Xor(Xor(Xor(v, w), u), Xor(c, w))
  {
    hide Xor;
    XorSwap(Xor(v, w), u, c, w);
    XorAssoc(v, w, c);
    XorComm(w, c);
    XorAssoc(v, c, w);
    XorSwap(Xor(v, c), w, u, w);
    XorUnit(w);
    XorUnit(Xor(Xor(v, c), u));
    XorComm(v, c);
    XorAssoc(c, v, u);
    XorComm(v, u);
  }

  lemma {:induction false} ZeroFromQuotient(p: Poly, a: byte)
    requires Eval(p, a) == 0 && Zero(Quotient(p, a))
    ensures Zero(p)
  {
    hide Xor, Mul;
    if p != [] {
      MulUnits(a);
      XorUnit(p[0]);
      if |p| > 1 {
        assert Quotient(p, a)[0] == 0;
        assert forall i :: 0 <= i < |Quotient(p[1..], a)| ==> Quotient(p[1..], a)[i] == Quotient(p, a)[i + 1];
        ZeroFromQuotient(p[1..], a);
        assert forall i :: 1 <= i < |p| ==> p[i] == p[1..][i - 1];
      }
    }
  }

  /** A polynomial of degree below n with n distinct roots is the zero polynomial. */
  lemma {:induction false} TooManyRoots(p: Poly, xs: seq<byte>)
    requires |p| <= |xs| && Distinct(xs)
    requires forall i :: 0 <= i < |xs| ==> Eval(p, xs[i]) == 0
    ensures Zero(p)
    decreases |xs|
  {
    hide Xor, Mul;
    if p != [] {
      var a := xs[0];
      var q := Quotient(p, a);
      forall i | 0 <= i < |xs[1..]|
        ensures Eval(q, xs[1..][i]) == 0
      {
        var x := xs[i + 1];
        DivisionIdentity(p, a, x);
        XorUnit(Mul(Eval(q, x), Xor(x, a)));
        XorZero(x, a);
        MulNonZero(Eval(q, x), Xor(x, a));
      }
      TooManyRoots(q, xs[1..]);
      ZeroFromQuotient(p, a);
    }
  }

  /** Two polynomials of degree below n that agree at n distinct points are equal. */
  lemma AgreeingPolynomials(p: Poly, q: Poly, xs: seq<byte>)
    requires |p| == |q| <= |xs| && Distinct(xs)
    requires forall i :: 0 <= i < |xs| ==> Eval(p, xs[i]) == Eval(q, xs[i])
    ensures p == q
  {
    hide Xor, Mul, Eval;
    var d := Add(p, q);
    forall i | 0 <= i < |xs|
      ensures Eval(d, xs[i]) == 0
    {
      EvalAdd(p, q, xs[i]);
      XorUnit(Eval(q, xs[i]));
    }
    TooManyRoots(d, xs);
    forall i | 0 <= i < |p|
      ensures p[i] == q[i]
    {
      assert d[i] == 0;
      XorZero(p[i], q[i]);
    }
  }

  // -------------------------------------------------------- interpolation ----

  /** The product of (x + z) over the entries z of zs. */
  function Product(zs: seq<byte>, x: byte): byte {
    if zs == [] then 1 else Mul(Product(zs[..|zs| - 1], x), Xor(x, zs[|zs| - 1]))
  }

  /** The polynomial whose roots are the entries of zs. */
  function Vanishing(zs: seq<byte>): (p: Poly)
    ensures |p| == |zs| + 1
  {
    if zs == [] then [1] else TimesLinear(Vanishing(zs[..|zs| - 1]), zs[|zs| - 1])
  }

  lemma {:induction false} EvalVanishing(zs: seq<byte>, x: byte)
    ensures Eval(Vanishing(zs), x) == Product(zs, x)
  {
    hide Xor, Mul;
    if zs == [] {
      MulUnits(x);
      XorUnit(1);
    } else {
      EvalVanishing(zs[..|zs| - 1], x);
      EvalTimesLinear(Vanishing(zs[..|zs| - 1]), zs[|zs| - 1], x);
    }
  }

  lemma {:induction false} ProductZero(zs: seq<byte>, x: byte)
    ensures Product(zs, x) == 0 <==> x in zs
  {
    hide Xor, Mul;
    if zs != [] {
      var z := zs[|zs| - 1];
      ProductZero(zs[..|zs| - 1], x);
      MulNonZero(Product(zs[..|zs| - 1], x), Xor(x, z));
      XorZero(x, z);
      assert zs == zs[..|zs| - 1] + [z];
    }
  }

  function Without<T>(s: seq<T>, i: nat): (r: seq<T>)
    requires i < |s|
    ensures |r| == |s| - 1
  {
    s[..i] + s[i + 1..]
  }

  lemma WithoutMembers(xs: seq<byte>, i: nat, k: nat)
    requires i < |xs| && k < |xs| && Distinct(xs)
    ensures xs[k] in Without(xs, i) <==> k != i
  {
    var w := Without(xs, i);
    if k < i {
      assert w[k] == xs[k];
    } else if k > i {
      assert w[k - 1] == xs[k];
    }
  }

  lemma WeightDefined(xs: seq<byte>, i: nat)
    requires i < |xs| && Distinct(xs)
    ensures Product(Without(xs, i), xs[i]) != 0
  {
    hide Product;
    WithoutMembers(xs, i, i);
    ProductZero(Without(xs, i), xs[i]);
  }

  /** The weight of the i-th value in the interpolation at x. */
  ghost function Weight(xs: seq<byte>, i: nat, x: byte): byte
    requires i < |xs| && Distinct(xs)
  {
    WeightDefined(xs, i);
    Div(Product(Without(xs, i), x), Product(Without(xs, i), xs[i]))
  }

  /** The weighted sum of the first n values: Lagrange's formula when n is all of them. */
  ghost function Lagrange(xs: seq<byte>, ys: seq<byte>, x: byte, n: nat): byte
    requires n <= |xs| == |ys| && Distinct(xs)
  {
    if n == 0 then 0 else Xor(Lagrange(xs, ys, x, n - 1), Mul(ys[n - 1], Weight(xs, n - 1, x)))
  }

  /** The i-th basis polynomial: 1 at xs[i], 0 at the other points. */
  ghost function Basis(xs: seq<byte>, i: nat): (p: Poly)
    requires i < |xs| && Distinct(xs)
    ensures |p| == |xs|
  {
    WeightDefined(xs, i);
    Scale(Div(1, Product(Without(xs, i), xs[i])), Vanishing(Without(xs, i)))
  }

  lemma EvalBasis(xs: seq<byte>, i: nat, x: byte)
    requires i < |xs| && Distinct(xs)
    ensures Eval(Basis(xs, i), x) == Weight(xs, i, x)
  {
    hide Xor, Mul, Eval, Product, Vanishing, Div, Without;
    var w := Without(xs, i);
    var d := Product(w, xs[i]);
    var n := Product(w, x);
    WeightDefined(xs, i);
    EvalScale(Div(1, d), Vanishing(w), x);
    EvalVanishing(w, x);
    MulComm(Div(1, d), n);
    MulAssoc(n, Div(1, d), d);
    MulUnits(n);
    DivUnique(n, d, Mul(n, Div(1, d)));
  }

  /** The sum of the first n basis polynomials, each scaled by its value. */
  ghost function Interpolant(xs: seq<byte>, ys: seq<byte>, n: nat): (p: Poly)
    requires n <= |xs| == |ys| && Distinct(xs)
    ensures |p| == |xs|
  {
    if n == 0 then seq(|xs|, _ => 0)
    else Add(Interpolant(xs, ys, n - 1), Scale(ys[n - 1], Basis(xs, n - 1)))
  }

  lemma {:induction false} EvalInterpolant(xs: seq<byte>, ys: seq<byte>, x: byte, n: nat)
    requires n <= |xs| == |ys| && Distinct(xs)
    ensures Eval(Interpolant(xs, ys, n), x) == Lagrange(xs, ys, x, n)
  {
    hide Xor, Mul, Basis, Weight;
    if n == 0 {
      var z := Interpolant(xs, ys, 0);
      EvalPad([], z, x);
      assert [] + z == z;
    } else {
      EvalInterpolant(xs, ys, x, n - 1);
      EvalAdd(Interpolant(xs, ys, n - 1), Scale(ys[n - 1], Basis(xs, n - 1)), x);
      EvalScale(ys[n - 1], Basis(xs, n - 1), x);
      EvalBasis(xs, n - 1, x);
    }
  }

  lemma WeightAtPoint(xs: seq<byte>, i: nat, k: nat)
    requires i < |xs| && k < |xs| && Distinct(xs)
    ensures Weight(xs, i, xs[k]) == if i == k then 1 else 0
  {
    hide Mul, Product, Div, Without;
    var w := Without(xs, i);
    var d := Product(w, xs[i]);
    WeightDefined(xs, i);
    WithoutMembers(xs, i, k);
    ProductZero(w, xs[k]);
    MulUnits(d);
    if i == k {
      DivUnique(d, d, 1);
    } else {
      DivUnique(0, d, 0);
    }
  }

  lemma {:induction false} LagrangeAtPoint(xs: seq<byte>, ys: seq<byte>, k: nat, n: nat)
    requires k < |xs| == |ys| && n <= |xs| && Distinct(xs)
    ensures Lagrange(xs, ys, xs[k], n) == if k < n then ys[k] else 0
  {
    hide Xor, Mul, Weight;
    if n > 0 {
      LagrangeAtPoint(xs, ys, k, n - 1);
      WeightAtPoint(xs, n - 1, k);
      MulUnits(ys[n - 1]);
      XorUnit(ys[n - 1]);
      XorUnit(if k < n - 1 then ys[k] else 0);
    }
  }

  /** Through any n distinct points passes exactly one polynomial of degree below n. */
  lemma InterpolationExists(xs: seq<byte>, ys: seq<byte>) returns (p: Poly)
    requires |xs| == |ys| && Distinct(xs)
    ensures |p| == |xs| && Through(p, xs, ys)
    ensures forall q: Poly :: |q| == |xs| && Through(q, xs, ys) ==> q == p
    ensures forall x :: Eval(p, x) == Lagrange(xs, ys, x, |xs|)
  {
    hide Eval, Lagrange, Interpolant;
    p := Interpolant(xs, ys, |xs|);
    forall i | 0 <= i < |xs|
      ensures Eval(p, xs[i]) == ys[i]
    {
      EvalInterpolant(xs, ys, xs[i], |xs|);
      LagrangeAtPoint(xs, ys, i, |xs|);
    }
    forall q: Poly | |q| == |xs| && Through(q, xs, ys)
      ensures q == p
    {
      AgreeingPolynomials(q, p, xs);
    }
    forall x
      ensures Eval(p, x) == Lagrange(xs, ys, x, |xs|)
    {
      EvalInterpolant(xs, ys, x, |xs|);
    }
  }

  /** Lagrange's formula evaluates every polynomial of degree below n from n of its values. */
  lemma LagrangeCorrect(p: Poly, xs: seq<byte>, ys: seq<byte>, x: byte)
    requires |p| <= |xs| == |ys| && Distinct(xs) && Through(p, xs, ys)
    ensures Lagrange(xs, ys, x, |xs|) == Eval(p, x)
  {
    hide Eval, Lagrange;
    var z: Poly := seq(|xs| - |p|, _ => 0);
    var q := InterpolationExists(xs, ys);
    forall i | 0 <= i < |xs|
      ensures Eval(p + z, xs[i]) == ys[i]
    {
      EvalPad(p, z, xs[i]);
    }
    EvalPad(p, z, x);
  }

  /** The value at zero is the constant coefficient. */
  lemma EvalAtZero(p: Poly)
    requires p != []
    ensures Eval(p, 0) == p[0]
  {
    hide Xor, Mul;
    MulUnits(Eval(p[1..], 0));
    XorUnit(p[0]);
  }
}
