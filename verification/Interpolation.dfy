/** Polynomials over a field, and interpolation through points. */
module Interpolations {
  import opened Sets
  import opened Fields
  import opened Checksums

  /** The value at x of the polynomial with the given coefficients, highest first. */
  function Eval<E>(f: Field<E>, p: seq<E>, x: E): E {
    if |p| == 0 then f.zero else f.add(f.mul(Eval(f, p[..|p| - 1], x), x), p[|p| - 1])
  }

  lemma {:induction false} EvalAppend<E>(f: Field<E>, p: seq<E>, c: E, x: E)
    ensures Eval(f, p + [c], x) == f.add(f.mul(Eval(f, p, x), x), c)
  {
    assert (p + [c])[..|p|] == p;
  }

  // ---- a polynomial has no more roots than its degree ----

  /** The quotient of p by x - r. */
  function Quotient<E>(f: Field<E>, p: seq<E>, r: E): (q: seq<E>)
    requires |p| > 0
    ensures |q| == |p| - 1
  {
    if |p| == 1 then [] else Quotient(f, p[..|p| - 1], r) + [Eval(f, p[..|p| - 1], r)]
  }

  lemma {:induction false} Divides<E(!new)>(f: Field<E>, p: seq<E>, r: E, x: E)
    requires IsField(f) && |p| > 0
    ensures Eval(f, p, x) == f.add(f.mul(Eval(f, Quotient(f, p, r), x), f.add(x, r)), Eval(f, p, r))
  {
    var p', c := p[..|p| - 1], p[|p| - 1];
    if |p| == 1 {
      assert Law1(f, x) && Law1(f, r) && Law1(f, f.add(x, r)) && Law1(f, c);
    } else {
      Divides(f, p', r, x);
      var q', e := Eval(f, Quotient(f, p', r), x), Eval(f, p', r);
      EvalAppend(f, Quotient(f, p', r), e, x);
      DivideStep(f, q', e, Eval(f, p', x), x, r, c);
    }
  }

  lemma DivideStep<E(!new)>(f: Field<E>, q: E, e: E, v: E, x: E, r: E, c: E)
    requires IsField(f) && v == f.add(f.mul(q, f.add(x, r)), e)
    ensures f.add(f.mul(v, x), c) == f.add(f.mul(f.add(f.mul(q, x), e), f.add(x, r)), f.add(f.mul(e, r), c))
  {
    var s := f.add(x, r);
    var w := f.mul(q, s);
    // v * x = w * x + e * x
    TimesSum(f, w, e, x);
    // (q * x + e) * s = (q * s) * x + e * s
    TimesSum(f, f.mul(q, x), e, s);
    assert Law3(f, q, x, s) && Law2(f, x, s) && Law3(f, q, s, x);
    assert Law3(f, e, x, r);
    // e * s + (e * r + c) = e * x + c
    var ex, er := f.mul(e, x), f.mul(e, r);
    assert Law3(f, ex, er, f.add(er, c));
    Cancel(f, er, c);
    var wx := f.mul(w, x);
    assert Law3(f, wx, f.add(ex, er), f.add(er, c)) && Law3(f, wx, ex, c);
  }

  lemma TimesSum<E(!new)>(f: Field<E>, a: E, b: E, x: E)
    requires IsField(f)
    ensures f.mul(f.add(a, b), x) == f.add(f.mul(a, x), f.mul(b, x))
  {
    assert Law2(f, f.add(a, b), x) && Law3(f, x, a, b) && Law2(f, x, a) && Law2(f, x, b);
  }

  /** With as many distinct roots as coefficients, a polynomial is zero everywhere. */
  lemma {:induction false} TooManyRoots<E(!new)>(f: Field<E>, p: seq<E>, xs: seq<E>, x: E)
    requires IsField(f) && Distinct(xs) && |p| <= |xs| && forall i :: 0 <= i < |xs| ==> Eval(f, p, xs[i]) == f.zero
    ensures Eval(f, p, x) == f.zero
    decreases |p|
  {
    if |p| > 0 {
      var r, q, rest := xs[0], Quotient(f, p, xs[0]), xs[1..];
      assert Eval(f, p, r) == f.zero;
      forall i | 0 <= i < |rest| ensures Eval(f, q, rest[i]) == f.zero {
        var y := rest[i];
        assert y == xs[i + 1] && y != r && Eval(f, p, y) == f.zero;
        RootOfQuotient(f, p, r, y);
      }
      TooManyRoots(f, q, rest, x);
      Divides(f, p, r, x);
      assert Law1(f, f.add(x, r)) && Law1(f, f.zero);
    }
  }

  lemma {:induction false} RootOfQuotient<E(!new)>(f: Field<E>, p: seq<E>, r: E, y: E)
    requires IsField(f) && |p| > 0 && Eval(f, p, r) == f.zero && Eval(f, p, y) == f.zero && y != r
    ensures Eval(f, Quotient(f, p, r), y) == f.zero
  {
    Divides(f, p, r, y);
    var q, s := Eval(f, Quotient(f, p, r), y), f.add(y, r);
    assert Law1(f, f.mul(q, s)) && Law2(f, q, s);
    if s == f.zero {
      SumZero(f, y, r);
    }
    ProductZero(f, s, q);
  }

  // ---- operations on polynomials ----

  function Scale<E>(f: Field<E>, c: E, p: seq<E>): (r: seq<E>)
    ensures |r| == |p| && forall i :: 0 <= i < |p| ==> r[i] == f.mul(c, p[i])
  {
    seq(|p|, i requires 0 <= i < |p| => f.mul(c, p[i]))
  }

  lemma {:induction false} EvalSum<E(!new)>(f: Field<E>, p: seq<E>, q: seq<E>, x: E)
    requires IsField(f) && |p| == |q|
    ensures Eval(f, Sum(f, p, q), x) == f.add(Eval(f, p, x), Eval(f, q, x))
  {
    if |p| == 0 {
      assert Law1(f, f.zero);
    } else {
      var n := |p| - 1;
      assert Sum(f, p, q)[..n] == Sum(f, p[..n], q[..n]);
      EvalSum(f, p[..n], q[..n], x);
      var u, v := Eval(f, p[..n], x), Eval(f, q[..n], x);
      TimesSum(f, u, v, x);
      Swap(f, f.mul(u, x), f.mul(v, x), p[n], q[n]);
    }
  }

  lemma {:induction false} EvalScale<E(!new)>(f: Field<E>, c: E, p: seq<E>, x: E)
    requires IsField(f)
    ensures Eval(f, Scale(f, c, p), x) == f.mul(c, Eval(f, p, x))
  {
    if |p| == 0 {
      assert Law1(f, c);
    } else {
      var n := |p| - 1;
      assert Scale(f, c, p)[..n] == Scale(f, c, p[..n]);
      EvalScale(f, c, p[..n], x);
      var u := Eval(f, p[..n], x);
      assert Law3(f, c, u, x) && Law3(f, c, f.mul(u, x), p[n]);
    }
  }

  lemma {:induction false} EvalPadded<E(!new)>(f: Field<E>, p: seq<E>, k: nat, x: E)
    requires IsField(f)
    ensures Eval(f, Zeros(f, k) + p, x) == Eval(f, p, x)
    decreases k + |p|
  {
    if |p| > 0 {
      var n := |p| - 1;
      assert (Zeros(f, k) + p)[..k + n] == Zeros(f, k) + p[..n];
      EvalPadded(f, p[..n], k, x);
    } else if k > 0 {
      assert (Zeros(f, k) + p)[..k - 1] == Zeros(f, k - 1) + p;
      EvalPadded(f, p, k - 1, x);
      assert Law1(f, x) && Law1(f, f.zero);
    }
  }

  /** p times (x + r). */
  function TimesLinear<E>(f: Field<E>, p: seq<E>, r: E): (q: seq<E>)
    ensures |q| == |p| + 1
  {
    Sum(f, p + [f.zero], [f.zero] + Scale(f, r, p))
  }

  lemma {:induction false} EvalTimesLinear<E(!new)>(f: Field<E>, p: seq<E>, r: E, x: E)
    requires IsField(f)
    ensures Eval(f, TimesLinear(f, p, r), x) == f.mul(Eval(f, p, x), f.add(x, r))
  {
    var v := Eval(f, p, x);
    EvalSum(f, p + [f.zero], [f.zero] + Scale(f, r, p), x);
    EvalAppend(f, p, f.zero, x);
    assert Zeros(f, 1) + Scale(f, r, p) == [f.zero] + Scale(f, r, p);
    EvalPadded(f, Scale(f, r, p), 1, x);
    EvalScale(f, r, p, x);
    assert Law1(f, f.mul(v, x)) && Law3(f, v, x, r) && Law2(f, r, v);
  }

  // ---- Lagrange interpolation ----

  /** The product of xs[m] + x over the first k points but one. */
  function Product<E>(f: Field<E>, xs: seq<E>, skip: nat, x: E, k: nat): E
    requires k <= |xs|
  {
    if k == 0 then f.one
    else if k - 1 == skip then Product(f, xs, skip, x, k - 1)
    else f.mul(Product(f, xs, skip, x, k - 1), f.add(xs[k - 1], x))
  }

  /** The same product as a polynomial in x. */
  function Basis<E>(f: Field<E>, xs: seq<E>, skip: nat, k: nat): (p: seq<E>)
    requires k <= |xs|
    ensures |p| == if skip < k then k else k + 1
  {
    if k == 0 then [f.one]
    else if k - 1 == skip then Basis(f, xs, skip, k - 1)
    else TimesLinear(f, Basis(f, xs, skip, k - 1), xs[k - 1])
  }

  lemma {:induction false} EvalBasis<E(!new)>(f: Field<E>, xs: seq<E>, skip: nat, x: E, k: nat)
    requires IsField(f) && k <= |xs|
    ensures Eval(f, Basis(f, xs, skip, k), x) == Product(f, xs, skip, x, k)
  {
    if k == 0 {
      assert [f.one][..0] == [];
      assert Law1(f, x) && Law1(f, f.one);
    } else {
      EvalBasis(f, xs, skip, x, k - 1);
      if k - 1 != skip {
        EvalTimesLinear(f, Basis(f, xs, skip, k - 1), xs[k - 1], x);
        assert Law2(f, x, xs[k - 1]);
      }
    }
  }

  lemma {:induction false} ProductAtPoint<E(!new)>(f: Field<E>, xs: seq<E>, skip: nat, s: nat, k: nat)
    requires IsField(f) && s < k <= |xs| && s != skip
    ensures Product(f, xs, skip, xs[s], k) == f.zero
  {
    if k - 1 == s {
      assert Law1(f, xs[s]) && Law1(f, Product(f, xs, skip, xs[s], k - 1));
    } else {
      ProductAtPoint(f, xs, skip, s, k - 1);
      assert Law1(f, f.add(xs[k - 1], xs[s]));
    }
  }

  lemma {:induction false} ProductNonzero<E(!new)>(f: Field<E>, xs: seq<E>, skip: nat, k: nat)
    requires IsField(f) && k <= |xs| && skip < |xs| && Distinct(xs)
    ensures Product(f, xs, skip, xs[skip], k) != f.zero
  {
    if k > 0 {
      ProductNonzero(f, xs, skip, k - 1);
      if k - 1 != skip {
        var a, b := Product(f, xs, skip, xs[skip], k - 1), f.add(xs[k - 1], xs[skip]);
        if b == f.zero {
          SumZero(f, xs[k - 1], xs[skip]);
        } else if f.mul(a, b) == f.zero {
          ProductZero(f, a, b);
        }
      }
    }
  }

  /** The weight of point i when interpolating at o. */
  function Weight<E>(f: Field<E>, xs: seq<E>, i: nat, o: E): E
    requires i < |xs|
  {
    f.mul(Product(f, xs, i, o, |xs|), f.inv(Product(f, xs, i, xs[i], |xs|)))
  }

  /** The weighted sum of the first k values. */
  function Combined<E>(f: Field<E>, xs: seq<E>, ys: seq<E>, o: E, k: nat): E
    requires k <= |xs| == |ys|
  {
    if k == 0 then f.zero else f.add(Combined(f, xs, ys, o, k - 1), f.mul(Weight(f, xs, k - 1, o), ys[k - 1]))
  }

  lemma {:induction false} WeightAtPoint<E(!new)>(f: Field<E>, xs: seq<E>, i: nat, s: nat)
    requires IsField(f) && Distinct(xs) && i < |xs| && s < |xs|
    ensures Weight(f, xs, i, xs[s]) == if i == s then f.one else f.zero
  {
    var d := Product(f, xs, i, xs[i], |xs|);
    ProductNonzero(f, xs, i, |xs|);
    assert Law1(f, d) && Law1(f, f.inv(d));
    if i != s {
      ProductAtPoint(f, xs, i, s, |xs|);
    }
  }

  /** At one of the points the interpolation gives the value there. */
  lemma {:induction false} CombinedAtPoint<E(!new)>(f: Field<E>, xs: seq<E>, ys: seq<E>, s: nat, k: nat)
    requires IsField(f) && Distinct(xs) && s < |xs| && k <= |xs| == |ys|
    ensures Combined(f, xs, ys, xs[s], k) == if s < k then ys[s] else f.zero
  {
    if k > 0 {
      CombinedAtPoint(f, xs, ys, s, k - 1);
      WeightAtPoint(f, xs, k - 1, s);
      assert Law1(f, ys[k - 1]) && Law1(f, ys[s]) && Law1(f, f.zero);
    }
  }

  /** The weighted sum as a polynomial. */
  function Interpolant<E>(f: Field<E>, xs: seq<E>, ys: seq<E>, k: nat): (p: seq<E>)
    requires k <= |xs| == |ys|
    ensures |p| == |xs|
  {
    if k == 0 then Zeros(f, |xs|)
    else
      var c := f.mul(ys[k - 1], f.inv(Product(f, xs, k - 1, xs[k - 1], |xs|)));
      Sum(f, Interpolant(f, xs, ys, k - 1), Scale(f, c, Basis(f, xs, k - 1, |xs|)))
  }

  lemma {:induction false} EvalZeros<E(!new)>(f: Field<E>, n: nat, x: E)
    requires IsField(f)
    ensures Eval(f, Zeros(f, n), x) == f.zero
  {
    EvalPadded(f, [], n, x);
    assert Zeros(f, n) + [] == Zeros(f, n);
  }

  lemma {:induction false} EvalInterpolant<E(!new)>(f: Field<E>, xs: seq<E>, ys: seq<E>, o: E, k: nat)
    requires IsField(f) && k <= |xs| == |ys|
    ensures Eval(f, Interpolant(f, xs, ys, k), o) == Combined(f, xs, ys, o, k)
  {
    if k == 0 {
      EvalZeros(f, |xs|, o);
    } else {
      var i: nat := k - 1;
      EvalInterpolant(f, xs, ys, o, i);
      NextInterpolant(f, xs, ys, o, i, Combined(f, xs, ys, o, i));
    }
  }

  lemma {:induction false} NextInterpolant<E(!new)>(f: Field<E>, xs: seq<E>, ys: seq<E>, o: E, i: nat, v: E)
    requires IsField(f) && i < |xs| == |ys| && Eval(f, Interpolant(f, xs, ys, i), o) == v
    ensures Eval(f, Interpolant(f, xs, ys, i + 1), o) == f.add(v, f.mul(Weight(f, xs, i, o), ys[i]))
  {
    EvalBasis(f, xs, i, o, |xs|);
    var a, b, d := Interpolant(f, xs, ys, i), Basis(f, xs, i, |xs|), f.inv(Product(f, xs, i, xs[i], |xs|));
    AddTerm(f, a, b, ys[i], d, o);
  }

  lemma {:induction false} AddTerm<E(!new)>(f: Field<E>, a: seq<E>, b: seq<E>, y: E, d: E, o: E)
    requires IsField(f) && |a| == |b|
    ensures Eval(f, Sum(f, a, Scale(f, f.mul(y, d), b)), o) == f.add(Eval(f, a, o), f.mul(f.mul(Eval(f, b, o), d), y))
  {
    var n := Eval(f, b, o);
    EvalSum(f, a, Scale(f, f.mul(y, d), b), o);
    EvalScale(f, f.mul(y, d), b, o);
    assert Law3(f, y, d, n) && Law2(f, d, n) && Law2(f, y, f.mul(n, d));
  }

  /** Values of a polynomial with no more coefficients than points: interpolation gives its value everywhere. */
  lemma {:induction false} InterpolationIsExact<E(!new)>(f: Field<E>, xs: seq<E>, ys: seq<E>, p: seq<E>, o: E)
    requires IsField(f) && Distinct(xs) && |xs| == |ys| && |p| <= |xs|
    requires forall i :: 0 <= i < |xs| ==> ys[i] == Eval(f, p, xs[i])
    ensures Combined(f, xs, ys, o, |xs|) == Eval(f, p, o)
  {
    var n := |xs|;
    var a, b := Interpolant(f, xs, ys, n), Zeros(f, n - |p|) + p;
    var d := Sum(f, a, b);
    forall s | 0 <= s < n ensures Eval(f, d, xs[s]) == f.zero {
      EvalSum(f, a, b, xs[s]);
      EvalInterpolant(f, xs, ys, xs[s], n);
      CombinedAtPoint(f, xs, ys, s, n);
      EvalPadded(f, p, n - |p|, xs[s]);
      assert Law1(f, ys[s]);
    }
    TooManyRoots(f, d, xs, o);
    EvalSum(f, a, b, o);
    EvalInterpolant(f, xs, ys, o, n);
    EvalPadded(f, p, n - |p|, o);
    SumZero(f, Combined(f, xs, ys, o, n), Eval(f, p, o));
  }
}
