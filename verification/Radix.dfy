/** Numbers as sequences of digits, most significant first, in any base. */
module Radix {

  function Pow(b: nat, n: nat): nat {
    if n == 0 then 1 else b * Pow(b, n - 1)
  }

  function Pow2(n: nat): (r: nat)
    ensures r == Pow(2, n) && r > 0
  {
    PowPositive(2, n);
    Pow(2, n)
  }

  /** The number of binary digits of x. */
  ghost function BitLength(x: nat): nat {
    if x == 0 then 0 else 1 + BitLength(x / 2)
  }

  /** Every entry is a digit in base b. */
  predicate IsDigits(b: nat, ds: seq<nat>) {
    forall i :: 0 <= i < |ds| ==> ds[i] < b
  }

  function Val(b: nat, ds: seq<nat>): nat {
    if ds == [] then 0 else Val(b, ds[..|ds| - 1]) * b + ds[|ds| - 1]
  }

  /** The digits of n without leading zeroes. */
  function Digits(b: nat, n: nat): seq<nat>
    requires b >= 2
  {
    if n == 0 then [] else Digits(b, n / b) + [n % b]
  }

  function Quot(n: nat, b: nat): nat
    requires b > 0
  {
    n / b
  }

  function Rem(n: nat, b: nat): (r: nat)
    requires b > 0
    ensures r < b
  {
    n % b
  }

  predicate NoLeadingZero(ds: seq<nat>) {
    ds == [] || ds[0] != 0
  }

  lemma PowPositive(b: nat, n: nat)
    requires b > 0
    ensures Pow(b, n) > 0
  {
  }

  lemma {:induction false} PowAdd(b: nat, m: nat, n: nat)
    ensures Pow(b, m + n) == Pow(b, m) * Pow(b, n)
  {
    if m > 0 {
      PowAdd(b, m - 1, n);
      assert Pow(b, m + n) == b * Pow(b, m + n - 1);
      assert b * (Pow(b, m - 1) * Pow(b, n)) == (b * Pow(b, m - 1)) * Pow(b, n);
    }
  }

  lemma {:induction false} PowGrows(b: nat, m: nat, n: nat)
    requires b >= 1 && m <= n
    ensures Pow(b, m) <= Pow(b, n)
  {
    if m < n {
      PowGrows(b, m, n - 1);
      assert Pow(b, n) == b * Pow(b, n - 1);
      assert b * Pow(b, n - 1) >= Pow(b, n - 1);
    }
  }

  lemma {:induction false} PowStrict(b: nat, m: nat, n: nat)
    requires b >= 2 && m < n
    ensures Pow(b, m) < Pow(b, n)
  {
    PowGrows(b, m + 1, n);
    PowPositive(b, m);
  }

  lemma {:induction false} PowPow(b: nat, m: nat, n: nat)
    ensures Pow(Pow(b, m), n) == Pow(b, m * n)
  {
    if n > 0 {
      PowPow(b, m, n - 1);
      assert m * n == m + m * (n - 1);
      PowAdd(b, m, m * (n - 1));
    }
  }

  lemma {:induction false} PowMonotone(a: nat, b: nat, n: nat)
    requires a <= b
    ensures Pow(a, n) <= Pow(b, n)
  {
    if n > 0 {
      PowMonotone(a, b, n - 1);
      ProductMonotone(a, b, Pow(a, n - 1), Pow(b, n - 1));
    }
  }

  lemma ProductMonotone(a: nat, b: nat, x: nat, y: nat)
    requires a <= b && x <= y
    ensures a * x <= b * y
  {
    assert a * x <= a * y;
    assert a * y <= b * y;
  }

  // ---- values of digit sequences ----

  lemma {:induction false} ValConcat(b: nat, s: seq<nat>, t: seq<nat>)
    ensures Val(b, s + t) == Val(b, s) * Pow(b, |t|) + Val(b, t)
  {
    if t == [] {
      assert s + t == s;
    } else {
      var n := |t| - 1;
      assert (s + t)[..|s| + n] == s + t[..n];
      ValConcat(b, s, t[..n]);
      Distribute(b, Val(b, s), Pow(b, n), Val(b, t[..n]));
    }
  }

  lemma Distribute(b: nat, v: nat, p: nat, w: nat)
    ensures (v * p + w) * b == v * (b * p) + w * b
  {
    assert (v * p) * b == v * (b * p);
  }

  lemma {:induction false} ValOne(b: nat, d: nat)
    ensures Val(b, [d]) == d
  {
    assert [d][..0] == [];
  }

  lemma {:induction false} ValZeroes(b: nat, s: seq<nat>)
    requires forall i :: 0 <= i < |s| ==> s[i] == 0
    ensures Val(b, s) == 0
  {
    if s != [] {
      ValZeroes(b, s[..|s| - 1]);
    }
  }

  lemma RoomForDigit(b: nat, v: nat, p: nat, d: nat)
    requires v < p && d < b
    ensures v * b + d < b * p
  {
    MulOrder(v, p, b);
  }

  lemma MulOrder(q: nat, q': nat, b: nat)
    requires q < q'
    ensures q * b + b <= q' * b
  {
    var k: nat := q' - q - 1;
    assert q' * b == q * b + b + k * b;
    assert k * b >= 0;
  }

  lemma {:induction false} ValBound(b: nat, s: seq<nat>)
    requires b >= 1 && IsDigits(b, s)
    ensures Val(b, s) < Pow(b, |s|)
  {
    if s != [] {
      var n := |s| - 1;
      ValBound(b, s[..n]);
      RoomForDigit(b, Val(b, s[..n]), Pow(b, n), s[n]);
    }
  }

  /** A leading nonzero digit keeps the value up. */
  lemma {:induction false} ValLeading(b: nat, s: seq<nat>)
    requires s != [] && s[0] != 0 && b >= 1
    ensures Val(b, s) >= Pow(b, |s| - 1)
  {
    assert s == [s[0]] + s[1..];
    ValConcat(b, [s[0]], s[1..]);
    ValOne(b, s[0]);
    MulOrder(0, s[0], Pow(b, |s| - 1));
  }

  lemma {:induction false} DigitsVal(b: nat, n: nat)
    requires b >= 2
    ensures IsDigits(b, Digits(b, n)) && NoLeadingZero(Digits(b, n)) && Val(b, Digits(b, n)) == n
  {
    if n > 0 {
      DigitsVal(b, n / b);
      var ds := Digits(b, n / b);
      assert Digits(b, n)[..|ds|] == ds;
      DivMod(n, b);
    }
  }

  /** Digits without a leading zero are the digits of their value. */
  lemma {:induction false} ValDigits(b: nat, ds: seq<nat>)
    requires b >= 2 && IsDigits(b, ds) && NoLeadingZero(ds)
    ensures Digits(b, Val(b, ds)) == ds
  {
    if ds != [] {
      var n := |ds| - 1;
      ValDigits(b, ds[..n]);
      ValLeading(b, ds);
      PowPositive(b, n);
      QuotientAndRest(b, Val(b, ds[..n]), ds[n]);
      assert ds == ds[..n] + [ds[n]];
    }
  }

  lemma DivMod(n: nat, b: nat)
    requires b > 0
    ensures n == (n / b) * b + n % b
  {
  }

  lemma {:induction false} QuotientAndRest(b: nat, q: nat, r: nat)
    requires r < b
    ensures (q * b + r) / b == q && (q * b + r) % b == r
  {
    var x := q * b + r;
    DivMod(x, b);
    SameQuotient(b, q, r, x / b, x % b);
  }

  lemma {:induction false} SameQuotient(b: nat, q: nat, r: nat, q': nat, r': nat)
    requires r < b && r' < b && q * b + r == q' * b + r'
    ensures q == q' && r == r'
  {
    if q < q' {
      MulOrder(q, q', b);
    } else if q' < q {
      MulOrder(q', q, b);
    }
  }
}
