/** Unsigned integers of any number of 32-bit limbs, least significant first. */
module BaseUints {
  import opened Radix

  /** The base of a limb. */
  const M: nat := 0x1_0000_0000

  predicate IsLimbs(s: seq<nat>) {
    forall i :: 0 <= i < |s| ==> s[i] < M
  }

  function Value(s: seq<nat>): nat {
    if s == [] then 0 else Value(s[..|s| - 1]) + Times(s[|s| - 1], |s| - 1)
  }

  /** d times the weight of limb i. */
  function Times(d: nat, i: nat): nat {
    d * Pow(M, i)
  }

  /** One more than the largest value of n limbs. */
  function Modulus(n: nat): (r: nat)
    ensures r > 0
  {
    PowPositive(M, n);
    Pow(M, n)
  }

  // ---- values ----

  lemma {:induction false} ValuePrefix(s: seq<nat>, i: nat)
    requires i < |s|
    ensures Value(s[..i + 1]) == Value(s[..i]) + Times(s[i], i)
  {
    assert s[..i + 1][..i] == s[..i];
  }

  lemma {:induction false} ValueFits(s: seq<nat>)
    requires IsLimbs(s)
    ensures Value(s) < Modulus(|s|)
  {
    if s != [] {
      var n := |s| - 1;
      ValueFits(s[..n]);
      MulOrder(s[n], M, Pow(M, n));
    }
  }

  lemma {:induction false} ValueZeroes(s: seq<nat>)
    requires forall i :: 0 <= i < |s| ==> s[i] == 0
    ensures Value(s) == 0
  {
    if s != [] {
      ValueZeroes(s[..|s| - 1]);
    }
  }

  lemma {:induction false} ValueConcat(s: seq<nat>, t: seq<nat>)
    ensures Value(s + t) == Value(s) + Times(Value(t), |s|)
  {
    if t == [] {
      assert s + t == s;
    } else {
      var n := |t| - 1;
      assert (s + t)[..|s| + n] == s + t[..n];
      ValueConcat(s, t[..n]);
      PowAdd(M, n, |s|);
      SumTimes(Value(t[..n]), t[n], Pow(M, n), Pow(M, |s|));
    }
  }

  lemma SumTimes(a: nat, d: nat, p: nat, q: nat)
    ensures (a + d * p) * q == a * q + d * (p * q)
  {
    assert (d * p) * q == d * (p * q);
  }

  lemma TimesNext(a: nat, i: nat)
    ensures Times(a * M, i) == Times(a, i + 1)
  {
    Reassociate(a, M, Pow(M, i));
  }

  lemma Reassociate(a: nat, b: nat, c: nat)
    ensures (a * b) * c == a * (b * c)
  {
  }

  lemma TimesSum(a: nat, b: nat, i: nat)
    ensures Times(a + b, i) == Times(a, i) + Times(b, i)
  {
  }

  /** What is left of a number with a carry out of the top. */
  lemma {:induction false} Wraps(s: seq<nat>, carry: nat, total: nat)
    requires IsLimbs(s) && Value(s) + Times(carry, |s|) == total
    ensures Value(s) == Rem(total, Modulus(|s|))
  {
    ValueFits(s);
    QuotientAndRest(Modulus(|s|), carry, Value(s));
  }

  // ---- addition ----

  /** A limb's worth of a sum, and what is carried: n in place i is its low half there and its high half in the next. */
  lemma {:induction false} CarryOn(n: nat, i: nat)
    ensures Times(n, i) == Times(Rem(n, M), i) + Times(Quot(n, M), i + 1)
  {
    DivMod(n, M);
    TimesNext(Quot(n, M), i);
    TimesSum(Rem(n, M), Quot(n, M) * M, i);
  }

  ghost predicate Adding(a: seq<nat>, b: seq<nat>, now: seq<nat>, i: nat, carry: nat) {
    && |a| == |b| == |now| && i <= |a| && IsLimbs(now) && SameFrom(now, a, i)
    && Value(now[..i]) + Times(carry, i) == Value(a[..i]) + Value(b[..i])
  }

  lemma {:induction false} AddStep(a: seq<nat>, b: seq<nat>, now: seq<nat>, i: nat, carry: nat)
    requires i < |a| && Adding(a, b, now, i, carry)
    ensures var n := carry + now[i] + b[i]; Adding(a, b, now[i := Rem(n, M)], i + 1, Quot(n, M))
  {
    var n := carry + now[i] + b[i];
    var next := now[i := Rem(n, M)];
    ValuePrefix(a, i);
    ValuePrefix(b, i);
    ValuePrefix(next, i);
    assert next[..i] == now[..i];
    CarryOn(n, i);
    TimesSum(carry, a[i] + b[i], i);
    TimesSum(a[i], b[i], i);
  }

  /** Add b, which may be a itself. */
  method Add(a: array<nat>, b: array<nat>)
    requires a.Length == b.Length && IsLimbs(a[..]) && IsLimbs(b[..])
    modifies a
    ensures IsLimbs(a[..]) && Value(a[..]) == Rem(Value(old(a[..])) + Value(old(b[..])), Modulus(a.Length))
  {
    ghost var a0, b0 := a[..], b[..];
    var carry: nat := 0;
    for i := 0 to a.Length
      invariant Adding(a0, b0, a[..], i, carry) && SameFrom(b[..], b0, i)
    {
      ghost var now := a[..];
      AddStep(a0, b0, now, i, carry);
      var n: nat := carry + a[i] + b[i];
      a[i] := Rem(n, M);
      carry := Quot(n, M);
      assert a[..] == now[i := Rem(n, M)];
    }
    AddDone(a0, b0, a[..], carry);
  }

  ghost predicate SameFrom(s: seq<nat>, t: seq<nat>, i: nat) {
    |s| == |t| && forall j :: i <= j < |s| ==> s[j] == t[j]
  }

  lemma {:induction false} AddDone(a: seq<nat>, b: seq<nat>, now: seq<nat>, carry: nat)
    requires Adding(a, b, now, |a|, carry)
    ensures Value(now) == Rem(Value(a) + Value(b), Modulus(|a|))
  {
    assert now[..|a|] == now && a[..|a|] == a && b[..|a|] == b;
    Wraps(now, carry, Value(a) + Value(b));
  }

  // ---- negation and subtraction ----

  lemma {:induction false} ComplementValue(s: seq<nat>, t: seq<nat>)
    requires |s| == |t| && forall i :: 0 <= i < |s| ==> s[i] + t[i] == M - 1
    ensures Value(s) + Value(t) + 1 == Modulus(|s|)
  {
    if s != [] {
      var n := |s| - 1;
      ComplementValue(s[..n], t[..n]);
      TimesSum(s[n], t[n], n);
      TimesSum(M - 1, 1, n);
      assert Pow(M, n + 1) == M * Pow(M, n);
    }
  }

  method Complement(b: array<nat>) returns (r: array<nat>)
    requires IsLimbs(b[..])
    ensures fresh(r) && r.Length == b.Length && IsLimbs(r[..]) && Value(b[..]) + Value(r[..]) + 1 == Modulus(b.Length)
  {
    r := new nat[b.Length](i => 0);
    for i := 0 to b.Length
      invariant forall j :: 0 <= j < i ==> b[j] + r[j] == M - 1
    {
      assert b[..][i] < M;
      r[i] := M - 1 - b[i];
    }
    ComplementValue(b[..], r[..]);
  }

  lemma {:induction false} ValueUpdate(s: seq<nat>, i: nat, d: nat)
    requires i < |s|
    ensures Value(s[i := d]) + Times(s[i], i) == Value(s) + Times(d, i)
  {
    var n := |s| - 1;
    if i == n {
      assert s[i := d][..n] == s[..n];
    } else {
      assert s[i := d][..n] == s[..n][i := d];
      ValueUpdate(s[..n], i, d);
    }
  }

  /** A limb that overflows: one is still to be added in the next place. */
  lemma {:induction false} IncrementStep(s: seq<nat>, i: nat, total: nat)
    requires i < |s| && s[i] < M && Value(s) + Times(1, i) == total
    ensures s[i] == M - 1 ==> Value(s[i := 0]) + Times(1, i + 1) == total
    ensures Value(s[i := s[i] + 1]) == total
  {
    ValueUpdate(s, i, 0);
    ValueUpdate(s, i, s[i] + 1);
    TimesSum(s[i], 1, i);
    TimesNext(1, i);
  }

  method Increment(a: array<nat>)
    requires IsLimbs(a[..])
    modifies a
    ensures IsLimbs(a[..]) && Value(a[..]) == Rem(Value(old(a[..])) + 1, Modulus(a.Length))
  {
    ghost var total := Value(a[..]) + 1;
    var i := 0;
    assert Times(1, 0) == 1;
    while i < a.Length
      invariant i <= a.Length && IsLimbs(a[..]) && Value(a[..]) + Times(1, i) == total
    {
      ghost var now := a[..];
      IncrementStep(now, i, total);
      a[i] := Rem(a[i] + 1, M);
      assert a[..] == now[i := Rem(now[i] + 1, M)];
      if a[i] != 0 {
        Wraps(a[..], 0, total);
        return;
      }
      i := i + 1;
    }
    Wraps(a[..], 1, total);
  }

  method Negate(b: array<nat>) returns (r: array<nat>)
    requires IsLimbs(b[..])
    ensures fresh(r) && r.Length == b.Length && IsLimbs(r[..]) && Value(b[..]) <= Modulus(b.Length)
    ensures Value(r[..]) == Rem(Modulus(b.Length) - Value(b[..]), Modulus(b.Length))
  {
    r := Complement(b);
    Increment(r);
  }

  /** Subtract b, which may be a itself. */
  method Subtract(a: array<nat>, b: array<nat>)
    requires a.Length == b.Length && IsLimbs(a[..]) && IsLimbs(b[..])
    modifies a
    ensures IsLimbs(a[..]) && Value(old(b[..])) <= Modulus(a.Length)
    ensures Value(a[..]) == Rem(Value(old(a[..])) + Modulus(a.Length) - Value(old(b[..])), Modulus(a.Length))
    ensures Value(old(b[..])) <= Value(old(a[..])) ==> Value(a[..]) == Value(old(a[..])) - Value(old(b[..]))
  {
    var minus := Negate(b);
    ghost var x, y, m := Value(a[..]), Value(b[..]), Modulus(a.Length);
    ValueFits(a[..]);
    Add(a, minus);
    RemSum(x, m - y, m);
    if y <= x {
      QuotientAndRest(m, 1, x - y);
    }
  }

  lemma RemSum(x: nat, y: nat, m: nat)
    requires m > 0
    ensures Rem(x + Rem(y, m), m) == Rem(x + y, m)
  {
    DivMod(y, m);
    DivMod(x + Rem(y, m), m);
    var q, r := Quot(x + Rem(y, m), m), Rem(x + Rem(y, m), m);
    DistributeTwo(Quot(y, m), q, m);
    QuotientAndRest(m, Quot(y, m) + q, r);
  }

  lemma DistributeTwo(a: nat, b: nat, m: nat)
    ensures (a + b) * m == a * m + b * m
  {
  }

  // ---- comparison ----

  method CompareTo(a: array<nat>, b: array<nat>) returns (c: int)
    requires a.Length == b.Length && IsLimbs(a[..]) && IsLimbs(b[..])
    ensures c == if Value(a[..]) < Value(b[..]) then -1 else if Value(a[..]) > Value(b[..]) then 1 else 0
  {
    var i: nat := a.Length;
    while i > 0
      invariant i <= a.Length && SameFrom(a[..], b[..], i)
    {
      i := i - 1;
      if a[i] < b[i] {
        Smaller(a[..], b[..], i);
        return -1;
      }
      if a[i] > b[i] {
        Smaller(b[..], a[..], i);
        return 1;
      }
    }
    assert a[..] == b[..];
    return 0;
  }

  lemma {:induction false} Smaller(a: seq<nat>, b: seq<nat>, i: nat)
    requires |a| == |b| && i < |a| && IsLimbs(a) && IsLimbs(b) && a[i] < b[i] && SameFrom(a, b, i + 1)
    ensures Value(a) < Value(b)
  {
    assert a == a[..i + 1] + a[i + 1..] && b == b[..i + 1] + b[i + 1..] && a[i + 1..] == b[i + 1..];
    ValueConcat(a[..i + 1], a[i + 1..]);
    ValueConcat(b[..i + 1], b[i + 1..]);
    ValuePrefix(a, i);
    ValuePrefix(b, i);
    ValueFits(a[..i]);
    MulOrder(a[i], b[i], Pow(M, i));
  }
}
