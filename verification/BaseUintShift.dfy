/** Shifts of integers of 32-bit limbs. */
module BaseUintsShift {
  import opened Radix
  import opened BaseUints
  import opened BaseUintsMultiply

  // ---- bits ----

  /** The bits set in either. */
  function Or(x: nat, y: nat): nat {
    if x == 0 then y else if y == 0 then x else 2 * Or(x / 2, y / 2) + (if x % 2 == 1 || y % 2 == 1 then 1 else 0)
  }

  /** Where no bit is set in both, that is the sum. */
  lemma {:induction false} OrIsSum(x: nat, y: nat, s: nat)
    requires x < Pow2(s)
    ensures Or(x, y * Pow2(s)) == x + y * Pow2(s)
    decreases s
  {
    if x > 0 && y > 0 {
      var z := y * Pow2(s - 1);
      Doubled(y, s);
      ProductPositive(y, Pow2(s - 1));
      OrIsSum(x / 2, y, s - 1);
      EvenOr(x, z);
    }
  }

  lemma Doubled(y: nat, s: nat)
    requires s > 0
    ensures y * Pow2(s) == 2 * (y * Pow2(s - 1))
  {
    assert Pow2(s) == 2 * Pow2(s - 1);
  }

  lemma ProductPositive(a: nat, b: nat)
    requires a > 0 && b > 0
    ensures a * b > 0
  {
  }

  lemma {:induction false} EvenOr(x: nat, z: nat)
    requires x > 0 && z > 0 && Or(x / 2, z) == x / 2 + z
    ensures Or(x, 2 * z) == x + 2 * z
  {
    assert (2 * z) / 2 == z && (2 * z) % 2 == 0;
  }

  lemma LimbBits(s: nat)
    requires s <= 32
    ensures Pow2(s) * Pow2(32 - s) == M
  {
    PowAdd(2, s, 32 - s);
    WordIs(8, 16, 32);
  }

  lemma WordIs(a: nat, b: nat, c: nat)
    requires a == 8 && b == 16 && c == 32
    ensures Pow(2, c) == M
  {
    assert Pow(2, a) == 256;
    PowAdd(2, a, a);
    PowAdd(2, b, b);
  }

  lemma {:induction false} ShiftIs(count: nat)
    ensures Pow2(count) == Pow2(count % 32) * Pow(M, count / 32)
  {
    WordIs(8, 16, 32);
    PowPow(2, 32, count / 32);
    PowAdd(2, count % 32, 32 * (count / 32));
    assert count % 32 + 32 * (count / 32) == count;
  }

  /** Multiplying a limb by p: what leaves it, and what stays. */
  lemma {:induction false} Halves(x: nat, p: nat, q: nat)
    requires p * q == M && p > 0 && q > 0
    ensures Quot(x * p, M) == Quot(x, q) && Rem(x * p, M) == Rem(x, q) * p
  {
    DivMod(x, q);
    var c, r := Quot(x, q), Rem(x, q);
    SumTimes(r, c, q, p);
    MulOrder(r, q, p);
    assert q * p == p * q;
    QuotientAndRest(M, c, r * p);
  }

  // ---- to the left ----

  /** The limbs before i, times 2^s, are in place from k on, and what they carry is in the next limb, if there is
      one. */
  ghost predicate ShiftingUp(a: seq<nat>, k: nat, s: nat, now: seq<nat>, i: nat, carry: nat) {
    && |now| == |a| && i + k <= |a| && s < 32 && IsLimbs(now) && carry < Pow2(s)
    && (forall j :: i + k < j < |a| ==> now[j] == 0) && (i + k < |a| ==> now[i + k] == carry)
    && Value(now[..i + k]) + Times(carry, i + k) == Times(Value(a[..i]) * Pow2(s), k)
  }

  /** What the limb x leaves in place and carries. */
  lemma {:induction false} UpDigit(x: nat, s: nat, carry: nat)
    requires x < M && s < 32 && carry < Pow2(s)
    ensures Or(carry, Rem(x * Pow2(s), M)) == Rem(carry + x * Pow2(s), M)
    ensures Quot(carry + x * Pow2(s), M) == Quot(x, Pow2(32 - s)) < Pow2(s)
  {
    var p, q := Pow2(s), Pow2(32 - s);
    LimbBits(s);
    Halves(x, p, q);
    var c, r := Quot(x, q), Rem(x, q);
    OrIsSum(carry, r, s);
    DivMod(x * p, M);
    MulOrder(r, q, p);
    assert q * p == p * q;
    QuotientAndRest(M, c, carry + r * p);
    SmallQuot(x, q, p);
  }

  lemma SmallQuot(x: nat, q: nat, p: nat)
    requires q > 0 && x < p * q
    ensures Quot(x, q) < p
  {
    DivMod(x, q);
    if Quot(x, q) >= p {
      ProductMonotone(p, Quot(x, q), q, q);
    }
  }

  lemma {:induction false} UpStep(a: seq<nat>, k: nat, s: nat, now: seq<nat>, next: seq<nat>, i: nat, carry: nat)
    requires ShiftingUp(a, k, s, now, i, carry) && i + k < |a| && IsLimbs(a)
    requires var c := Quot(a[i], Pow2(32 - s));
             |next| == |a| && next[i + k] == Or(carry, Rem(a[i] * Pow2(s), M))
                 && (i + k + 1 < |a| ==> next[i + k + 1] == c)
    requires forall j :: 0 <= j < |a| && j != i + k && j != i + k + 1 ==> next[j] == now[j]
    ensures ShiftingUp(a, k, s, next, i + 1, Quot(a[i], Pow2(32 - s)))
  {
    UpDigit(a[i], s, carry);
    LimbBits(s);
    assert next[..i + k] == now[..i + k];
    UpValue(a, k, s, now, next, i, carry);
    UpperLimb(s, Quot(a[i], Pow2(32 - s)));
  }

  lemma UpperLimb(s: nat, c: nat)
    requires s < 32 && c < Pow2(s)
    ensures c < M
  {
    PowStrict(2, s, 32);
    WordIs(8, 16, 32);
  }

  lemma {:induction false} UpValue(a: seq<nat>, k: nat, s: nat, now: seq<nat>, next: seq<nat>, i: nat, carry: nat)
    requires i + k < |a| == |now| == |next| && next[..i + k] == now[..i + k]
    requires next[i + k] == Rem(carry + a[i] * Pow2(s), M)
    requires Value(now[..i + k]) + Times(carry, i + k) == Times(Value(a[..i]) * Pow2(s), k)
    ensures Value(next[..i + 1 + k]) + Times(Quot(carry + a[i] * Pow2(s), M), i + 1 + k)
        == Times(Value(a[..i + 1]) * Pow2(s), k)
  {
    ValuePrefix(next, i + k);
    ValuePrefix(a, i);
    JoinUp(Value(now[..i + k]), carry, Value(a[..i]), a[i], Pow2(s), k, i);
  }

  lemma JoinUp(v: nat, carry: nat, w: nat, x: nat, p: nat, k: nat, i: nat)
    requires v + Times(carry, i + k) == Times(w * p, k)
    ensures var n := carry + x * p;
            v + Times(Rem(n, M), i + k) + Times(Quot(n, M), i + 1 + k) == Times((w + Times(x, i)) * p, k)
  {
    JoinCarry(v, carry, Times(w * p, k), 0, x * p, i + k);
    Spread(w, x, Pow(M, i), p);
    PowAdd(M, i, k);
    SumTimes(w * p, p * x, Pow(M, i), Pow(M, k));
    assert p * x == x * p;
  }

  /** Move limb i of a into place. */
  method UpLimb(pn: array<nat>, a: seq<nat>, k: nat, shift: nat, i: nat, ghost carry: nat)
    requires i + k < pn.Length && IsLimbs(a) && ShiftingUp(a, k, shift, pn[..], i, carry)
    modifies pn
    ensures ShiftingUp(a, k, shift, pn[..], i + 1, Quot(a[i], Pow2(32 - shift)))
  {
    ghost var now := pn[..];
    var c := Quot(a[i], Pow2(32 - shift));
    UpCarry(a[i], shift, carry);
    if i + k + 1 < pn.Length && shift != 0 {
      assert now[i + k + 1] == 0;
      pn[i + k + 1] := Or(pn[i + k + 1], c);
    }
    pn[i + k] := Or(pn[i + k], Rem(a[i] * Pow2(shift), M));
    UpStep(a, k, shift, now, pn[..], i, carry);
  }

  lemma UpCarry(x: nat, s: nat, carry: nat)
    requires x < M && s < 32 && carry < Pow2(s)
    ensures s == 0 ==> Quot(x, Pow2(32 - s)) == 0
  {
    UpDigit(x, s, carry);
  }

  method ShiftLeft(pn: array<nat>, count: nat)
    requires IsLimbs(pn[..])
    modifies pn
    ensures IsLimbs(pn[..]) && Value(pn[..]) == Rem(Value(old(pn[..])) * Pow2(count), Modulus(pn.Length))
  {
    var a, n := pn[..], pn.Length;
    Clear(pn);
    var k: nat, shift: nat := count / 32, count % 32;
    ghost var carry: nat := 0;
    if k <= n {
      NothingUp(a, k, shift, pn[..]);
    }
    for i := 0 to n
      invariant ShiftedUp(a, k, shift, pn[..], i, carry)
    {
      if i + k < n {
        UpLimb(pn, a, k, shift, i, carry);
        carry := Quot(a[i], Pow2(32 - shift));
      }
    }
    UpDone(a, count, pn[..], carry);
  }

  /** The same, as far as there are places for limbs. */
  ghost predicate ShiftedUp(a: seq<nat>, k: nat, s: nat, now: seq<nat>, i: nat, carry: nat) {
    && |now| == |a|
    && if k <= |a| then ShiftingUp(a, k, s, now, if i + k <= |a| then i else |a| - k, carry)
       else forall j :: 0 <= j < |a| ==> now[j] == 0
  }

  method Clear(pn: array<nat>)
    modifies pn
    ensures forall j :: 0 <= j < pn.Length ==> pn[j] == 0
  {
    for i := 0 to pn.Length
      invariant forall j :: 0 <= j < i ==> pn[j] == 0
    {
      pn[i] := 0;
    }
  }

  lemma {:induction false} NothingUp(a: seq<nat>, k: nat, s: nat, now: seq<nat>)
    requires |now| == |a| && k <= |a| && s < 32 && forall j :: 0 <= j < |a| ==> now[j] == 0
    ensures ShiftingUp(a, k, s, now, 0, 0)
  {
    ValueZeroes(now[..k]);
  }

  lemma {:induction false} UpDone(a: seq<nat>, count: nat, now: seq<nat>, carry: nat)
    requires ShiftedUp(a, count / 32, count % 32, now, |a|, carry)
    ensures IsLimbs(now) && Value(now) == Rem(Value(a) * Pow2(count), Modulus(|a|))
  {
    ShiftIs(count);
    var over := UpAll(a, count / 32, count % 32, now, carry);
    Wraps(now, over, Value(a) * Pow2(count));
  }

  lemma {:induction false} UpAll(a: seq<nat>, k: nat, s: nat, now: seq<nat>, carry: nat) returns (over: nat)
    requires ShiftedUp(a, k, s, now, |a|, carry)
    ensures IsLimbs(now) && Value(now) + Times(over, |a|) == Value(a) * (Pow2(s) * Pow(M, k))
  {
    var n := |a|;
    if k <= n {
      var m := n - k;
      assert a == a[..m] + a[m..] && now[..n] == now;
      ValueConcat(a[..m], a[m..]);
      var more := UpOver(Value(a[..m]), Value(a[m..]), Pow2(s), m, k);
      TimesSum(carry, more, n);
      over := carry + more;
    } else {
      ValueZeroes(now);
      PowAdd(M, k - n, n);
      AllOver(Value(a), Pow2(s), Pow(M, k - n), Pow(M, n));
      over := Value(a) * (Pow2(s) * Pow(M, k - n));
    }
  }

  lemma AllOver(v: nat, p: nat, q: nat, r: nat)
    ensures v * (p * (q * r)) == (v * (p * q)) * r
  {
    Reassociate(p, q, r);
    Reassociate(v, p * q, r);
  }

  lemma UpOver(low: nat, high: nat, p: nat, m: nat, k: nat) returns (over: nat)
    ensures (low + Times(high, m)) * (p * Pow(M, k)) == Times(low * p, k) + Times(over, m + k)
  {
    over := p * high;
    Spread(low, high, Pow(M, m), p);
    PowAdd(M, m, k);
    Reassociate(low + Times(high, m), p, Pow(M, k));
    SumTimes(low * p, p * high, Pow(M, m), Pow(M, k));
  }

  // ---- to the right ----

  /** What is lost of the limbs from k on. */
  ghost function Lost(a: seq<nat>, k: nat, s: nat, i: nat): (r: nat)
    requires k <= i <= |a|
    ensures r < Pow2(s)
  {
    if i == k then 0 else Rem(a[k], Pow2(s))
  }

  /** The limbs from k before i, divided by 2^s, are in place from zero on. */
  ghost predicate ShiftingDown(a: seq<nat>, k: nat, s: nat, now: seq<nat>, i: nat) {
    && |now| == |a| && k <= i <= |a| && s < 32 && IsLimbs(now)
    && (forall j :: i - k <= j < |a| ==> now[j] == 0) && (i > k ==> now[i - k - 1] < Pow2(32 - s))
    && Value(now[..i - k]) * Pow2(s) + Lost(a, k, s, i) == Value(a[k..i])
  }

  /** The limb y moved down: the part that goes to the limb below, next to z, and the part that stays. */
  lemma {:induction false} DownDigit(y: nat, s: nat, z: nat)
    requires y < M && s < 32 && z < Pow2(32 - s)
    ensures Or(z, Rem(y * Pow2(32 - s), M)) == z + Rem(y, Pow2(s)) * Pow2(32 - s) < M
    ensures Quot(y, Pow2(s)) < Pow2(32 - s) <= M && (s == 0 ==> Rem(y, Pow2(s)) == 0)
  {
    var p, q := Pow2(s), Pow2(32 - s);
    LimbBits(s);
    assert q * p == p * q;
    Halves(y, q, p);
    OrIsSum(z, Rem(y, p), 32 - s);
    SmallQuot(y, p, q);
    MulOrder(Rem(y, p), p, q);
    ProductMonotone(1, p, q, q);
  }

  lemma {:induction false} DownStep(a: seq<nat>, k: nat, s: nat, now: seq<nat>, next: seq<nat>, i: nat)
    requires ShiftingDown(a, k, s, now, i) && i < |a| && IsLimbs(a) && |next| == |a|
    requires next[i - k] == Quot(a[i], Pow2(s))
    requires i > k ==> next[i - k - 1] == now[i - k - 1] + Rem(a[i], Pow2(s)) * Pow2(32 - s)
    requires forall j :: 0 <= j < |a| && j != i - k && j != i - k - 1 ==> next[j] == now[j]
    ensures ShiftingDown(a, k, s, next, i + 1)
  {
    DownDigit(a[i], s, if i > k then now[i - k - 1] else 0);
    DownValue(a, k, s, now, next, i);
  }

  lemma {:induction false} DownValue(a: seq<nat>, k: nat, s: nat, now: seq<nat>, next: seq<nat>, i: nat)
    requires k <= i < |a| == |now| == |next| && s < 32
    requires Value(now[..i - k]) * Pow2(s) + Lost(a, k, s, i) == Value(a[k..i])
    requires next[i - k] == Quot(a[i], Pow2(s))
    requires i > k ==> next[i - k - 1] == now[i - k - 1] + Rem(a[i], Pow2(s)) * Pow2(32 - s)
    requires forall j :: 0 <= j < i - k - 1 ==> next[j] == now[j]
    ensures Value(next[..i - k + 1]) * Pow2(s) + Lost(a, k, s, i + 1) == Value(a[k..i + 1])
  {
    SliceNext(a, k, i);
    DivMod(a[i], Pow2(s));
    if i == k {
      assert next[..1] == [next[0]] && now[..0] == [];
      assert Value(next[..1]) == next[0];
    } else {
      LimbBits(s);
      TopTwo(now, next, i - k);
      JoinDown(Value(now[..i - k - 1]), now[i - k - 1], Rem(a[i], Pow2(s)), Quot(a[i], Pow2(s)), Pow2(s),
               Pow2(32 - s), i - k - 1);
    }
  }

  lemma {:induction false} SliceNext(a: seq<nat>, k: nat, i: nat)
    requires k <= i < |a|
    ensures Value(a[k..i + 1]) == Value(a[k..i]) + Times(a[i], i - k) && (i == k ==> Value(a[k..i + 1]) == a[i])
  {
    assert a[k..][..i - k] == a[k..i] && a[k..][..i - k + 1] == a[k..i + 1];
    ValuePrefix(a[k..], i - k);
  }

  lemma {:induction false} TopTwo(now: seq<nat>, next: seq<nat>, d: nat)
    requires 0 < d < |now| == |next| && forall j :: 0 <= j < d - 1 ==> next[j] == now[j]
    ensures Value(now[..d]) == Value(now[..d - 1]) + Times(now[d - 1], d - 1)
    ensures Value(next[..d + 1]) == Value(now[..d - 1]) + Times(next[d - 1], d - 1) + Times(next[d], d)
  {
    assert next[..d - 1] == now[..d - 1];
    ValuePrefix(next, d);
    ValuePrefix(next, d - 1);
    ValuePrefix(now, d - 1);
  }

  lemma JoinDown(v: nat, x: nat, r: nat, c: nat, p: nat, q: nat, d: nat)
    requires p * q == M
    ensures (v + Times(x + r * q, d) + Times(c, d + 1)) * p == (v + Times(x, d)) * p + Times(c * p + r, d + 1)
  {
    var m := Pow(M, d);
    TimesSum(x, r * q, d);
    // r * q * m * p == r * (M * m)
    Reassociate(r, q, m);
    assert (r * (q * m)) * p == r * (p * q * m);
    // c * (M * m) * p == (c * p) * (M * m)
    assert (c * (M * m)) * p == (c * p) * (M * m);
    TimesSum(c * p, r, d + 1);
    Three(v + x * m, r * (q * m), c * (M * m), p);
  }

  lemma Three(a: nat, b: nat, c: nat, p: nat)
    ensures (a + b + c) * p == a * p + b * p + c * p
  {
  }

  /** Move limb i of a into place. */
  method DownLimb(pn: array<nat>, a: seq<nat>, k: nat, shift: nat, i: nat)
    requires i < pn.Length && IsLimbs(a) && ShiftingDown(a, k, shift, pn[..], i)
    modifies pn
    ensures ShiftingDown(a, k, shift, pn[..], i + 1)
  {
    ghost var now := pn[..];
    DownDigit(a[i], shift, if i > k then now[i - k - 1] else 0);
    assert now[i - k] == 0;
    if i - k - 1 >= 0 && shift != 0 {
      pn[i - k - 1] := Or(pn[i - k - 1], Rem(a[i] * Pow2(32 - shift), M));
    }
    pn[i - k] := Or(pn[i - k], Quot(a[i], Pow2(shift)));
    DownStep(a, k, shift, now, pn[..], i);
  }

  /** The same, once limb k has been reached. */
  ghost predicate ShiftedDown(a: seq<nat>, k: nat, s: nat, now: seq<nat>, i: nat) {
    && |now| == |a|
    && if k <= |a| then ShiftingDown(a, k, s, now, if i < k then k else i)
       else forall j :: 0 <= j < |a| ==> now[j] == 0
  }

  method ShiftRight(pn: array<nat>, count: nat)
    requires IsLimbs(pn[..])
    modifies pn
    ensures IsLimbs(pn[..]) && Value(pn[..]) == Quot(Value(old(pn[..])), Pow2(count))
  {
    var a, n := pn[..], pn.Length;
    Clear(pn);
    var k: nat, shift: nat := count / 32, count % 32;
    if k <= n {
      NothingDown(a, k, shift, pn[..]);
    }
    for i := 0 to n
      invariant ShiftedDown(a, k, shift, pn[..], i)
    {
      if i - k >= 0 {
        DownLimb(pn, a, k, shift, i);
      }
    }
    DownDone(a, count, pn[..]);
  }

  lemma {:induction false} NothingDown(a: seq<nat>, k: nat, s: nat, now: seq<nat>)
    requires |now| == |a| && k <= |a| && s < 32 && forall j :: 0 <= j < |a| ==> now[j] == 0
    ensures ShiftingDown(a, k, s, now, k)
  {
    assert now[..0] == [] && a[k..k] == [];
  }

  lemma {:induction false} DownDone(a: seq<nat>, count: nat, now: seq<nat>)
    requires IsLimbs(a) && ShiftedDown(a, count / 32, count % 32, now, |a|)
    ensures IsLimbs(now) && Value(now) == Quot(Value(a), Pow2(count))
  {
    ShiftIs(count);
    var rest := DownAll(a, count / 32, count % 32, now);
    QuotientAndRest(Pow2(count), Value(now), rest);
  }

  lemma {:induction false} DownAll(a: seq<nat>, k: nat, s: nat, now: seq<nat>) returns (rest: nat)
    requires IsLimbs(a) && ShiftedDown(a, k, s, now, |a|)
    ensures IsLimbs(now) && rest < Pow2(s) * Pow(M, k) && Value(a) == Value(now) * (Pow2(s) * Pow(M, k)) + rest
  {
    if k <= |a| {
      rest := DownWithin(a, k, s, now);
    } else {
      ValueZeroes(now);
      ValueFits(a);
      PowGrows(M, |a|, k);
      ProductMonotone(1, Pow2(s), Pow(M, k), Pow(M, k));
      rest := Value(a);
    }
  }

  lemma {:induction false} DownWithin(a: seq<nat>, k: nat, s: nat, now: seq<nat>) returns (rest: nat)
    requires IsLimbs(a) && ShiftingDown(a, k, s, now, |a|)
    ensures rest < Pow2(s) * Pow(M, k) && Value(a) == Value(now) * (Pow2(s) * Pow(M, k)) + rest
  {
    var n := |a|;
    assert a == a[..k] + a[k..n];
    ValueConcat(a[..k], a[k..n]);
    ZeroTop(now, n - k);
    ValueFits(a[..k]);
    rest := DownRest(Value(now), Pow2(s), Lost(a, k, s, n), Pow(M, k), Value(a[..k]));
  }

  lemma {:induction false} ZeroTop(now: seq<nat>, d: nat)
    requires d <= |now| && forall j :: d <= j < |now| ==> now[j] == 0
    ensures Value(now) == Value(now[..d])
  {
    assert now == now[..d] + now[d..];
    ValueConcat(now[..d], now[d..]);
    ValueZeroes(now[d..]);
  }

  lemma DownRest(v: nat, p: nat, lost: nat, m: nat, low: nat) returns (rest: nat)
    requires lost < p && low < m
    ensures rest < p * m && low + (v * p + lost) * m == v * (p * m) + rest
  {
    rest := lost * m + low;
    MulOrder(lost, p, m);
    Reassociate(v, p, m);
    DistributeTwo(v * p, lost, m);
  }
}
