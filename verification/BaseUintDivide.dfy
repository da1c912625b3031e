/** Bit lengths and division of integers of 32-bit limbs. */
module BaseUintsDivide {
  import opened Radix
  import opened BaseUints
  import opened BaseUintsMultiply
  import opened BaseUintsShift

  // ---- the number of bits ----

  predicate BitSet(x: nat, n: nat) {
    Rem(Quot(x, Pow2(n)), 2) == 1
  }

  lemma TopBit(x: nat, n: nat)
    requires x < Pow2(n + 1)
    ensures BitSet(x, n) <==> x >= Pow2(n)
  {
    assert Pow2(n + 1) == 2 * Pow2(n);
    SmallQuot(x, Pow2(n), 2);
    DivMod(x, Pow2(n));
  }

  /** The binary length of a limb. */
  method HighBit(x: nat) returns (nbits: nat)
    requires 0 < x < M
    ensures nbits < 32 && Pow2(nbits) <= x < Pow2(nbits + 1)
  {
    WordIs(8, 16, 32);
    nbits := 31;
    while nbits > 0
      invariant nbits < 32 && x < Pow2(nbits + 1)
    {
      TopBit(x, nbits);
      if BitSet(x, nbits) {
        return;
      }
      nbits := nbits - 1;
    }
  }

  method Bits(a: array<nat>) returns (n: nat)
    requires IsLimbs(a[..])
    ensures n <= 32 * a.Length && (n == 0 <==> Value(a[..]) == 0)
    ensures n > 0 ==> Pow2(n - 1) <= Value(a[..]) < Pow2(n)
  {
    var pos: nat := a.Length;
    while pos > 0
      invariant pos <= a.Length && forall j :: pos <= j < a.Length ==> a[j] == 0
    {
      pos := pos - 1;
      if a[pos] != 0 {
        assert a[..][pos] < M;
        var nbits := HighBit(a[pos]);
        TopLimb(a[..], pos, nbits);
        return 32 * pos + nbits + 1;
      }
    }
    ValueZeroes(a[..]);
    return 0;
  }

  lemma {:induction false} TopLimb(s: seq<nat>, pos: nat, nbits: nat)
    requires pos < |s| && IsLimbs(s) && Pow2(nbits) <= s[pos] < Pow2(nbits + 1) && forall j :: pos < j < |s| ==>
      s[j] == 0
    ensures Pow2(32 * pos + nbits) <= Value(s) < Pow2(32 * pos + nbits + 1) && Value(s) > 0
  {
    ZeroTop(s, pos + 1);
    ValuePrefix(s, pos);
    ValueFits(s[..pos]);
    LimbWeight(pos);
    PowAdd(2, nbits, 32 * pos);
    PowAdd(2, nbits + 1, 32 * pos);
    ProductMonotone(Pow2(nbits), s[pos], Pow(M, pos), Pow(M, pos));
    MulOrder(s[pos], Pow2(nbits + 1), Pow(M, pos));
  }

  lemma {:induction false} LimbWeight(pos: nat)
    ensures Pow(M, pos) == Pow2(32 * pos)
  {
    WordIs(8, 16, 32);
    PowPow(2, 32, pos);
  }

  // ---- setting bits from the top ----

  /** The bits below t are zero. */
  ghost predicate LowZero(s: seq<nat>, t: nat) {
    && (forall j :: 0 <= j < |s| && j < t / 32 ==> s[j] == 0)
    && (t / 32 < |s| ==> Rem(s[t / 32], Pow2(t % 32)) == 0)
  }

  /** The limb that holds bit t is a multiple of twice that bit. */
  lemma {:induction false} LimbLowZero(s: seq<nat>, t: nat) returns (y: nat)
    requires LowZero(s, t + 1) && t / 32 < |s|
    ensures s[t / 32] == y * Pow2(t % 32 + 1)
  {
    if t % 32 == 31 {
      y := 0;
    } else {
      assert (t + 1) / 32 == t / 32 && (t + 1) % 32 == t % 32 + 1;
      DivMod(s[t / 32], Pow2(t % 32 + 1));
      y := Quot(s[t / 32], Pow2(t % 32 + 1));
    }
  }

  lemma {:induction false} OrCommutes(x: nat, y: nat)
    ensures Or(x, y) == Or(y, x)
  {
    if x > 0 && y > 0 {
      OrCommutes(x / 2, y / 2);
    }
  }

  /** Setting the next bit adds it. */
  lemma {:induction false} NextBit(y: nat, r: nat)
    requires r < 32 && y * Pow2(r + 1) < M
    ensures Or(y * Pow2(r + 1), Pow2(r)) == y * Pow2(r + 1) + Pow2(r) < M
    ensures Rem(y * Pow2(r + 1) + Pow2(r), Pow2(r)) == 0 && Rem(y * Pow2(r + 1), Pow2(r)) == 0
  {
    var p, q := Pow2(r), Pow2(r + 1);
    assert q == 2 * p;
    OrIsSum(p, y, r + 1);
    OrCommutes(p, y * q);
    NextFits(y, r + 1);
    EvenParts(y, p, q);
  }

  lemma NextFits(y: nat, r: nat)
    requires r <= 32 && y * Pow2(r) < M
    ensures y * Pow2(r) + Pow2(r) <= M
  {
    LimbBits(r);
    Room(y, Pow2(r), Pow2(32 - r));
  }

  lemma Room(y: nat, q: nat, m: nat)
    requires y * q < q * m
    ensures y * q + q <= q * m
  {
    if y >= m {
      ProductMonotone(m, y, q, q);
    } else {
      MulOrder(y, m, q);
    }
  }

  lemma EvenParts(y: nat, p: nat, q: nat)
    requires p > 0 && q == 2 * p
    ensures Rem(y * q + p, p) == 0 && Rem(y * q, p) == 0
  {
    assert y * q == (2 * y) * p;
    QuotientAndRest(p, 2 * y, 0);
    DistributeTwo(2 * y, 1, p);
    QuotientAndRest(p, 2 * y + 1, 0);
  }

  lemma {:induction false} BitAdded(s: seq<nat>, t: nat, next: seq<nat>)
    requires IsLimbs(s) && LowZero(s, t + 1) && t / 32 < |s| && next == s[t / 32 := Or(s[t / 32], Pow2(t % 32))]
    ensures IsLimbs(next) && LowZero(next, t) && Value(next) == Value(s) + Pow2(t)
  {
    var j, r := t / 32, t % 32;
    var y := LimbLowZero(s, t);
    NextBit(y, r);
    ValueUpdate(s, j, next[j]);
    TimesSum(s[j], Pow2(r), j);
    ShiftIs(t);
    forall m | 0 <= m < |s| && m < j ensures next[m] == 0 {
      assert m < (t + 1) / 32;
    }
  }

  lemma {:induction false} BitKept(s: seq<nat>, t: nat)
    requires IsLimbs(s) && LowZero(s, t + 1) && t / 32 < |s|
    ensures LowZero(s, t)
  {
    var y := LimbLowZero(s, t);
    NextBit(y, t % 32);
    forall m | 0 <= m < |s| && m < t / 32 ensures s[m] == 0 {
      assert m < (t + 1) / 32;
    }
  }

  // ---- division ----

  /** With the bits of the quotient from t on set in q, num is left. */
  ghost predicate Dividing(n: nat, d: nat, num: nat, q: nat, t: nat) {
    q * d + num == n && num < d * Pow2(t)
  }

  lemma DivideStep(n: nat, d: nat, num: nat, q: nat, t: nat)
    requires Dividing(n, d, num, q, t + 1)
    ensures if num >= d * Pow2(t) then Dividing(n, d, num - d * Pow2(t), q + Pow2(t), t) else Dividing(n, d, num, q, t)
  {
    assert Pow2(t + 1) == 2 * Pow2(t);
    DistributeTwo(q, Pow2(t), d);
    assert Pow2(t) * d == d * Pow2(t);
    Doubled(d, t + 1);
  }

  method CopyOf(a: array<nat>) returns (r: array<nat>)
    ensures fresh(r) && r.Length == a.Length && r[..] == a[..]
  {
    r := new nat[a.Length](i => 0);
    Copy(r, a);
  }

  /** Divide by b, which may be a itself; false if that is impossible. */
  method Divide(a: array<nat>, b: array<nat>) returns (ok: bool)
    requires a.Length == b.Length && IsLimbs(a[..]) && IsLimbs(b[..])
    modifies a
    ensures IsLimbs(a[..]) && (ok <==> Value(old(b[..])) != 0)
    ensures Value(a[..]) == if ok then Quot(Value(old(a[..])), Value(old(b[..]))) else 0
  {
    ghost var n, d := Value(a[..]), Value(b[..]);
    var div := CopyOf(b);
    var num := CopyOf(a);
    Clear(a);
    ValueZeroes(a[..]);
    var numBits := Bits(num);
    var divBits := Bits(div);
    if divBits == 0 {
      return false;
    }
    if divBits > numBits {
      FewerBits(n, d, numBits, divBits);
      return true;
    }
    var shift: nat := numBits - divBits;
    Align(n, d, numBits, divBits, a.Length);
    ShiftLeft(div, shift);
    AllLowZero(a[..], shift + 1);
    LongDivision(a, num, div, shift, n, d);
    return true;
  }

  lemma {:induction false} AllLowZero(s: seq<nat>, t: nat)
    requires forall j :: 0 <= j < |s| ==> s[j] == 0
    ensures LowZero(s, t)
  {
  }

  /** q, num and div during the division of n by d, with the bits below t to come. */
  ghost predicate State(n: nat, d: nat, q: seq<nat>, num: seq<nat>, t: nat) {
    IsLimbs(q) && IsLimbs(num) && LowZero(q, t) && Dividing(n, d, Value(num), Value(q), t)
  }

  method LongDivision(a: array<nat>, num: array<nat>, div: array<nat>, start: nat, ghost n: nat, ghost d: nat)
    requires num.Length == div.Length == a.Length && num != div && num != a && div != a && start < 32 * a.Length
    requires d > 0
    requires IsLimbs(div[..]) && Value(div[..]) == d * Pow2(start) && State(n, d, a[..], num[..], start + 1)
    modifies a, num, div
    ensures IsLimbs(a[..]) && Value(a[..]) == Quot(n, d)
  {
    var shift: int := start;
    while shift >= 0
      invariant -1 <= shift <= start && IsLimbs(div[..]) && State(n, d, a[..], num[..], shift + 1)
      invariant shift >= 0 ==> Value(div[..]) == d * Pow2(shift)
    {
      NextQuotientBit(a, num, div, shift, n, d);
      ShiftRight(div, 1);
      HalfAgain(d, shift);
      shift := shift - 1;
    }
    Divided(n, d, Value(num[..]), Value(a[..]));
  }

  method NextQuotientBit(a: array<nat>, num: array<nat>, div: array<nat>, shift: nat, ghost n: nat, ghost d: nat)
    requires num.Length == div.Length == a.Length && num != div && num != a && div != a && shift < 32 * a.Length
    requires IsLimbs(div[..]) && Value(div[..]) == d * Pow2(shift) && State(n, d, a[..], num[..], shift + 1)
    modifies a, num
    ensures State(n, d, a[..], num[..], shift)
  {
    DivideStep(n, d, Value(num[..]), Value(a[..]), shift);
    var c := CompareTo(num, div);
    ghost var q := a[..];
    if c >= 0 {
      Subtract(num, div);
      a[shift / 32] := Or(a[shift / 32], Pow2(shift % 32));
      assert a[..] == q[shift / 32 := Or(q[shift / 32], Pow2(shift % 32))];
      BitAdded(q, shift, a[..]);
    } else {
      BitKept(q, shift);
    }
  }

  lemma FewerBits(n: nat, d: nat, numBits: nat, divBits: nat)
    requires numBits < divBits && d >= Pow2(divBits - 1) && (if numBits == 0 then n == 0 else n < Pow2(numBits))
    ensures d > 0 && Quot(n, d) == 0
  {
    PowGrows(2, numBits, divBits - 1);
    QuotientAndRest(d, 0, n);
  }

  lemma {:induction false} Align(n: nat, d: nat, numBits: nat, divBits: nat, width: nat)
    requires 0 < divBits <= numBits <= 32 * width && d >= Pow2(divBits - 1) && d < Pow2(divBits) && n < Pow2(numBits)
    ensures Rem(d * Pow2(numBits - divBits), Modulus(width)) == d * Pow2(numBits - divBits)
    ensures n < d * Pow2(numBits - divBits + 1)
  {
    var s := numBits - divBits;
    PowAdd(2, divBits, s);
    PowAdd(2, divBits - 1, s + 1);
    MulOrder(d, Pow2(divBits), Pow2(s));
    ProductMonotone(Pow2(divBits - 1), d, Pow2(s + 1), Pow2(s + 1));
    PowGrows(2, numBits, 32 * width);
    LimbWeight(width);
    QuotientAndRest(Modulus(width), 0, d * Pow2(s));
  }

  lemma HalfAgain(d: nat, shift: nat)
    ensures shift > 0 ==> Quot(d * Pow2(shift), Pow2(1)) == d * Pow2(shift - 1)
  {
    if shift > 0 {
      Doubled(d, shift);
      assert Pow2(1) == 2;
    }
  }

  lemma Divided(n: nat, d: nat, num: nat, q: nat)
    requires d > 0 && Dividing(n, d, num, q, 0)
    ensures q == Quot(n, d)
  {
    assert Pow2(0) == 1;
    QuotientAndRest(d, q, num);
  }
}
