/** Compacting numbers, and what compacting and expanding do to each other. */
module CompactRoundTrips {
  import opened Radix
  import opened BaseUints
  import opened BaseUintsShift
  import opened BaseUintsDivide
  import opened CompactTargets

  // ---- lengths ----

  lemma {:induction false} BitLengthIs(x: nat, n: nat)
    requires if n == 0 then x == 0 else Pow2(n - 1) <= x < Pow2(n)
    ensures BitLength(x) == n
    decreases n
  {
    if n > 0 {
      assert Pow2(n) == 2 * Pow2(n - 1);
      if n > 1 {
        assert Pow2(n - 1) == 2 * Pow2(n - 2);
      }
      BitLengthIs(x / 2, n - 1);
    }
  }

  lemma {:induction false} BitLengthBounds(x: nat)
    requires x > 0
    ensures BitLength(x) > 0 && Pow2(BitLength(x) - 1) <= x < Pow2(BitLength(x))
  {
    if x == 1 {
      assert BitLength(x / 2) == 0 && Pow2(0) == 1 && Pow2(1) == 2;
    } else {
      BitLengthBounds(x / 2);
      var n := BitLength(x / 2);
      assert Pow2(n) == 2 * Pow2(n - 1) && Pow2(n + 1) == 2 * Pow2(n);
    }
  }

  ghost function ByteLength(x: nat): nat {
    (BitLength(x) + 7) / 8
  }

  lemma {:induction false} ByteLengthBounds(x: nat)
    requires x > 0
    ensures ByteLength(x) > 0 && Bytes(ByteLength(x) - 1) <= x < Bytes(ByteLength(x))
  {
    var b, n := BitLength(x), ByteLength(x);
    BitLengthBounds(x);
    BytesAreBits(n, 8);
    BytesAreBits(n - 1, 8);
    PowGrows(2, b, 8 * n);
    PowGrows(2, 8 * (n - 1), b - 1);
  }

  // ---- size and mantissa ----

  /** x * 2^24 / 256^e. */
  ghost function Scaled(x: nat, e: nat): nat {
    Quot(x * 0x1000000, Bytes(e))
  }

  /** A mantissa that has no room left, and keeps clear of the sign. */
  ghost predicate NormalForm(x: nat, e: nat, m: nat) {
    m == Scaled(x, e) && 0x8000 <= m < 0x800000
  }

  ghost function CompactSize(x: nat): nat {
    var n := ByteLength(x); if Scaled(x, n) >= 0x800000 then n + 1 else n
  }

  ghost function CompactMantissa(x: nat): nat {
    Scaled(x, CompactSize(x))
  }

  ghost function Compact(x: nat, negative: bool): nat {
    CompactMantissa(x) + CompactSize(x) * 0x1000000 + (if negative && CompactMantissa(x) != 0 then 0x800000 else 0)
  }

  lemma ThreeBytes(n: nat)
    requires n == 3
    ensures Bytes(n) == 0x1000000
  {
    FewBytes(1, 2);
    BytesAdd(1, 2);
  }

  lemma QuotScale(x: nat, b: nat, k: nat)
    requires b > 0 && k > 0 && b * k > 0
    ensures Quot(x * k, b * k) == Quot(x, b)
  {
    DivMod(x, b);
    var q, r := Quot(x, b), Rem(x, b);
    SumTimes(r, q, b, k);
    MulOrder(r, b, k);
    QuotientAndRest(b * k, q, r * k);
  }

  lemma QuotQuot(x: nat, b: nat, k: nat)
    requires b > 0 && k > 0 && b * k > 0
    ensures Quot(Quot(x, b), k) == Quot(x, b * k)
  {
    DivMod(x, b);
    DivMod(Quot(x, b), k);
    var c, d, r := Quot(Quot(x, b), k), Rem(Quot(x, b), k), Rem(x, b);
    MulOrder(d, k, b);
    DistributeTwo(c * k, d, b);
    assert (c * k) * b == c * (b * k);
    assert k * b == b * k;
    QuotientAndRest(b * k, c, d * b + r);
  }

  /** Few bytes are moved up, many are moved down. */
  lemma {:induction false} ScaledIs(x: nat, e: nat)
    ensures Scaled(x, e) == if e <= 3 then x * Bytes(3 - e) else Quot(x, Bytes(e - 3))
  {
    ThreeBytes(3);
    if e <= 3 {
      BytesAdd(3 - e, e);
      Reassociate(x, Bytes(3 - e), Bytes(e));
      QuotientAndRest(Bytes(e), x * Bytes(3 - e), 0);
    } else {
      BytesAdd(e - 3, 3);
      QuotScale(x, Bytes(e - 3), 0x1000000);
    }
  }

  lemma {:induction false} ScaledNext(x: nat, e: nat, d: nat)
    ensures Scaled(x, e + d) == Quot(Scaled(x, e), Bytes(d))
  {
    BytesAdd(e, d);
    QuotQuot(x * 0x1000000, Bytes(e), Bytes(d));
  }

  lemma {:induction false} FirstMantissa(x: nat)
    requires x > 0
    ensures 0x10000 <= Scaled(x, ByteLength(x)) < 0x1000000
  {
    var n := ByteLength(x);
    ByteLengthBounds(x);
    ThreeBytes(3);
    FewBytes(1, 2);
    BytesAdd(n - 1, 1);
    DivMod(x * 0x1000000, Bytes(n));
    AtLeastTop(x, Bytes(n - 1), Bytes(n));
    SmallQuot(x * 0x1000000, Bytes(n), 0x1000000);
  }

  lemma AtLeastTop(x: nat, low: nat, high: nat)
    requires low <= x && high == low * 256 && low > 0
    ensures Quot(x * 0x1000000, high) >= 0x10000
  {
    DivMod(x * 0x1000000, high);
    var q := Quot(x * 0x1000000, high);
    if q < 0x10000 {
      MulOrder(q, 0x10000, high);
    }
  }

  lemma {:induction false} IsNormal(x: nat)
    requires x > 0
    ensures CompactSize(x) > 0 && NormalForm(x, CompactSize(x), CompactMantissa(x))
  {
    var n := ByteLength(x);
    ByteLengthBounds(x);
    FirstMantissa(x);
    ScaledNext(x, n, 1);
    FewBytes(1, 2);
  }

  /** There is only one such form. */
  lemma {:induction false} NormalIsUnique(x: nat, e: nat, m: nat, e': nat, m': nat)
    requires NormalForm(x, e, m) && NormalForm(x, e', m')
    ensures e == e' && m == m'
  {
    if e < e' {
      Narrower(x, e, e' - e);
    } else if e' < e {
      Narrower(x, e', e - e');
    }
  }

  lemma {:induction false} Narrower(x: nat, e: nat, d: nat)
    requires d > 0 && Scaled(x, e) < 0x800000
    ensures Scaled(x, e + d) < 0x8000
  {
    ScaledNext(x, e, d);
    FewBytes(1, 2);
    PowGrows(256, 1, d);
    ProductMonotone(256, Bytes(d), 0x8000, 0x8000);
    SmallQuot(Scaled(x, e), Bytes(d), 0x8000);
  }

  // ---- expanding what was compacted ----

  lemma Parts(m: nat, e: nat, sign: nat, c: nat)
    requires m < 0x800000 && sign <= 1 && c == m + e * 0x1000000 + sign * 0x800000
    ensures Size(c) == e && Mantissa(c) == m && (SignSet(c) <==> sign == 1)
  {
  }

  lemma {:induction false} CompactOfZero()
    ensures CompactMantissa(0) == 0 && CompactSize(0) == 0
  {
    QuotientAndRest(Bytes(0), 0, 0);
  }

  lemma {:induction false} CompactParts(x: nat, negative: bool)
    ensures var c := Compact(x, negative);
            Size(c) == CompactSize(x) && Mantissa(c) == CompactMantissa(x)
                && (SignSet(c) <==> negative && CompactMantissa(x) != 0)
  {
    if x == 0 {
      CompactOfZero();
    } else {
      IsNormal(x);
    }
    Parts(CompactMantissa(x), CompactSize(x), if negative
          && CompactMantissa(x) != 0 then 1 else 0, Compact(x, negative));
  }

  /** Compacting loses less than one part in 2^15, and never rounds up. */
  lemma {:induction false} RoundsDown(x: nat, negative: bool)
    requires x < Modulus(WIDTH)
    ensures var c := Compact(x, negative);
            && !Overflows(c) && (Negative(c) <==> negative && x > 0)
            && Target(c) <= x && (x > 0 ==> (x - Target(c)) * 0x8000 < x)
  {
    var c := Compact(x, negative);
    CompactParts(x, negative);
    if x == 0 {
      CompactOfZero();
      QuotientAndRest(Bytes(3), 0, 0);
      SmallTarget(c);
    } else {
      IsNormal(x);
      ScaledIs(x, CompactSize(x));
      FullTargetIs(x, c);
      QuotientAndRest(Modulus(WIDTH), 0, FullTarget(c));
    }
  }

  lemma {:induction false} FullTargetIs(x: nat, c: nat)
    requires x > 0 && NormalForm(x, Size(c), Mantissa(c))
    ensures Word(c) > 0 && FullTarget(c) <= x && (x - FullTarget(c)) * 0x8000 < x
    ensures (Size(c) <= 3 ==> FullTarget(c) == x)
  {
    var e, m := Size(c), Mantissa(c);
    ScaledIs(x, e);
    if e <= 3 {
      QuotientAndRest(Bytes(3 - e), x, 0);
    } else {
      DivMod(x, Bytes(e - 3));
      SmallLoss(x, m, Bytes(e - 3));
    }
  }

  lemma SmallLoss(x: nat, m: nat, p: nat)
    requires p > 0 && m >= 0x8000 && m * p <= x < m * p + p
    ensures (x - m * p) * 0x8000 < x
  {
    ProductMonotone(0x8000, m, p, p);
  }

  // ---- compacting what was expanded ----

  /** A mantissa with no byte to spare, and no digits after the point. */
  ghost predicate Canonical(c: nat) {
    && !Overflows(c)
    && if Mantissa(c) == 0 then c == 0
       else Mantissa(c) >= 0x8000 && (Size(c) < 3 ==> Rem(Mantissa(c), Bytes(3 - Size(c))) == 0)
  }

  /** Exactly the canonical numbers are what their targets compact to. */
  lemma {:induction false} CompactExpanded(c: nat)
    ensures Compact(Target(c), Negative(c)) == c <==> Canonical(c)
  {
    var x := Target(c);
    if Canonical(c) {
      CanonicalComesBack(c);
    }
    if Compact(x, Negative(c)) == c {
      CompactIsCanonical(x, Negative(c));
    }
  }

  lemma {:induction false} CompactIsCanonical(x: nat, negative: bool)
    requires x < Modulus(WIDTH)
    ensures Canonical(Compact(x, negative))
  {
    RoundsDown(x, negative);
    CompactParts(x, negative);
    if x == 0 {
      CompactOfZero();
    } else {
      var e := CompactSize(x);
      IsNormal(x);
      ScaledIs(x, e);
      if e < 3 {
        QuotientAndRest(Bytes(3 - e), x, 0);
      }
    }
  }

  lemma {:induction false} CanonicalComesBack(c: nat)
    requires Canonical(c)
    ensures Compact(Target(c), Negative(c)) == c
  {
    var x, e, m := Target(c), Size(c), Mantissa(c);
    NotLargest(c);
    CompactParts(x, Negative(c));
    if m == 0 {
      CompactOfZero();
      QuotientAndRest(Bytes(3), 0, 0);
    } else {
      CanonicalIsNormal(c);
      IsNormal(x);
      NormalIsUnique(x, e, m, CompactSize(x), CompactMantissa(x));
      SameParts(c, Compact(x, Negative(c)));
    }
  }

  lemma SameParts(c: nat, c': nat)
    requires Size(c) == Size(c') && Mantissa(c) == Mantissa(c') && SignSet(c) == SignSet(c')
    ensures c == c'
  {
    Composed(c);
    Composed(c');
  }

  lemma Composed(c: nat)
    ensures c == Size(c) * 0x1000000 + (if SignSet(c) then 0x800000 else 0) + Mantissa(c)
  {
    var h := c / 0x800000;
    assert h == 2 * (h / 2) + h % 2;
    assert h / 2 == c / 0x1000000;
  }

  lemma {:induction false} CanonicalIsNormal(c: nat)
    requires Mantissa(c) >= 0x8000 && (Size(c) < 3 ==> Rem(Mantissa(c), Bytes(3 - Size(c))) == 0)
    ensures FullTarget(c) > 0 && Word(c) > 0 && NormalForm(FullTarget(c), Size(c), Mantissa(c))
  {
    var e, m := Size(c), Mantissa(c);
    ScaledIs(FullTarget(c), e);
    if e <= 3 {
      DivMod(m, Bytes(3 - e));
      if e == 3 {
        assert Bytes(0) == 1;
      }
    } else {
      QuotientAndRest(Bytes(e - 3), m, 0);
      ProductMonotone(1, m, Bytes(e - 3), Bytes(e - 3));
    }
  }

  // ---- the operation ----

  method GetLow64(a: array<nat>) returns (r: nat)
    requires a.Length >= 2 && IsLimbs(a[..])
    ensures r == Rem(Value(a[..]), M * M)
  {
    r := a[0] + a[1] * M;
    LowWord(a[..]);
  }

  lemma {:induction false} LowWord(s: seq<nat>)
    requires |s| >= 2 && IsLimbs(s)
    ensures s[0] + s[1] * M == Rem(Value(s), M * M)
  {
    assert s == s[..2] + s[2..];
    ValueConcat(s[..2], s[2..]);
    LowTwo(s);
    assert Pow(M, 2) == M * Pow(M, 1) && Pow(M, 1) == M * Pow(M, 0);
    QuotientAndRest(M * M, Value(s[2..]), s[0] + s[1] * M);
  }

  /** Setting a bit that is not set adds it. */
  lemma {:induction false} OrBit(c: nat, n: nat)
    requires !BitSet(c, n)
    ensures Or(c, Pow2(n)) == c + Pow2(n)
    decreases n
  {
    if n == 0 {
      assert Pow2(0) == 1;
      if c > 0 {
        assert Or(c, 1) == 2 * Or(c / 2, 0) + 1;
      }
    } else if c > 0 {
      assert Pow2(n) == 2 * Pow2(n - 1);
      QuotQuot(c, 2, Pow2(n - 1));
      OrBit(c / 2, n - 1);
      HalfOr(c, Pow2(n - 1));
    }
  }

  lemma {:induction false} HalfOr(c: nat, p: nat)
    requires c > 0 && p > 0 && Or(c / 2, p) == c / 2 + p
    ensures Or(c, 2 * p) == c + 2 * p
  {
    assert (2 * p) / 2 == p && (2 * p) % 2 == 0;
  }

  lemma {:induction false} BitIs(a: nat, b: nat, c: nat)
    requires a == 8 && b == 23 && c == 24
    ensures Pow2(b) == 0x800000 && Pow2(c) == 0x1000000
  {
    assert Pow(2, a) == 256;
    PowAdd(2, a, a);
    PowAdd(2, 2 * a, a);
    assert Pow2(c) == 2 * Pow2(b);
  }

  /** The first three bytes, before room is made for the sign. */
  method TopBytes(a: array<nat>, size: nat) returns (r: nat)
    requires a.Length == WIDTH && IsLimbs(a[..]) && size == ByteLength(Value(a[..]))
    requires Scaled(Value(a[..]), size) < 0x1000000
    ensures r == Scaled(Value(a[..]), size)
  {
    ScaledIs(Value(a[..]), size);
    if size <= 3 {
      r := MovedUp(a, 3 - size);
    } else {
      r := MovedDown(a, size - 3);
    }
  }

  method MovedUp(a: array<nat>, n: nat) returns (r: nat)
    requires a.Length == WIDTH && IsLimbs(a[..]) && Value(a[..]) * Bytes(n) < 0x1000000
    ensures r == Value(a[..]) * Bytes(n)
  {
    BytesAreBits(n, 8);
    var low := GetLow64(a);
    FewLow(Value(a[..]), Bytes(n));
    var moved: nat := low * Pow2(8 * n);
    r := Rem(moved, M);
  }

  method MovedDown(a: array<nat>, n: nat) returns (r: nat)
    requires a.Length == WIDTH && IsLimbs(a[..]) && Quot(Value(a[..]), Bytes(n)) < 0x1000000
    ensures r == Quot(Value(a[..]), Bytes(n))
  {
    BytesAreBits(n, 8);
    var bn := CopyOf(a);
    ShiftRight(bn, 8 * n);
    var low := GetLow64(bn);
    FewLow(Value(bn[..]), 1);
    r := Rem(low, M);
  }

  lemma FewLow(x: nat, p: nat)
    requires p > 0 && x * p < 0x1000000
    ensures Rem(x, M * M) == x && Rem(x * p, M) == x * p
  {
    ProductMonotone(x, x, 1, p);
  }

  method GetCompact(a: array<nat>, negative: bool) returns (c: nat)
    requires a.Length == WIDTH && IsLimbs(a[..])
    ensures c == Compact(Value(a[..]), negative) && c < M
  {
    ghost var x := Value(a[..]);
    var bits := Bits(a);
    BitLengthIs(x, bits);
    var size := (bits + 7) / 8;
    if x == 0 {
      CompactOfZero();
    } else {
      FirstMantissa(x);
      IsNormal(x);
      ScaledNext(x, size, 1);
      FewBytes(1, 2);
    }
    var m := TopBytes(a, size);
    BitIs(8, 23, 24);
    TopBit(m, 23);
    if BitSet(m, 23) {
      m := Quot(m, 256);
      size := size + 1;
    }
    assert m < 0x800000 && size < 256;
    c := Sealed(m, size, negative);
  }

  method Sealed(m: nat, size: nat, negative: bool) returns (c: nat)
    requires m < 0x800000 && size < 128
    ensures c == m + size * 0x1000000 + (if negative && m != 0 then 0x800000 else 0) < M
  {
    BitIs(8, 23, 24);
    OrIsSum(m, size, 24);
    c := Or(m, size * Pow2(24));
    if negative && c % 0x800000 != 0 {
      assert !BitSet(c, 23);
      OrBit(c, 23);
      c := Or(c, Pow2(23));
    }
  }
}
