/** The compact form of 256-bit targets, and the work a target stands for. */
module CompactTargets {
  import opened Radix
  import opened BaseUints
  import opened BaseUintsMultiply
  import opened BaseUintsShift
  import opened BaseUintsDivide

  const WIDTH: nat := 8

  // ---- the parts of a compact number ----

  /** A number of bytes, a sign and a mantissa of 23 bits. */
  function Size(c: nat): nat {
    c / 0x1000000
  }

  function Mantissa(c: nat): nat {
    c % 0x800000
  }

  predicate SignSet(c: nat) {
    c / 0x800000 % 2 == 1
  }

  /** The mantissa as a number of that many bytes. */
  function Word(c: nat): nat {
    if Size(c) <= 3 then Quot(Mantissa(c), Bytes(3 - Size(c))) else Mantissa(c)
  }

  function Bytes(n: nat): (r: nat)
    ensures r == Pow(256, n) && r > 0
  {
    PowPositive(256, n);
    Pow(256, n)
  }

  /** mantissa * 256^(size - 3), without the digits after the point. */
  ghost function FullTarget(c: nat): nat {
    if Size(c) <= 3 then Word(c) else Mantissa(c) * Bytes(Size(c) - 3)
  }

  ghost predicate Overflows(c: nat) {
    FullTarget(c) >= Modulus(WIDTH)
  }

  ghost predicate Negative(c: nat) {
    Word(c) != 0 && SignSet(c)
  }

  // ---- powers of 256 ----

  lemma {:induction false} BytesAreBits(n: nat, e: nat)
    requires e == 8
    ensures Bytes(n) == Pow2(8 * n)
  {
    assert Pow(2, e) == 256;
    PowPow(2, e, n);
  }

  lemma {:induction false} WidthInBytes(n: nat)
    requires n == WIDTH
    ensures Modulus(n) == Bytes(4 * n)
  {
    LimbWeight(n);
    BytesAreBits(4 * n, 8);
  }

  lemma {:induction false} BytesAdd(a: nat, b: nat)
    ensures Bytes(a + b) == Bytes(a) * Bytes(b)
  {
    PowAdd(256, a, b);
  }

  lemma FewBytes(a: nat, b: nat)
    requires a == 1 && b == 2
    ensures Bytes(a) == 256 && Bytes(b) == 65536
  {
  }

  // ---- when it does not fit ----

  /** Too many bytes, or so many that the mantissa does not fit. */
  predicate TooLarge(word: nat, size: nat) {
    word != 0 && (size > 34 || (word > 0xff && size > 33) || (word > 0xffff && size > 32))
  }

  /** The flag says exactly when the number does not fit. */
  lemma {:induction false} TooLargeIsOverflow(c: nat)
    ensures TooLarge(Word(c), Size(c)) <==> Overflows(c)
  {
    var size, word, k := Size(c), Word(c), 4 * WIDTH;
    WidthInBytes(WIDTH);
    if size <= 3 {
      WordFits(c);
      BytesAtLeast(3, k);
    } else {
      LargeWord(word, size, k);
    }
  }

  lemma WordFits(c: nat)
    ensures Word(c) < 0x800000
  {
  }

  lemma {:induction false} BytesAtLeast(a: nat, k: nat)
    requires a == 3 <= k
    ensures Bytes(k) >= 0x1000000
  {
    PowGrows(256, a, k);
    FewBytes(1, 2);
    BytesAdd(1, 2);
  }

  lemma {:induction false} LargeWord(word: nat, size: nat, k: nat)
    requires word < 0x800000 && size > 3 && k == 32
    ensures TooLarge(word, size) <==> word * Bytes(size - 3) >= Bytes(k)
  {
    FewBytes(1, 2);
    if size > 34 {
      PowGrows(256, k, size - 3);
      if word > 0 {
        ProductMonotone(1, word, Bytes(size - 3), Bytes(size - 3));
      }
    } else if size > 32 {
      var d := k + 3 - size;
      BytesAdd(d, size - 3);
      Compare(word, Bytes(d), Bytes(size - 3));
    } else {
      BytesAdd(3, k - 3);
      BytesAtLeast(3, 3);
      PowGrows(256, size - 3, k - 3);
      ProductMonotone(word, 0x800000, Bytes(size - 3), Bytes(k - 3));
    }
  }

  lemma Compare(w: nat, b: nat, p: nat)
    requires p > 0
    ensures w * p >= b * p <==> w >= b
  {
    if w >= b {
      ProductMonotone(b, w, p, p);
    } else {
      MulOrder(w, b, p);
    }
  }

  // ---- expanding ----

  /** Set all limbs from a 64-bit number. */
  method SetWord(a: array<nat>, b: nat)
    requires a.Length >= 2 && b < M * M
    modifies a
    ensures IsLimbs(a[..]) && Value(a[..]) == b
  {
    a[0], a[1] := Rem(b, M), Quot(b, M);
    for i := 2 to a.Length
      invariant a[0] == Rem(b, M) && a[1] == Quot(b, M) && forall j :: 2 <= j < i ==> a[j] == 0
    {
      a[i] := 0;
    }
    UpperHalf(b);
    TwoLimbs(a[..], b);
  }

  lemma {:induction false} TwoLimbs(s: seq<nat>, b: nat)
    requires |s| >= 2 && s[0] == Rem(b, M) && s[1] == Quot(b, M) && forall j :: 2 <= j < |s| ==> s[j] == 0
    ensures Value(s) == b
  {
    ZeroTop(s, 2);
    LowTwo(s);
    DivMod(b, M);
  }

  lemma {:induction false} LowTwo(s: seq<nat>)
    requires |s| >= 2
    ensures Value(s[..2]) == s[0] + s[1] * M
  {
    ValuePrefix(s, 1);
    ValuePrefix(s, 0);
    assert s[..0] == [];
    assert Times(s[0], 0) == s[0];
    assert Pow(M, 1) == M * Pow(M, 0);
  }

  /** What a compact number expands to. */
  ghost function Target(c: nat): nat {
    Rem(FullTarget(c), Modulus(WIDTH))
  }

  method SetCompact(a: array<nat>, c: nat) returns (negative: bool, overflow: bool)
    requires a.Length == WIDTH && c < M
    modifies a
    ensures IsLimbs(a[..]) && Value(a[..]) == Target(c)
    ensures negative == Negative(c) && overflow == Overflows(c)
  {
    var size, word := Size(c), Mantissa(c);
    if size <= 3 {
      BytesAreBits(3 - size, 8);
      word := Quot(word, Pow2(8 * (3 - size)));
      WordFits(c);
      SetWord(a, word);
      SmallTarget(c);
    } else {
      BytesAreBits(size - 3, 8);
      SetWord(a, word);
      ShiftLeft(a, 8 * (size - 3));
    }
    negative := word != 0 && SignSet(c);
    overflow := TooLarge(word, size);
    TooLargeIsOverflow(c);
  }

  lemma {:induction false} SmallTarget(c: nat)
    requires Size(c) <= 3
    ensures Target(c) == Word(c)
  {
    TooLargeIsOverflow(c);
    QuotientAndRest(Modulus(WIDTH), 0, Word(c));
  }

  // ---- the work of a target ----

  /** The target of a compact number is never the largest number. */
  lemma {:induction false} NotLargest(c: nat)
    requires !Overflows(c)
    ensures Target(c) == FullTarget(c) && Target(c) + 1 < Modulus(WIDTH)
  {
    var m := Modulus(WIDTH);
    QuotientAndRest(m, 0, FullTarget(c));
    WidthInBytes(WIDTH);
    BytesAtLeast(3, 4 * WIDTH);
    EvenBytes(4 * WIDTH);
    if Size(c) <= 3 {
      WordFits(c);
    } else {
      EvenBytes(Size(c) - 3);
      EvenProduct(Mantissa(c), Bytes(Size(c) - 3));
    }
  }

  lemma EvenBytes(n: nat)
    requires n > 0
    ensures Bytes(n) % 2 == 0
  {
    assert Pow(256, n) == 256 * Pow(256, n - 1);
  }

  lemma EvenProduct(a: nat, b: nat)
    requires b % 2 == 0
    ensures (a * b) % 2 == 0
  {
    assert a * b == 2 * (a * (b / 2));
  }

  /** The expected number of hashes to meet a target. */
  ghost function Work(c: nat): nat {
    if Negative(c) || Overflows(c) || Target(c) == 0 then 0 else Quot(Modulus(WIDTH), Target(c) + 1)
  }

  method GetBlockProof(c: nat) returns (r: array<nat>)
    requires c < M
    ensures fresh(r) && r.Length == WIDTH && IsLimbs(r[..]) && Value(r[..]) == Work(c)
  {
    var target := new nat[WIDTH](i => 0);
    var negative, overflow := SetCompact(target, c);
    var zero := EqualTo(target, 0);
    if negative || overflow || zero {
      r := new nat[WIDTH](i => 0);
      ValueZeroes(r[..]);
      return;
    }
    NotLargest(c);
    r := WorkOf(target);
  }

  method WorkOf(target: array<nat>) returns (r: array<nat>)
    requires target.Length == WIDTH && IsLimbs(target[..]) && 0 < Value(target[..])
    requires Value(target[..]) + 1 < Modulus(WIDTH)
    modifies target
    ensures fresh(r) && r.Length == WIDTH && IsLimbs(r[..])
    ensures Value(r[..]) == Quot(Modulus(WIDTH), Value(old(target[..])) + 1)
  {
    ghost var m, t := Modulus(WIDTH), Value(target[..]);
    WorkIs(t, m);
    var one := new nat[WIDTH](i => 0);
    SetWord(one, 1);
    r := Complement(target);
    Add(target, one);
    QuotientAndRest(m, 0, t + 1);
    var ok := Divide(r, target);
    Add(r, one);
    QuotientAndRest(m, 0, Quot(m, t + 1));
  }

  /** Whether a number is equal to one of 64 bits. */
  method EqualTo(a: array<nat>, b: nat) returns (r: bool)
    requires a.Length >= 2 && IsLimbs(a[..]) && b < M * M
    ensures r <==> Value(a[..]) == b
  {
    var i: nat := a.Length;
    while i > 2
      invariant 2 <= i <= a.Length && forall j :: i <= j < a.Length ==> a[j] == 0
    {
      i := i - 1;
      if a[i] != 0 {
        HighLimb(a[..], i);
        return false;
      }
    }
    ZeroTop(a[..], 2);
    LowTwo(a[..]);
    assert a[..][0] < M;
    QuotientAndRest(M, a[1], a[0]);
    DivMod(b, M);
    if a[1] != Quot(b, M) {
      return false;
    }
    return a[0] == Rem(b, M);
  }

  lemma {:induction false} HighLimb(s: seq<nat>, i: nat)
    requires 2 <= i < |s| && s[i] > 0
    ensures Value(s) >= M * M
  {
    assert s == s[..i + 1] + s[i + 1..];
    ValueConcat(s[..i + 1], s[i + 1..]);
    ValuePrefix(s, i);
    PowGrows(M, 2, i);
    assert Pow(M, 2) == M * Pow(M, 1) && Pow(M, 1) == M * Pow(M, 0);
    ProductMonotone(1, s[i], Pow(M, i), Pow(M, i));
  }

  /** Without the power of two at hand: the identity the work is computed with. */
  lemma WorkIs(t: nat, m: nat)
    requires 0 < t && t + 1 < m
    ensures Quot(m - 1 - t, t + 1) + 1 == Quot(m, t + 1) < m
  {
    DivMod(m - 1 - t, t + 1);
    var q, r := Quot(m - 1 - t, t + 1), Rem(m - 1 - t, t + 1);
    DistributeTwo(q, 1, t + 1);
    QuotientAndRest(t + 1, q + 1, r);
    DivMod(m, t + 1);
    ProductMonotone(q + 1, q + 1, 2, t + 1);
  }
}
