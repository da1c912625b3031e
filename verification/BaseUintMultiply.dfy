/** Multiplication of integers of 32-bit limbs. */
module BaseUintsMultiply {
  import opened Radix
  import opened BaseUints

  /** The product of limbs, with what is already there and what is carried, fits in 64 bits and its upper half in 32. */
  lemma ProductFits(carry: nat, x: nat, b: nat, d: nat)
    requires carry < M && x < M && b < M && d < M
    ensures carry + x + b * d < M * M && Quot(carry + x + b * d, M) < M
  {
    ProductMonotone(b, M - 1, d, M - 1);
    UpperHalf(carry + x + b * d);
  }

  lemma UpperHalf(n: nat)
    requires n < M * M
    ensures Quot(n, M) < M
  {
  }

  /** x and y join the carry in place k. */
  lemma JoinCarry(v: nat, carry: nat, total: nat, x: nat, y: nat, k: nat)
    requires v + Times(carry, k) == total
    ensures var n := carry + x + y;
            v + Times(Rem(n, M), k) + Times(Quot(n, M), k + 1) == total + Times(x, k) + Times(y, k)
  {
    CarryOn(carry + x + y, k);
    TimesSum(carry, x + y, k);
    TimesSum(x, y, k);
  }

  // ---- by one limb ----

  ghost predicate Scaling(a: seq<nat>, b: nat, now: seq<nat>, i: nat, carry: nat) {
    && |a| == |now| && i <= |a| && IsLimbs(now) && SameFrom(now, a, i) && carry < M
    && Value(now[..i]) + Times(carry, i) == Value(a[..i]) * b
  }

  lemma {:induction false} ScaleStep(a: seq<nat>, b: nat, now: seq<nat>, i: nat, carry: nat)
    requires i < |a| && Scaling(a, b, now, i, carry) && b < M
    ensures var n := carry + b * now[i]; Scaling(a, b, now[i := Rem(n, M)], i + 1, Quot(n, M))
  {
    var y := b * now[i];
    var next := now[i := Rem(carry + y, M)];
    ProductFits(carry, 0, b, now[i]);
    ScaleValue(a, b, now, i, carry, next, y);
  }

  lemma {:induction false} ScaleValue(a: seq<nat>, b: nat, now: seq<nat>, i: nat, carry: nat, next: seq<nat>, y: nat)
    requires i < |a| && Scaling(a, b, now, i, carry) && y == b * now[i] && next == now[i := Rem(carry + y, M)]
    ensures Value(next[..i + 1]) + Times(Quot(carry + y, M), i + 1) == Value(a[..i + 1]) * b
  {
    ValuePrefix(a, i);
    ValuePrefix(next, i);
    assert next[..i] == now[..i];
    JoinCarry(Value(now[..i]), carry, Value(a[..i]) * b, 0, y, i);
    Spread(Value(a[..i]), a[i], Pow(M, i), b);
  }

  lemma Spread(v: nat, d: nat, p: nat, b: nat)
    ensures (v + d * p) * b == v * b + (b * d) * p
  {
    assert (d * p) * b == (b * d) * p;
  }

  /** Multiply by one limb. */
  method Scale(a: array<nat>, b: nat)
    requires IsLimbs(a[..]) && b < M
    modifies a
    ensures IsLimbs(a[..]) && Value(a[..]) == Rem(Value(old(a[..])) * b, Modulus(a.Length))
  {
    ghost var a0 := a[..];
    var carry: nat := 0;
    for i := 0 to a.Length
      invariant Scaling(a0, b, a[..], i, carry)
    {
      ghost var now := a[..];
      ScaleStep(a0, b, now, i, carry);
      var n: nat := carry + b * a[i];
      a[i] := Rem(n, M);
      carry := Quot(n, M);
      assert a[..] == now[i := Rem(n, M)];
    }
    ScaleDone(a0, b, a[..], carry);
  }

  lemma {:induction false} ScaleDone(a: seq<nat>, b: nat, now: seq<nat>, carry: nat)
    requires Scaling(a, b, now, |a|, carry)
    ensures Value(now) == Rem(Value(a) * b, Modulus(|a|))
  {
    assert now[..|a|] == now && a[..|a|] == a;
    Wraps(now, carry, Value(a) * b);
  }

  // ---- by another number ----

  /** Of d times b, in place j, the limbs before i have been added to acc. */
  ghost predicate AddingRow(acc: seq<nat>, d: nat, b: seq<nat>, j: nat, now: seq<nat>, i: nat, carry: nat) {
    && |acc| == |b| == |now| && i + j <= |acc| && IsLimbs(now) && SameFrom(now, acc, i + j) && carry < M
    && Value(now[..i + j]) + Times(carry, i + j) == Value(acc[..i + j]) + Times(d * Value(b[..i]), j)
  }

  lemma {:induction false} RowStep(acc: seq<nat>, d: nat, b: seq<nat>, j: nat, now: seq<nat>, i: nat, carry: nat)
    requires i + j < |acc| && AddingRow(acc, d, b, j, now, i, carry) && d < M && b[i] < M
    ensures var n := carry + now[i + j] + d * b[i]; AddingRow(acc, d, b, j, now[i + j := Rem(n, M)], i + 1, Quot(n, M))
  {
    var k := i + j;
    var y := d * b[i];
    var n := carry + now[k] + y;
    var next := now[k := Rem(n, M)];
    ProductFits(carry, now[k], d, b[i]);
    RowValue(acc, d, b, j, now, i, carry, next, y);
  }

  lemma {:induction false} RowValue(acc: seq<nat>, d: nat, b: seq<nat>, j: nat, now: seq<nat>, i: nat, carry: nat,
                                    next: seq<nat>, y: nat)
    requires i + j < |acc| && AddingRow(acc, d, b, j, now, i, carry) && y == d * b[i]
    requires next == now[i + j := Rem(carry + now[i + j] + y, M)]
    ensures Value(next[..i + 1 + j]) + Times(Quot(carry + now[i + j] + y, M), i + 1 + j)
         == Value(acc[..i + 1 + j]) + Times(d * Value(b[..i + 1]), j)
  {
    var k := i + j;
    ValuePrefix(acc, k);
    ValuePrefix(next, k);
    ValuePrefix(b, i);
    assert next[..k] == now[..k];
    JoinDigit(Value(now[..k]), carry, Value(acc[..k]), now[k], d, Value(b[..i]), b[i], y, i, j);
  }

  lemma JoinDigit(v: nat, carry: nat, acc: nat, x: nat, d: nat, w: nat, e: nat, y: nat, i: nat, j: nat)
    requires v + Times(carry, i + j) == acc + Times(d * w, j) && y == d * e
    ensures var n := carry + x + y;
            v + Times(Rem(n, M), i + j) + Times(Quot(n, M), i + j + 1)
                == acc + Times(x, i + j) + Times(d * (w + Times(e, i)), j)
  {
    JoinCarry(v, carry, acc + Times(d * w, j), x, y, i + j);
    RowPart(d, w, e, i, j);
  }

  lemma RowPart(d: nat, v: nat, x: nat, i: nat, j: nat)
    ensures Times(d * (v + Times(x, i)), j) == Times(d * v, j) + Times(d * x, i + j)
  {
    PowAdd(M, i, j);
    var p, q := Pow(M, i), Pow(M, j);
    assert d * (v + x * p) == d * v + d * (x * p);
    Reassociate(d, x, p);
    SumTimes(d * v, d * x, p, q);
  }

  /** Add d times b, in place j, to acc. */
  method AddRow(acc: array<nat>, d: nat, b: array<nat>, j: nat) returns (ghost carry: nat)
    requires acc.Length == b.Length && acc != b && j <= acc.Length && IsLimbs(acc[..]) && IsLimbs(b[..]) && d < M
    modifies acc
    ensures RowAdded(old(acc[..]), d, b[..], j, acc[..], carry)
  {
    ghost var acc0 := acc[..];
    var c: nat, i: nat := 0, 0;
    while i + j < acc.Length
      invariant i + j <= acc.Length && AddingRow(acc0, d, b[..], j, acc[..], i, c)
    {
      ghost var now := acc[..];
      assert b[..][i] < M;
      RowStep(acc0, d, b[..], j, now, i, c);
      var n: nat := c + acc[i + j] + d * b[i];
      acc[i + j] := Rem(n, M);
      c := Quot(n, M);
      assert acc[..] == now[i + j := Rem(n, M)];
      i := i + 1;
    }
    carry := c;
    assert acc[..][..i + j] == acc[..] && acc0[..i + j] == acc0;
  }

  ghost predicate RowAdded(acc: seq<nat>, d: nat, b: seq<nat>, j: nat, next: seq<nat>, carry: nat) {
    && |next| == |acc| == |b| && j <= |acc| && IsLimbs(next)
    && Value(next) + Times(carry, |acc|) == Value(acc) + Times(d * Value(b[..|acc| - j]), j)
  }

  /** The product of the limbs before j of a and b, up to multiples of the modulus. */
  ghost predicate Multiplying(a: seq<nat>, b: seq<nat>, acc: seq<nat>, j: nat, over: nat) {
    && |a| == |b| == |acc| && j <= |a| && IsLimbs(acc) && Value(acc) + Times(over, |a|) == Value(a[..j]) * Value(b)
  }

  lemma {:induction false} MultiplyStep(a: seq<nat>, b: seq<nat>, acc: seq<nat>, next: seq<nat>, j: nat, over: nat,
                                        carry: nat) returns (over': nat)
    requires Multiplying(a, b, acc, j, over) && j < |a| && RowAdded(acc, a[j], b, j, next, carry)
    ensures Multiplying(a, b, next, j + 1, over')
  {
    var n, k := |a|, |a| - j;
    assert b == b[..k] + b[k..];
    ValueConcat(b[..k], b[k..]);
    ValuePrefix(a, j);
    over' := over + carry + a[j] * Value(b[k..]);
    JoinRow(Value(acc), over, Value(a[..j]), a[j], Value(b[..k]), Value(b[k..]), j, k, Value(next), carry);
  }

  lemma JoinRow(acc: nat, over: nat, v: nat, d: nat, low: nat, high: nat, j: nat, k: nat, next: nat, carry: nat)
    requires acc + Times(over, k + j) == v * (low + Times(high, k))
    requires next + Times(carry, k + j) == acc + Times(d * low, j)
    ensures next + Times(over + carry + d * high, k + j) == (v + Times(d, j)) * (low + Times(high, k))
  {
    Rows(v, d, low, high, j, k);
    TimesSum(over + carry, d * high, k + j);
    TimesSum(over, carry, k + j);
  }

  lemma Rows(v: nat, d: nat, low: nat, high: nat, j: nat, k: nat)
    ensures var w := low + Times(high, k);
            (v + Times(d, j)) * w == v * w + Times(d * low, j) + Times(d * high, k + j)
  {
    var w := low + Times(high, k);
    Spread(v, d, Pow(M, j), w);
    RowPart(d, low, high, k, j);
    ProductInPlace(d, w, j);
  }

  lemma ProductInPlace(d: nat, v: nat, j: nat)
    ensures (v * d) * Pow(M, j) == Times(d * v, j)
  {
  }

  /** Multiply by b, which may be a itself. */
  method Multiply(a: array<nat>, b: array<nat>)
    requires a.Length == b.Length && IsLimbs(a[..]) && IsLimbs(b[..])
    modifies a
    ensures IsLimbs(a[..]) && Value(a[..]) == Rem(Value(old(a[..])) * Value(old(b[..])), Modulus(a.Length))
  {
    var n := a.Length;
    var acc := new nat[n](i => 0);
    ValueZeroes(acc[..]);
    ghost var a0, b0, over: nat := a[..], b[..], 0;
    for j := 0 to n
      invariant a[..] == a0 && b[..] == b0 && Multiplying(a0, b0, acc[..], j, over)
    {
      ghost var now := acc[..];
      assert a[j] == a0[j];
      ghost var carry := AddRow(acc, a[j], b, j);
      over := MultiplyStep(a0, b0, now, acc[..], j, over, carry);
    }
    MultiplyDone(a0, b0, acc[..], over);
    Copy(a, acc);
  }

  lemma {:induction false} MultiplyDone(a: seq<nat>, b: seq<nat>, acc: seq<nat>, over: nat)
    requires Multiplying(a, b, acc, |a|, over)
    ensures Value(acc) == Rem(Value(a) * Value(b), Modulus(|a|))
  {
    assert a[..|a|] == a;
    Wraps(acc, over, Value(a) * Value(b));
  }

  method Copy(a: array<nat>, from: array<nat>)
    requires a.Length == from.Length && a != from
    modifies a
    ensures a[..] == from[..]
  {
    for i := 0 to a.Length
      invariant forall j :: 0 <= j < i ==> a[j] == from[j]
    {
      a[i] := from[i];
    }
  }
}
