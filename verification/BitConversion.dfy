/** Conversion between bases that are powers of two. */
module BitConversions {
  import opened Radix

  /** input, as digits of from bits, is out, as digits of to bits, with zero bits appended to complete the last
      digit. */
  ghost predicate Padded(from: nat, to: nat, input: seq<nat>, out: seq<nat>) {
    && IsDigits(Pow(2, to), out)
    && from * |input| <= to * |out| < from * |input| + to
    && Val(Pow(2, to), out) == Val(Pow(2, from), input) * Pow(2, to * |out| - from * |input|)
  }

  /** The same, with the bits that do not complete a digit dropped. */
  ghost predicate Truncated(from: nat, to: nat, input: seq<nat>, out: seq<nat>) {
    && IsDigits(Pow(2, to), out)
    && to * |out| <= from * |input| < to * |out| + to
    && Val(Pow(2, to), out) == Quot(Val(Pow(2, from), input), Pow2(from * |input| - to * |out|))
  }

  ghost predicate NothingDropped(from: nat, to: nat, input: seq<nat>, out: seq<nat>) {
    && to * |out| <= from * |input| < to * |out| + from
    && Rem(Val(Pow(2, from), input), Pow2(from * |input| - to * |out|)) == 0
  }

  // ---- arithmetic ----

  lemma SplitRem(a: nat, p: nat, q: nat)
    requires p > 0 && q > 0 && p * q > 0
    ensures Rem(a, p * q) == Rem(Quot(a, p), q) * p + Rem(a, p)
  {
    DivMod(a, p);
    DivMod(Quot(a, p), q);
    SplitParts(a, p, q, Quot(a, p), Rem(a, p), Quot(Quot(a, p), q), Rem(Quot(a, p), q));
  }

  lemma SplitParts(a: nat, p: nat, q: nat, b: nat, r: nat, c: nat, d: nat)
    requires p * q > 0 && a == b * p + r && b == c * q + d && r < p && d < q
    ensures Rem(a, p * q) == d * p + r
  {
    Regroup(c, q, d, p, r);
    MulOrder(d, q, p);
    QuotientAndRest(p * q, c, d * p + r);
  }

  lemma Regroup(x: nat, q: nat, y: nat, p: nat, z: nat)
    ensures (x * q + y) * p + z == x * (p * q) + (y * p + z)
  {
    assert (x * q) * p == x * (p * q);
  }

  lemma RemOfRem(a: nat, p: nat, q: nat)
    requires p > 0 && q > 0 && p * q > 0
    ensures Rem(Rem(a, p * q), p) == Rem(a, p)
  {
    SplitRem(a, p, q);
    QuotientAndRest(p, Rem(Quot(a, p), q), Rem(a, p));
  }

  lemma AppendRem(a: nat, p: nat, b: nat, v: nat)
    requires p > 0 && v < b && p * b > 0
    ensures Rem(a * b + v, p * b) == Rem(a, p) * b + v
  {
    DivMod(a, p);
    var low := Rem(a, p) * b + v;
    Regroup(Quot(a, p), p, Rem(a, p), b, v);
    assert b * p == p * b;
    MulOrder(Rem(a, p), p, b);
    QuotientAndRest(p * b, Quot(a, p), low);
  }

  lemma {:induction false} SameDigits(b: nat, s: seq<nat>, t: seq<nat>)
    requires b > 0 && IsDigits(b, s) && IsDigits(b, t) && |s| == |t| && Val(b, s) == Val(b, t)
    ensures s == t
  {
    if |s| > 0 {
      var n := |s| - 1;
      SameQuotient(b, Val(b, s[..n]), s[n], Val(b, t[..n]), t[n]);
      SameDigits(b, s[..n], t[..n]);
      assert s == s[..n] + [s[n]] && t == t[..n] + [t[n]];
    }
  }

  // ---- the conversion ----

  /** The bits of value are those of the digits out, then the low bits of acc. */
  ghost predicate Split(value: nat, to: nat, out: seq<nat>, acc: nat, bits: nat) {
    IsDigits(Pow(2, to), out) && value == Val(Pow(2, to), out) * Pow2(bits) + Rem(acc, Pow2(bits))
  }

  /** Taking in a digit. */
  lemma {:induction false} TakeIn(value: nat, from: nat, to: nat, out: seq<nat>, acc: nat, bits: nat, v: nat)
    requires Split(value, to, out, acc, bits) && v < Pow2(from) && bits < to
    ensures Split(value * Pow2(from) + v, to, out, Rem(acc * Pow2(from) + v, Pow2(from + to - 1)), bits + from)
  {
    var p, b, x := Pow2(bits), Pow2(from), Val(Pow(2, to), out);
    PowAdd(2, bits, from);
    AppendRem(acc, p, b, v);
    PowAdd(2, bits + from, to - 1 - bits);
    assert bits + from + (to - 1 - bits) == from + to - 1;
    RemOfRem(acc * b + v, Pow2(bits + from), Pow2(to - 1 - bits));
    Regroup(x, p, Rem(acc, p), b, v);
    assert b * p == p * b;
  }

  /** Giving out a digit. */
  lemma {:induction false} GiveOut(value: nat, to: nat, out: seq<nat>, acc: nat, bits: nat)
    requires Split(value, to, out, acc, bits) && bits >= to
    ensures Split(value, to, out + [Rem(Quot(acc, Pow2(bits - to)), Pow2(to))], acc, bits - to)
  {
    var p, c, x := Pow2(bits - to), Pow2(to), Val(Pow(2, to), out);
    var d := Rem(Quot(acc, p), c);
    PowAdd(2, bits - to, to);
    SplitRem(acc, p, c);
    assert (out + [d])[..|out|] == out;
    Regroup(x, c, d, p, Rem(acc, p));
  }

  /** The bits in the digits out and bits more make total. */
  ghost predicate Sized(to: nat, out: seq<nat>, bits: nat, total: nat) {
    to * |out| + bits == total
  }

  lemma SizedNext(to: nat, out: seq<nat>, bits: nat, total: nat, d: nat)
    requires Sized(to, out, bits, total) && bits >= to
    ensures Sized(to, out + [d], bits - to, total)
  {
    assert to * (|out| + 1) == to * |out| + to;
  }

  lemma SizedPadded(to: nat, out: seq<nat>, bits: nat, total: nat, d: nat)
    requires Sized(to, out, bits, total) && bits < to
    ensures to * |out + [d]| == total + (to - bits)
  {
    assert to * (|out| + 1) == to * |out| + to;
  }

  lemma SizedIn(to: nat, out: seq<nat>, bits: nat, from: nat, i: nat)
    requires Sized(to, out, bits, from * i)
    ensures Sized(to, out, bits + from, from * (i + 1))
  {
  }

  method GiveDigits(to: nat, start: seq<nat>, acc: nat, held: nat, ghost value: nat, ghost total: nat)
    returns (out: seq<nat>, bits: nat)
    requires to > 0 && Sized(to, start, held, total) && Split(value, to, start, acc, held)
    ensures bits < to && Sized(to, out, bits, total) && Split(value, to, out, acc, bits)
  {
    out, bits := start, held;
    while bits >= to
      invariant Sized(to, out, bits, total) && Split(value, to, out, acc, bits)
    {
      GiveOut(value, to, out, acc, bits);
      bits := bits - to;
      var d := Rem(Quot(acc, Pow2(bits)), Pow2(to));
      SizedNext(to, out, bits + to, total, d);
      out := out + [d];
    }
  }

  method Finish(from: nat, to: nat, pad: bool, start: seq<nat>, acc: nat, bits: nat, ghost input: seq<nat>)
    returns (ok: bool, out: seq<nat>)
    requires bits < to && Sized(to, start, bits, from * |input|)
    requires Split(Val(Pow(2, from), input), to, start, acc, bits)
    ensures if pad then ok && Padded(from, to, input, out)
            else Truncated(from, to, input, out) && (ok <==> NothingDropped(from, to, input, out))
  {
    ghost var value := Val(Pow(2, from), input);
    out := start;
    var last := Rem(acc * Pow2(to - bits), Pow2(to));
    LastDigit(acc, to, bits);
    if pad {
      if bits > 0 {
        PadOut(value, to, out, acc, bits);
        SizedPadded(to, out, bits, from * |input|, last);
        out := out + [last];
      } else {
        NoPad(value, to, out, acc);
      }
      ok := true;
    } else {
      Dropped(value, to, out, acc, bits);
      ok := !(bits >= from || last != 0);
    }
  }

  /** The digits done have been taken in, and all the digits that they complete given out. */
  ghost predicate Taken(from: nat, to: nat, done: seq<nat>, out: seq<nat>, acc: nat, bits: nat) {
    bits < to && Sized(to, out, bits, from * |done|) && Split(Val(Pow(2, from), done), to, out, acc, bits)
  }

  /** The accumulator moved up by a digit, and cut to what may still be needed. */
  function Pushed(from: nat, to: nat, acc: nat, v: nat): nat
    requires to > 0
  {
    Rem(acc * Pow2(from) + v, Pow2(from + to - 1))
  }

  method TakeDigit(from: nat, to: nat, start: seq<nat>, held: nat, kept: nat, v: nat, ghost done: seq<nat>)
    returns (out: seq<nat>, acc: nat, bits: nat)
    requires v < Pow(2, from) && Taken(from, to, done, start, held, kept)
    ensures Taken(from, to, done + [v], out, acc, bits)
  {
    acc := Pushed(from, to, held, v);
    ghost var value, total := TakenIn(from, to, start, held, kept, v, done, acc);
    out, bits := GiveDigits(to, start, acc, kept + from, value, total);
  }

  lemma {:induction false} TakenIn(from: nat, to: nat, out: seq<nat>, held: nat, kept: nat, v: nat, done: seq<nat>,
                                   acc: nat) returns (value: nat, total: nat)
    requires v < Pow(2, from) && Taken(from, to, done, out, held, kept)
    requires acc == Pushed(from, to, held, v)
    ensures value == Val(Pow(2, from), done + [v]) && total == from * |done + [v]|
    ensures Sized(to, out, kept + from, total) && Split(value, to, out, acc, kept + from)
  {
    value, total := Val(Pow(2, from), done + [v]), from * |done + [v]|;
    assert (done + [v])[..|done|] == done;
    TakeIn(Val(Pow(2, from), done), from, to, out, held, kept, v);
    SizedIn(to, out, kept, from, |done|);
  }

  lemma NothingTaken(from: nat, to: nat)
    requires to > 0
    ensures Taken(from, to, [], [], 0, 0)
  {
    assert Pow2(0) == 1;
  }

  method ConvertBits(from: nat, to: nat, pad: bool, input: seq<int>) returns (ok: bool, out: seq<nat>)
    requires from > 0 && to > 0 && forall i :: 0 <= i < |input| ==> input[i] < Pow(2, from)
    ensures (exists i :: 0 <= i < |input| && input[i] < 0) ==> !ok
    ensures (forall i :: 0 <= i < |input| ==> input[i] >= 0) ==>
      if pad then ok && Padded(from, to, input, out)
      else Truncated(from, to, input, out) && (ok <==> NothingDropped(from, to, input, out))
  {
    var acc: nat, bits: nat := 0, 0;
    out := [];
    ghost var done: seq<nat> := [];
    NothingTaken(from, to);
    for i := 0 to |input|
      invariant |done| == i && forall j :: 0 <= j < i ==> done[j] == input[j]
      invariant Taken(from, to, done, out, acc, bits)
    {
      var v := input[i];
      if v < 0 {
        return false, out;
      }
      out, acc, bits := TakeDigit(from, to, out, acc, bits, v, done);
      done := done + [v];
    }
    assert done == input;
    ok, out := Finish(from, to, pad, out, acc, bits, done);
  }

  /** The last digit is the remaining bits, moved up. */
  lemma LastDigit(acc: nat, to: nat, bits: nat)
    requires bits < to
    ensures Rem(acc * Pow2(to - bits), Pow2(to)) == Rem(acc, Pow2(bits)) * Pow2(to - bits)
    ensures Rem(acc, Pow2(bits)) == 0 <==> Rem(acc * Pow2(to - bits), Pow2(to)) == 0
  {
    PowAdd(2, bits, to - bits);
    AppendRem(acc, Pow2(bits), Pow2(to - bits), 0);
    ZeroProduct(Rem(acc, Pow2(bits)), Pow2(to - bits));
  }

  lemma ZeroProduct(a: nat, b: nat)
    requires b > 0
    ensures a * b == 0 <==> a == 0
  {
  }

  lemma {:induction false} PadOut(value: nat, to: nat, out: seq<nat>, acc: nat, bits: nat)
    requires Split(value, to, out, acc, bits) && bits < to
    ensures var d := Rem(acc, Pow2(bits)) * Pow2(to - bits);
            d < Pow(2, to) && Val(Pow(2, to), out + [d]) == value * Pow2(to - bits)
  {
    var p, q, x, r := Pow2(bits), Pow2(to - bits), Val(Pow(2, to), out), Rem(acc, Pow2(bits));
    LastDigit(acc, to, bits);
    PowAdd(2, bits, to - bits);
    assert (out + [r * q])[..|out|] == out;
    Regroup(x, p, r, q, 0);
    assert q * p == p * q;
  }

  lemma NoPad(value: nat, to: nat, out: seq<nat>, acc: nat)
    requires Split(value, to, out, acc, 0)
    ensures value == Val(Pow(2, to), out) && Pow(2, 0) == 1
  {
    assert Pow2(0) == 1;
  }

  lemma Dropped(value: nat, to: nat, out: seq<nat>, acc: nat, bits: nat)
    requires Split(value, to, out, acc, bits)
    ensures Quot(value, Pow2(bits)) == Val(Pow(2, to), out) && Rem(value, Pow2(bits)) == Rem(acc, Pow2(bits))
  {
    QuotientAndRest(Pow2(bits), Val(Pow(2, to), out), Rem(acc, Pow2(bits)));
  }

  // ---- there and back ----

  /** Converting to smaller digits with padding and back without gives the digits converted, with only
      padding dropped. */
  lemma {:induction false} BackAgain(from: nat, to: nat, a: seq<nat>, b: seq<nat>, c: seq<nat>)
    requires 0 < to <= from && IsDigits(Pow(2, from), a) && Padded(from, to, a, b) && Truncated(to, from, b, c)
    ensures c == a && NothingDropped(to, from, b, c)
  {
    SameLength(from, |a|, |c|, to * |b|);
    var p := Pow2(to * |b| - from * |a|);
    QuotientAndRest(p, Val(Pow(2, from), a), 0);
    PowPositive(2, from);
    SameDigits(Pow(2, from), a, c);
  }

  lemma SameLength(from: nat, m: nat, n: nat, total: nat)
    requires from * m <= total < from * m + from && from * n <= total < from * n + from
    ensures m == n
  {
    if m < n {
      MulOrder(m, n, from);
    } else if n < m {
      MulOrder(n, m, from);
    }
  }
}
