/** Checksums as remainders of polynomials over a field, for a generator of any degree. */
module Checksums {
  import opened Fields

  function Zeros<E>(f: Field<E>, n: nat): (r: seq<E>)
    ensures |r| == n && forall i :: 0 <= i < n ==> r[i] == f.zero
  {
    seq(n, i => f.zero)
  }

  /** The sum of two sequences, place by place. */
  function Sum<E>(f: Field<E>, a: seq<E>, b: seq<E>): (r: seq<E>)
    requires |a| == |b|
    ensures |r| == |a| && forall i :: 0 <= i < |a| ==> r[i] == f.add(a[i], b[i])
  {
    seq(|a|, i requires 0 <= i < |a| => f.add(a[i], b[i]))
  }

  /** What moves into place i when a remainder is multiplied by x and v is added. */
  function Moved<E>(r: seq<E>, v: E, i: nat): E
    requires i < |r|
  {
    if i + 1 < |r| then r[i + 1] else v
  }

  /** The remainder of r * x + v, where r is a remainder, highest coefficient first. The generator is
      given without its leading one. */
  function Step<E>(f: Field<E>, gen: seq<E>, r: seq<E>, v: E): (r': seq<E>)
    requires |r| == |gen| > 0
    ensures |r'| == |gen| && forall i :: 0 <= i < |gen| ==> r'[i] == f.add(Moved(r, v, i), f.mul(gen[i], r[0]))
  {
    seq(|gen|, i requires 0 <= i < |gen| => f.add(Moved(r, v, i), f.mul(gen[i], r[0])))
  }

  function Fold<E>(f: Field<E>, gen: seq<E>, r: seq<E>, vs: seq<E>): (r': seq<E>)
    requires |r| == |gen| > 0
    ensures |r'| == |gen|
    decreases |vs|
  {
    if |vs| == 0 then r else Fold(f, gen, Step(f, gen, r, vs[0]), vs[1..])
  }

  /** The remainder of the polynomial whose coefficients are a one and then vs. */
  function Residue<E>(f: Field<E>, gen: seq<E>, vs: seq<E>): (r: seq<E>)
    requires |gen| > 0
    ensures |r| == |gen|
  {
    Fold(f, gen, Zeros(f, |gen| - 1) + [f.one], vs)
  }

  lemma {:induction false} FoldConcat<E>(f: Field<E>, gen: seq<E>, r: seq<E>, a: seq<E>, b: seq<E>)
    requires |r| == |gen| > 0
    ensures Fold(f, gen, r, a + b) == Fold(f, gen, Fold(f, gen, r, a), b)
    decreases |a|
  {
    if a == [] {
      assert a + b == b;
    } else {
      assert (a + b)[0] == a[0] && (a + b)[1..] == a[1..] + b;
      FoldConcat(f, gen, Step(f, gen, r, a[0]), a[1..], b);
    }
  }

  // ---- linearity ----

  lemma {:induction false} StepLinear<E(!new)>(f: Field<E>, gen: seq<E>, r: seq<E>, s: seq<E>, v: E, w: E)
    requires IsField(f) && |r| == |s| == |gen| > 0
    ensures Step(f, gen, Sum(f, r, s), f.add(v, w)) == Sum(f, Step(f, gen, r, v), Step(f, gen, s, w))
  {
    var a, b := Step(f, gen, Sum(f, r, s), f.add(v, w)), Sum(f, Step(f, gen, r, v), Step(f, gen, s, w));
    forall i | 0 <= i < |gen| ensures a[i] == b[i] {
      assert Law3(f, gen[i], r[0], s[0]);
      Swap(f, Moved(r, v, i), Moved(s, w, i), f.mul(gen[i], r[0]), f.mul(gen[i], s[0]));
    }
  }

  lemma {:induction false} FoldLinear<E(!new)>(f: Field<E>, gen: seq<E>, r: seq<E>, s: seq<E>, vs: seq<E>, ws: seq<E>)
    requires IsField(f) && |r| == |s| == |gen| > 0 && |vs| == |ws|
    ensures Fold(f, gen, Sum(f, r, s), Sum(f, vs, ws)) == Sum(f, Fold(f, gen, r, vs), Fold(f, gen, s, ws))
    decreases |vs|
  {
    if |vs| > 0 {
      StepLinear(f, gen, r, s, vs[0], ws[0]);
      assert Sum(f, vs, ws)[1..] == Sum(f, vs[1..], ws[1..]);
      FoldLinear(f, gen, Step(f, gen, r, vs[0]), Step(f, gen, s, ws[0]), vs[1..], ws[1..]);
    }
  }

  lemma {:induction false} SumZeros<E(!new)>(f: Field<E>, a: seq<E>, n: nat)
    requires IsField(f) && n == |a|
    ensures Sum(f, a, Zeros(f, n)) == a && Sum(f, Zeros(f, n), a) == a && Sum(f, a, a) == Zeros(f, n)
  {
    forall i | 0 <= i < |a| ensures Law1(f, a[i]) {
    }
  }

  /** Starting from zero, the first values are shifted in unchanged. */
  lemma {:induction false} ShiftIn<E(!new)>(f: Field<E>, gen: seq<E>, k: nat, done: seq<E>, vs: seq<E>)
    requires IsField(f) && |gen| > 0 && k + |done| == |gen| && |vs| <= k
    ensures Fold(f, gen, Zeros(f, k) + done, vs) == Zeros(f, k - |vs|) + (done + vs)
    decreases |vs|
  {
    if |vs| == 0 {
      EmptyEnds(done, vs);
    } else {
      var v, rest, next := vs[0], vs[1..], done + [vs[0]];
      ShiftOne(f, gen, k, done, v);
      ShiftIn(f, gen, k - 1, next, rest);
      HeadMoves(done, vs);
    }
  }

  lemma {:induction false} EmptyEnds<E>(a: seq<E>, b: seq<E>)
    requires |b| == 0
    ensures a + b == a && b + a == a
  {
  }

  lemma {:induction false} HeadMoves<E>(a: seq<E>, b: seq<E>)
    requires |b| > 0
    ensures a + [b[0]] + b[1..] == a + b
  {
  }

  lemma {:induction false} ShiftOne<E(!new)>(f: Field<E>, gen: seq<E>, k: nat, done: seq<E>, v: E)
    requires IsField(f) && 0 < k && k + |done| == |gen|
    ensures Step(f, gen, Zeros(f, k) + done, v) == Zeros(f, k - 1) + (done + [v])
  {
    var r, r' := Zeros(f, k) + done, Zeros(f, k - 1) + (done + [v]);
    var s := Step(f, gen, r, v);
    forall i | 0 <= i < |gen| ensures s[i] == r'[i] {
      assert r[0] == f.zero && Law1(f, gen[i]) && Law1(f, Moved(r, v, i));
    }
  }

  lemma {:induction false} ShiftInAll<E(!new)>(f: Field<E>, gen: seq<E>, vs: seq<E>)
    requires IsField(f) && 0 < |gen| && |vs| <= |gen|
    ensures Fold(f, gen, Zeros(f, |gen|), vs) == Zeros(f, |gen| - |vs|) + vs
  {
    ShiftIn(f, gen, |gen|, [], vs);
    EmptyEnds(Zeros(f, |gen|), []);
    EmptyEnds(vs, []);
  }

  /** What to append so that the remainder becomes the target: the remainder after as many zeroes, plus the target. */
  lemma {:induction false} ChecksumCompletes<E(!new)>(f: Field<E>, gen: seq<E>, r: seq<E>, target: seq<E>)
    requires IsField(f) && |r| == |gen| == |target| > 0
    ensures Fold(f, gen, r, Sum(f, Fold(f, gen, r, Zeros(f, |gen|)), target)) == target
  {
    var n, mod := |gen|, Fold(f, gen, r, Zeros(f, |gen|));
    var c := Sum(f, mod, target);
    FoldLinear(f, gen, r, Zeros(f, n), Zeros(f, n), c);
    SumZeros(f, r, n);
    SumZeros(f, c, n);
    ShiftInAll(f, gen, c);
    assert Zeros(f, 0) + c == c;
    forall i | 0 <= i < n ensures Sum(f, mod, c)[i] == target[i] {
      Cancel(f, mod[i], target[i]);
    }
    assert Sum(f, mod, c) == target;
  }

  // ---- detection ----

  /** With a generator that does not end in zero, only zero steps to zero. */
  lemma {:induction false} StepToZero<E(!new)>(f: Field<E>, gen: seq<E>, r: seq<E>)
    requires IsField(f) && |r| == |gen| > 0 && gen[|gen| - 1] != f.zero && Step(f, gen, r, f.zero) == Zeros(f, |gen|)
    ensures r == Zeros(f, |gen|)
  {
    var n, s := |gen|, Step(f, gen, r, f.zero);
    assert s[n - 1] == f.zero && Law1(f, f.mul(gen[n - 1], r[0]));
    ProductZero(f, gen[n - 1], r[0]);
    forall i | 0 < i < n ensures r[i] == f.zero {
      assert s[i - 1] == f.zero && Law1(f, gen[i - 1]) && Law1(f, r[i]);
      assert Moved(r, f.zero, i - 1) == r[i];
    }
  }

  lemma {:induction false} FoldToZero<E(!new)>(f: Field<E>, gen: seq<E>, r: seq<E>, k: nat)
    requires IsField(f) && |r| == |gen| > 0 && gen[|gen| - 1] != f.zero
    requires Fold(f, gen, r, Zeros(f, k)) == Zeros(f, |gen|)
    ensures r == Zeros(f, |gen|)
    decreases k
  {
    if k > 0 {
      assert Zeros(f, k)[1..] == Zeros(f, k - 1);
      FoldToZero(f, gen, Step(f, gen, r, f.zero), k - 1);
      StepToZero(f, gen, r);
    }
  }

  /** Changes to values within a window no longer than the checksum always change the remainder. */
  lemma {:induction false} BurstDetected<E(!new)>(f: Field<E>, gen: seq<E>, r: seq<E>, pre: seq<E>, a: seq<E>,
                                                  b: seq<E>, post: seq<E>)
    requires IsField(f) && |r| == |gen| > 0 && gen[|gen| - 1] != f.zero && |a| == |b| <= |gen| && a != b
    ensures Fold(f, gen, r, pre + a + post) != Fold(f, gen, r, pre + b + post)
  {
    var n, s := |gen|, Fold(f, gen, r, pre);
    FoldConcat(f, gen, r, pre + a, post);
    FoldConcat(f, gen, r, pre, a);
    FoldConcat(f, gen, r, pre + b, post);
    FoldConcat(f, gen, r, pre, b);
    var sa, sb := Fold(f, gen, s, a), Fold(f, gen, s, b);
    FoldLinear(f, gen, s, s, a, b);
    SumZeros(f, s, n);
    ShiftInAll(f, gen, Sum(f, a, b));
    FoldLinear(f, gen, sa, sb, post, post);
    SumZeros(f, post, |post|);
    SumZeros(f, Fold(f, gen, sa, post), n);
    if Fold(f, gen, sa, post) == Fold(f, gen, sb, post) {
      FoldToZero(f, gen, Sum(f, sa, sb), |post|);
      SameWindow(f, n, a, b);
    }
  }

  lemma {:induction false} SameWindow<E(!new)>(f: Field<E>, n: nat, a: seq<E>, b: seq<E>)
    requires IsField(f) && |a| == |b| <= n && Zeros(f, n - |a|) + Sum(f, a, b) == Zeros(f, n)
    ensures a == b
  {
    var z := Zeros(f, n - |a|) + Sum(f, a, b);
    forall i | 0 <= i < |a| ensures a[i] == b[i] {
      assert z[n - |a| + i] == Sum(f, a, b)[i];
      SumZero(f, a[i], b[i]);
    }
  }
}
