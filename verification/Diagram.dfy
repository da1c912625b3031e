/** Feerate diagrams. A list of fee/size pairs draws the polyline through its running totals,
    starting at the origin. Diagrams are compared through their peaks: the greatest height of a
    running total above a line of given slope. */
module Diagrams {
  import opened FeeFracs

  function Max(a: int, b: int): int {
    if a >= b then a else b
  }

  function Sum(xs: seq<FeeFrac>): FeeFrac {
    if xs == [] then Zero() else xs[0].Plus(Sum(xs[1..]))
  }

  /** The greatest value at price p/q of a running total of xs, the empty one included. */
  function Peak(p: int, q: int, xs: seq<FeeFrac>): int {
    if xs == [] then 0 else Max(0, Value(p, q, xs[0]) + Peak(p, q, xs[1..]))
  }

  ghost predicate Positive(xs: seq<FeeFrac>) {
    forall i :: 0 <= i < |xs| ==> xs[i].size > 0
  }

  /** Feerates never increase along the list. */
  ghost predicate NonIncreasing(xs: seq<FeeFrac>) {
    forall i {:trigger Falls(xs, i)} :: 0 < i < |xs| ==> Falls(xs, i)
  }

  /** Entry i is no higher than the one before it. */
  ghost predicate Falls(xs: seq<FeeFrac>, i: nat)
    requires 0 < i < |xs|
  {
    xs[i - 1].NotLower(xs[i])
  }

  /** The height reached at size s along the line from the origin through x. */
  ghost function Along(x: FeeFrac, s: real): real
    requires x.size > 0
  {
    x.fee as real * s / x.size as real
  }

  /** The height of the diagram of xs at size s; it is level past its end. */
  ghost function Diagram(xs: seq<FeeFrac>, s: real): real
    requires Positive(xs)
  {
    if xs == [] then 0.0
    else if s <= xs[0].size as real then Along(xs[0], s)
    else xs[0].fee as real + Diagram(xs[1..], s - xs[0].size as real)
  }

  /** The diagram of xs is nowhere below that of ys, up to the given size. */
  ghost predicate NowhereBelow(xs: seq<FeeFrac>, ys: seq<FeeFrac>, size: real)
    requires Positive(xs) && Positive(ys)
  {
    forall s: real :: 0.0 <= s <= size ==> Diagram(xs, s) >= Diagram(ys, s)
  }

  /** At every price, some running total of xs is worth as much as each running total of ys. */
  ghost predicate Outprices(xs: seq<FeeFrac>, ys: seq<FeeFrac>) {
    forall p: int, q: int :: q > 0 ==> Peak(p, q, xs) >= Peak(p, q, ys)
  }

  // ---- sums and peaks ----

  lemma {:induction false} SumConcat(xs: seq<FeeFrac>, ys: seq<FeeFrac>)
    ensures Sum(xs + ys) == Sum(xs).Plus(Sum(ys))
  {
    if xs == [] {
      assert xs + ys == ys;
      PlusZero(Sum(ys));
    } else {
      assert (xs + ys)[1..] == xs[1..] + ys;
      SumConcat(xs[1..], ys);
    }
  }

  lemma {:induction false} PeakConcat(p: int, q: int, xs: seq<FeeFrac>, ys: seq<FeeFrac>)
    ensures Peak(p, q, xs + ys) == Max(Peak(p, q, xs), Value(p, q, Sum(xs)) + Peak(p, q, ys))
  {
    if xs == [] {
      assert xs + ys == ys;
      PeakNonNegative(p, q, ys);
    } else {
      assert (xs + ys)[1..] == xs[1..] + ys;
      PeakConcat(p, q, xs[1..], ys);
      ValuePlus(p, q, xs[0], Sum(xs[1..]));
      PeakNonNegative(p, q, ys);
    }
  }

  lemma {:induction false} PeakNonNegative(p: int, q: int, xs: seq<FeeFrac>)
    ensures Peak(p, q, xs) >= 0
  {
  }

  lemma {:induction false} PrefixBelowPeak(p: int, q: int, xs: seq<FeeFrac>, k: nat)
    requires k <= |xs|
    ensures Value(p, q, Sum(xs[..k])) <= Peak(p, q, xs)
  {
    PeakNonNegative(p, q, xs[k..]);
    assert xs == xs[..k] + xs[k..];
    PeakConcat(p, q, xs[..k], xs[k..]);
  }

  lemma {:induction false} PeakAttained(p: int, q: int, xs: seq<FeeFrac>) returns (k: nat)
    ensures k <= |xs| && Value(p, q, Sum(xs[..k])) == Peak(p, q, xs)
  {
    if xs == [] || Value(p, q, xs[0]) + Peak(p, q, xs[1..]) < 0 {
      k := 0;
    } else {
      var j := PeakAttained(p, q, xs[1..]);
      k := j + 1;
      assert xs[..k][1..] == xs[1..][..j];
      ValuePlus(p, q, xs[0], Sum(xs[1..][..j]));
    }
  }

  lemma {:induction false} SumSize(xs: seq<FeeFrac>)
    requires Positive(xs)
    ensures Sum(xs).size >= 0
    ensures xs != [] ==> Sum(xs).size > 0
  {
    if xs != [] {
      SumSize(xs[1..]);
    }
  }

  /** Sharing a beginning keeps the comparison. */
  lemma {:induction false} OutpricesPrepend(pre: seq<FeeFrac>, xs: seq<FeeFrac>, ys: seq<FeeFrac>)
    requires Outprices(xs, ys)
    ensures Outprices(pre + xs, pre + ys)
  {
    forall p: int, q: int | q > 0 ensures Peak(p, q, pre + xs) >= Peak(p, q, pre + ys) {
      PeakConcat(p, q, pre, xs);
      PeakConcat(p, q, pre, ys);
      assert Peak(p, q, xs) >= Peak(p, q, ys);
    }
  }

  // ---- diagrams are decided by peaks ----

  ghost function RealValue(p: int, q: int, fee: real, s: real): real {
    q as real * fee - p as real * s
  }

  /** No point of a diagram is higher above a line than the peak. */
  lemma {:induction false} DiagramBelowPeak(p: int, q: int, xs: seq<FeeFrac>, s: real)
    requires Positive(xs) && q > 0 && 0.0 <= s <= Sum(xs).size as real
    ensures RealValue(p, q, Diagram(xs, s), s) <= Peak(p, q, xs) as real
  {
    if xs == [] {
      assert s == 0.0;
      OriginValue(p, q);
    } else if s <= xs[0].size as real {
      Interpolate(p, q, xs[0], s);
      PeakNonNegative(p, q, xs[1..]);
    } else {
      var s' := s - xs[0].size as real;
      DiagramBelowPeak(p, q, xs[1..], s');
      PastFirst(p, q, xs[0], Diagram(xs[1..], s'), s, Peak(p, q, xs[1..]));
    }
  }

  lemma {:induction false} PastFirst(p: int, q: int, x: FeeFrac, d: real, s: real, peak: int)
    requires RealValue(p, q, d, s - x.size as real) <= peak as real
    ensures RealValue(p, q, x.fee as real + d, s) <= Max(0, Value(p, q, x) + peak) as real
  {
    ValueShift(p, q, x, d, s);
  }

  lemma {:induction false} OriginValue(p: int, q: int)
    ensures RealValue(p, q, 0.0, 0.0) == 0.0
  {
  }

  lemma {:induction false} ValueShift(p: int, q: int, x: FeeFrac, d: real, s: real)
    ensures RealValue(p, q, x.fee as real + d, s)
         == Value(p, q, x) as real + RealValue(p, q, d, s - x.size as real)
  {
    assert (q * x.fee) as real == q as real * x.fee as real;
    assert (p * x.size) as real == p as real * x.size as real;
  }

  /** Along one segment the height above a line moves linearly from 0 to the segment's value. */
  lemma {:induction false} Interpolate(p: int, q: int, x: FeeFrac, s: real)
    requires x.size > 0 && 0.0 <= s <= x.size as real
    ensures RealValue(p, q, Along(x, s), s) <= Max(0, Value(p, q, x)) as real
    ensures p == x.fee && q == x.size ==> RealValue(p, q, Along(x, s), s) == 0.0
  {
    var n, f := x.size as real, x.fee as real;
    var y := Along(x, s);
    var t := s / n;
    assert 0.0 <= t <= 1.0 by { DivBounds(s, n); }
    assert y == f * t && s == n * t;
    assert RealValue(p, q, y, s) == t * (Value(p, q, x) as real) by {
      calc {
        RealValue(p, q, y, s);
        q as real * (f * t) - p as real * (n * t);
        t * (q as real * f - p as real * n);
        { assert (q * x.fee - p * x.size) as real == q as real * f - p as real * n; }
        t * (Value(p, q, x) as real);
      }
    }
    ScaleBound(t, Value(p, q, x));
  }

  lemma {:induction false} DivBounds(s: real, n: real)
    requires n > 0.0 && 0.0 <= s <= n
    ensures 0.0 <= s / n <= 1.0
    ensures n * (s / n) == s
  {
  }

  lemma {:induction false} ScaleBound(t: real, v: int)
    requires 0.0 <= t <= 1.0
    ensures t * (v as real) <= Max(0, v) as real
  {
    if v >= 0 {
      assert t * (v as real) <= 1.0 * (v as real);
    } else {
      assert t * (v as real) <= 0.0;
    }
  }

  /** A concave diagram touches its own peak: at each point, along the slope of the segment there. */
  lemma {:induction false} DiagramMeetsPeak(xs: seq<FeeFrac>, s: real) returns (p: int, q: int)
    requires Positive(xs) && NonIncreasing(xs) && xs != [] && 0.0 <= s <= Sum(xs).size as real
    ensures q > 0 && exists i :: 0 <= i < |xs| && p == xs[i].fee && q == xs[i].size
    ensures RealValue(p, q, Diagram(xs, s), s) == Peak(p, q, xs) as real
  {
    var x, rest := xs[0], xs[1..];
    var n := x.size as real;
    if s <= n {
      p, q := x.fee, x.size;
      Interpolate(p, q, x, s);
      forall i | 0 <= i < |xs| ensures !xs[i].Higher(xs[0]) {
        FirstIsHighest(xs, i);
      }
      NoGainPastFirst(xs, xs[0]);
    } else {
      NonIncreasingTail(xs);
      p, q := DiagramMeetsPeak(rest, s - n);
      var i :| 0 <= i < |rest| && p == rest[i].fee && q == rest[i].size;
      assert xs[i + 1] == rest[i];
      FirstIsHighest(xs, i + 1);
      HigherIsValue(x, rest[i]);
      PeakNonNegative(p, q, rest);
      ValueShift(p, q, x, Diagram(rest, s - n), s);
    }
  }

  lemma {:induction false} NonIncreasingTail(xs: seq<FeeFrac>)
    requires NonIncreasing(xs) && xs != []
    ensures NonIncreasing(xs[1..])
  {
    forall i | 0 < i < |xs[1..]| ensures Falls(xs[1..], i) {
      assert Falls(xs, i + 1);
    }
  }

  /** If the first step gains nothing, none does. */
  lemma {:induction false} AllLossesAfterFirst(p: int, q: int, xs: seq<FeeFrac>)
    requires q > 0 && Positive(xs) && NonIncreasing(xs) && xs != [] && Value(p, q, xs[0]) <= 0
    ensures Peak(p, q, xs) == 0 && Peak(p, q, xs[1..]) == 0
  {
    if |xs| > 1 {
      NonIncreasingTail(xs);
      assert Falls(xs, 1);
      ValueSign(p, q, xs[0], xs[1]);
      AllLossesAfterFirst(p, q, xs[1..]);
    }
  }

  lemma {:induction false} FirstIsHighest(xs: seq<FeeFrac>, i: nat)
    requires Positive(xs) && NonIncreasing(xs) && i < |xs|
    ensures xs[0].NotLower(xs[i])
  {
    if i > 0 {
      FirstIsHighest(xs, i - 1);
      assert Falls(xs, i);
      NotLowerTransitive(xs[0], xs[i - 1], xs[i]);
    }
  }

  lemma {:induction false} NoGainPastFirst(xs: seq<FeeFrac>, x: FeeFrac)
    requires forall i :: 0 <= i < |xs| ==> !xs[i].Higher(x)
    requires Positive(xs) && NonIncreasing(xs) && x.size > 0
    ensures Peak(x.fee, x.size, xs) == 0
  {
    if xs != [] {
      NonIncreasingTail(xs);
      NoGainPastFirst(xs[1..], x);
      HigherIsValue(xs[0], x);
    }
  }

  lemma {:induction false} DiagramAtPrefix(xs: seq<FeeFrac>, k: nat)
    requires Positive(xs) && k <= |xs|
    ensures Diagram(xs, Sum(xs[..k]).size as real) == Sum(xs[..k]).fee as real
  {
    if xs != [] {
      AlongEnds(xs[0]);
    }
    if k > 0 {
      assert xs[..k][1..] == xs[1..][..k - 1];
      DiagramAtPrefix(xs[1..], k - 1);
      SumSize(xs[1..][..k - 1]);
      if k == 1 {
        assert xs[1..][..0] == [];
        assert Sum(xs[..k]) == xs[0].Plus(Zero());
      } else {
        assert Sum(xs[1..][..k - 1]).size > 0;
      }
    }
  }

  lemma {:induction false} AlongEnds(x: FeeFrac)
    requires x.size > 0
    ensures Along(x, 0.0) == 0.0
    ensures Along(x, x.size as real) == x.fee as real
  {
  }

  /** For lists of the same total size, with xs concave: the diagram of xs is nowhere below that of
      ys exactly when xs outprices ys. */
  lemma {:induction false} DiagramDuality(xs: seq<FeeFrac>, ys: seq<FeeFrac>)
    requires Positive(xs) && Positive(ys) && NonIncreasing(xs)
    requires Sum(xs).size == Sum(ys).size
    ensures NowhereBelow(xs, ys, Sum(xs).size as real) <==> Outprices(xs, ys)
  {
    if Outprices(xs, ys) {
      OutpricesIsNowhereBelow(xs, ys);
    }
    if NowhereBelow(xs, ys, Sum(xs).size as real) {
      forall p: int, q: int | q > 0 ensures Peak(p, q, xs) >= Peak(p, q, ys) {
        NowhereBelowPeak(p, q, xs, ys);
      }
    }
  }

  lemma {:induction false} NowhereBelowPeak(p: int, q: int, xs: seq<FeeFrac>, ys: seq<FeeFrac>)
    requires Positive(xs) && Positive(ys) && q > 0
    requires Sum(xs).size == Sum(ys).size
    requires NowhereBelow(xs, ys, Sum(xs).size as real)
    ensures Peak(p, q, xs) >= Peak(p, q, ys)
  {
    var k := PeakAttained(p, q, ys);
    var at := Sum(ys[..k]);
    DiagramAtPrefix(ys, k);
    PrefixSize(ys, k);
    var s := at.size as real;
    assert Diagram(xs, s) >= Diagram(ys, s);
    DiagramBelowPeak(p, q, xs, s);
    RealValueOrder(p, q, Diagram(xs, s), at.fee as real, s);
    ValueShift(p, q, at, 0.0, s);
    assert RealValue(p, q, 0.0, 0.0) == 0.0;
  }

  lemma {:induction false} RealValueOrder(p: int, q: int, a: real, b: real, s: real)
    requires q > 0
    ensures RealValue(p, q, a, s) >= RealValue(p, q, b, s) <==> a >= b
  {
    assert RealValue(p, q, a, s) - RealValue(p, q, b, s) == q as real * (a - b);
    if a >= b {
      assert q as real * (a - b) >= 0.0;
    } else {
      assert q as real * (a - b) < 0.0;
    }
  }

  lemma {:induction false} PrefixSize(xs: seq<FeeFrac>, k: nat)
    requires Positive(xs) && k <= |xs|
    ensures 0 <= Sum(xs[..k]).size <= Sum(xs).size
  {
    assert xs == xs[..k] + xs[k..];
    SumConcat(xs[..k], xs[k..]);
    SumSize(xs[..k]);
    SumSize(xs[k..]);
  }

  lemma {:induction false} OutpricesIsNowhereBelow(xs: seq<FeeFrac>, ys: seq<FeeFrac>)
    requires Positive(xs) && Positive(ys) && NonIncreasing(xs)
    requires Sum(xs).size == Sum(ys).size
    requires Outprices(xs, ys)
    ensures NowhereBelow(xs, ys, Sum(xs).size as real)
  {
    SumSize(xs);
    SumSize(ys);
    forall s: real | 0.0 <= s <= Sum(xs).size as real ensures Diagram(xs, s) >= Diagram(ys, s) {
      if xs != [] {
        var p, q := DiagramMeetsPeak(xs, s);
        DiagramBelowPeak(p, q, ys, s);
        assert Peak(p, q, xs) >= Peak(p, q, ys);
        RealValueOrder(p, q, Diagram(xs, s), Diagram(ys, s), s);
      }
    }
  }
}
