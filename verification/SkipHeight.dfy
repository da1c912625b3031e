/** Where skip pointers lead, and how few steps it takes to go back by them. */
module SkipHeights {
  import opened Radix

  /** Bitwise and. */
  function BitAnd(a: nat, b: nat): nat {
    if a == 0 || b == 0 then 0 else (a % 2) * (b % 2) + 2 * BitAnd(a / 2, b / 2)
  }

  /** Turn the lowest one bit into a zero. */
  function InvertLowestOne(n: nat): nat {
    if n == 0 then 0 else BitAnd(n, n - 1)
  }

  function SkipHeight(height: nat): nat {
    if height < 2 then 0
    else if height % 2 == 1 then InvertLowestOne(InvertLowestOne(height - 1)) + 1
    else InvertLowestOne(height)
  }

  lemma {:induction false} AndSelf(x: nat)
    ensures BitAnd(x, x) == x
  {
    if x != 0 {
      AndSelf(x / 2);
      assert (x % 2) * (x % 2) == x % 2;
    }
  }

  /** The lowest one is the last digit, or the lowest of the other digits. */
  lemma {:induction false} InvertHalves(x: nat)
    ensures InvertLowestOne(2 * x) == 2 * InvertLowestOne(x)
    ensures InvertLowestOne(2 * x + 1) == 2 * x
  {
    AndSelf(x);
    assert (2 * x + 1) / 2 == x && (2 * x) / 2 == x;
    if x > 0 {
      assert (2 * x - 1) / 2 == x - 1 && (2 * x) % 2 == 0;
    }
  }

  lemma {:induction false} EvenInvert(n: nat, m: nat)
    requires n == 2 * m
    ensures InvertLowestOne(n) == 2 * InvertLowestOne(m)
  {
    InvertHalves(m);
  }

  lemma {:induction false} InvertBelow(n: nat)
    ensures InvertLowestOne(n) <= n && (n > 0 ==> InvertLowestOne(n) < n)
  {
    if n > 0 {
      InvertHalves(n / 2);
      InvertBelow(n / 2);
    }
  }

  /** A skip leads strictly back. */
  lemma {:induction false} SkipHeightBelow(height: nat)
    requires height > 0
    ensures SkipHeight(height) < height
  {
    InvertBelow(height);
    InvertBelow(height - 1);
    InvertBelow(InvertLowestOne(height - 1));
  }

  // ---- the walk ----

  /** The height one step takes the walk from h to t to, if every block has its skip pointer. */
  function Next(h: nat, t: nat): (n: nat)
    requires t < h
    ensures t <= n < h
  {
    SkipHeightBelow(h);
    var skip, skipPrev := SkipHeight(h), SkipHeight(h - 1);
    if skip == t || (skip > t && !(skipPrev < skip - 2 && skipPrev >= t)) then skip else h - 1
  }

  ghost function Steps(h: nat, t: nat): nat
    requires t <= h
    decreases h
  {
    if h == t then 0 else 1 + Steps(Next(h, t), t)
  }

  // ---- digits ----

  /** x without its last d digits. */
  ghost function Upper(d: nat, x: nat): nat {
    if d == 0 then x else Upper(d - 1, x / 2)
  }

  /** The ones among the last d digits of x. */
  ghost function Ones(d: nat, x: nat): nat {
    if d == 0 then 0 else x % 2 + Ones(d - 1, x / 2)
  }

  lemma {:induction false} OnesAtMost(d: nat, x: nat)
    ensures Ones(d, x) <= d
  {
    if d > 0 {
      OnesAtMost(d - 1, x / 2);
    }
  }

  lemma {:induction false} UpperTop(d: nat, x: nat)
    requires d > 0
    ensures Upper(d, x) == Upper(d - 1, x) / 2
  {
    if d > 1 {
      UpperTop(d - 1, x / 2);
    }
  }

  lemma {:induction false} UpperMonotone(d: nat, x: nat, y: nat)
    requires x <= y
    ensures Upper(d, x) <= Upper(d, y)
  {
    if d > 0 {
      UpperMonotone(d - 1, x / 2, y / 2);
    }
  }

  lemma {:induction false} UpperZero(d: nat)
    ensures Upper(d, 0) == 0
  {
    if d > 0 {
      UpperZero(d - 1);
    }
  }

  lemma {:induction false} UpperOdd(d: nat, x: nat)
    requires d > 0 && x % 2 == 0
    ensures Upper(d, x + 1) == Upper(d, x) && Ones(d, x + 1) == Ones(d, x) + 1
  {
  }

  /** A number without ones among its last d digits is the least with the same others. */
  lemma {:induction false} Least(d: nat, a: nat, t: nat)
    requires Ones(d, a) == 0 && Upper(d, a) == Upper(d, t)
    ensures a <= t
  {
    if d > 0 {
      Least(d - 1, a / 2, t / 2);
    }
  }

  lemma {:induction false} BeforeBoundary(d: nat, x: nat)
    requires Ones(d, x) == 0 && x > 0
    ensures Upper(d, x) > 0 && Upper(d, x - 1) == Upper(d, x) - 1
  {
    if d > 0 {
      assert (x - 1) / 2 == x / 2 - 1;
      BeforeBoundary(d - 1, x / 2);
    }
  }

  // ---- ones and inverted ones ----

  /** With a one among the last d digits, inverting the lowest leaves one less there, and the others alone. */
  lemma {:induction false} InvertWithin(d: nat, x: nat)
    requires Ones(d, x) > 0
    ensures Upper(d, InvertLowestOne(x)) == Upper(d, x) && Ones(d, InvertLowestOne(x)) == Ones(d, x) - 1
  {
    InvertHalves(x / 2);
    if x % 2 == 0 {
      InvertWithin(d - 1, x / 2);
    }
  }

  /** Without, it is the lowest of the others that is inverted. */
  lemma {:induction false} InvertBeyond(d: nat, x: nat)
    requires Ones(d, x) == 0
    ensures Upper(d, InvertLowestOne(x)) == InvertLowestOne(Upper(d, x)) && Ones(d, InvertLowestOne(x)) == 0
  {
    if d > 0 {
      InvertHalves(x / 2);
      InvertBeyond(d - 1, x / 2);
    }
  }

  /** So if the others have not changed and are not all zero, there is one less. */
  lemma {:induction false} InvertStays(d: nat, x: nat)
    requires Upper(d, x) > 0 && Upper(d, InvertLowestOne(x)) == Upper(d, x)
    ensures Ones(d, x) > 0 && Ones(d, InvertLowestOne(x)) == Ones(d, x) - 1
  {
    if Ones(d, x) > 0 {
      InvertWithin(d, x);
    } else {
      InvertBeyond(d, x);
      InvertBelow(Upper(d, x));
    }
  }

  lemma {:induction false} InvertTwiceStays(d: nat, x: nat, u: nat)
    requires u > 0 && Upper(d, x) == u && Upper(d, InvertLowestOne(InvertLowestOne(x))) == u
    ensures Ones(d, InvertLowestOne(InvertLowestOne(x))) + 2 == Ones(d, x)
  {
    var y := InvertLowestOne(x);
    InvertBelow(x);
    InvertBelow(y);
    UpperMonotone(d, y, x);
    UpperMonotone(d, InvertLowestOne(y), y);
    InvertStays(d, x);
    InvertStays(d, y);
  }

  // ---- skips from odd and even heights ----

  /** From an odd height, a skip that does not lead too far is taken. */
  lemma {:induction false} OddNext(h: nat, t: nat)
    requires t < h && h % 2 == 1 && SkipHeight(h) >= t
    ensures Next(h, t) == SkipHeight(h)
  {
    if h > 1 {
      InvertBelow(InvertLowestOne(h - 1));
    }
  }

  lemma {:induction false} InvertKeepsEven(x: nat)
    requires x % 2 == 0
    ensures InvertLowestOne(x) % 2 == 0
  {
    EvenInvert(x, x / 2);
  }

  /** It leads to an odd height with two ones less, if the other digits stay. */
  lemma {:induction false} OddSkip(d: nat, h: nat)
    requires d > 0 && h % 2 == 1 && Upper(d, h) > 0 && Upper(d, SkipHeight(h)) == Upper(d, h)
    ensures Ones(d, SkipHeight(h)) + 2 == Ones(d, h)
  {
    var x := h - 1;
    UpperOdd(d, x);
    UpperZero(d);
    var y := InvertLowestOne(InvertLowestOne(x));
    InvertKeepsEven(x);
    InvertKeepsEven(InvertLowestOne(x));
    UpperOdd(d, y);
    InvertTwiceStays(d, x, Upper(d, h));
  }

  /** Where a step back before a skip leads further, the height two below has no more ones. */
  lemma {:induction false} TwoBelow(d: nat, h: nat)
    requires h >= 2 && h % 2 == 0 && Ones(d, h) > 0 && SkipHeight(h - 1) < SkipHeight(h) - 2
    ensures Ones(d, h - 2) <= Ones(d, h)
  {
    if h % 4 == 2 {
      OneAfter(d - 1, h / 2, h / 2 - 1);
    } else {
      NoEighth(h);
      OneAfter(d - 2, h / 4, h / 4 - 1);
      assert (h - 2) / 2 == h / 2 - 1 && (h / 2 - 1) / 2 == h / 4 - 1;
    }
  }

  lemma {:induction false} OneAfter(d: nat, m: nat, k: nat)
    requires m % 2 == 1 && k == m - 1 && Ones(d, m) > 0
    ensures Ones(d, k) == Ones(d, m) - 1
  {
    assert m / 2 == k / 2;
  }

  lemma {:induction false} OddInvert(n: nat)
    requires n % 2 == 1
    ensures InvertLowestOne(n) == n - 1
  {
    InvertHalves(n / 2);
  }

  /** From a multiple of eight, a step back before a skip leads less far. */
  lemma {:induction false} NoEighth(h: nat)
    requires h >= 2 && h % 2 == 0 && SkipHeight(h - 1) < SkipHeight(h) - 2
    ensures h % 8 != 0
  {
    if h % 8 == 0 {
      SkipFromEighth(h, h / 8);
      SkipBeforeEighth(h, h / 8);
    }
  }

  lemma {:induction false} SkipFromEighth(h: nat, j: nat)
    requires h == 8 * j && j > 0
    ensures SkipHeight(h) <= h - 8
  {
    EvenInvert(h, 4 * j);
    EvenInvert(4 * j, 2 * j);
    EvenInvert(2 * j, j);
    InvertBelow(j);
  }

  lemma {:induction false} SkipBeforeEighth(h: nat, j: nat)
    requires h == 8 * j && j > 0
    ensures SkipHeight(h - 1) == h - 7
  {
    TwiceOdd(h - 2, 4 * j - 1);
    EvenInvert(h - 4, 4 * j - 2);
    TwiceOdd(4 * j - 2, 2 * j - 1);
  }

  lemma {:induction false} TwiceOdd(n: nat, m: nat)
    requires n == 2 * m && m % 2 == 1
    ensures InvertLowestOne(n) == n - 2
  {
    EvenInvert(n, m);
    OddInvert(m);
  }

  // ---- how many steps it takes ----

  /** If all but the last d digits of h and t are the same, going from h to t takes at most d * d steps. */
  lemma {:induction false} StepsWithin(d: nat, h: nat, t: nat)
    requires t <= h && Upper(d, h) == Upper(d, t)
    ensures Steps(h, t) <= d * d
    decreases d, 0, h
  {
    if d > 0 {
      var e := d - 1;
      UpperTop(d, h);
      UpperTop(d, t);
      UpperMonotone(e, t, h);
      if Upper(e, h) == Upper(e, t) {
        StepsWithin(e, h, t);
      } else {
        StepsAcross(e, h, t);
        OnesAtMost(e, h);
      }
      assert d * d == e * e + 2 * e + 1;
    }
  }

  /** If only the next digit is one in h and zero in t, it takes two steps at most for each one among the last d
      digits of h, and one, to come to where that digit is zero. */
  lemma {:induction false} StepsAcross(d: nat, h: nat, t: nat)
    requires t < h && Upper(d, h) == Upper(d, t) + 1 && Upper(d, h) % 2 == 1
    ensures Steps(h, t) <= 2 * Ones(d, h) + 1 + d * d
    decreases d, 1, h
  {
    if Ones(d, h) == 0 {
      FromBoundary(d, h, t);
      if Next(h, t) != t {
        StepsWithin(d, h - 1, t);
      }
    } else if h % 2 == 1 {
      FromOdd(d, h, t);
      StepsFrom(d, h, t, Next(h, t), 1);
    } else {
      FromEven(d, h, t);
      if Next(h, t) == SkipHeight(h) {
        StepsFrom(d, h, t, Next(h, t), 1);
      } else {
        StepsFrom(d, h, t, SkipHeight(h - 1), 2);
      }
    }
  }

  /** One or two steps to g, where there is one less or the digit is zero. */
  lemma {:induction false} StepsFrom(d: nat, h: nat, t: nat, g: nat, n: nat)
    requires t < h && Upper(d, h) == Upper(d, t) + 1 && Upper(d, h) % 2 == 1 && Ones(d, h) > 0
    requires t <= g < h && 1 <= n <= 2 && Steps(h, t) == n + Steps(g, t)
    requires Upper(d, g) == Upper(d, h) ==> Ones(d, g) < Ones(d, h)
    ensures Steps(h, t) <= 2 * Ones(d, h) + 1 + d * d
    decreases d, 1, h, 0
  {
    UpperMonotone(d, t, g);
    UpperMonotone(d, g, h);
    if Upper(d, g) == Upper(d, h) {
      StepsAcross(d, g, t);
    } else {
      StepsWithin(d, g, t);
    }
  }

  lemma {:induction false} FromBoundary(d: nat, h: nat, t: nat)
    requires t < h && Upper(d, h) == Upper(d, t) + 1 && Upper(d, h) % 2 == 1 && Ones(d, h) == 0
    ensures Next(h, t) == t || (Next(h, t) == h - 1 && Upper(d, h - 1) == Upper(d, t))
  {
    BeforeBoundary(d, h);
    if d > 0 {
      InvertBeyond(d, h);
      InvertHalves(Upper(d, h) / 2);
      Least(d, InvertLowestOne(h), t);
    }
  }

  lemma {:induction false} FromOdd(d: nat, h: nat, t: nat)
    requires t < h && Upper(d, h) == Upper(d, t) + 1 && Ones(d, h) > 0 && h % 2 == 1
    ensures Upper(d, Next(h, t)) == Upper(d, h) ==> Ones(d, Next(h, t)) < Ones(d, h)
  {
    if SkipHeight(h) >= t {
      OddNext(h, t);
      if Upper(d, SkipHeight(h)) == Upper(d, h) {
        OddSkip(d, h);
      }
    } else {
      UpperOdd(d, h - 1);
    }
  }

  lemma {:induction false} FromEven(d: nat, h: nat, t: nat)
    requires t < h && Upper(d, h) == Upper(d, t) + 1 && Ones(d, h) > 0 && h % 2 == 0
    ensures Next(h, t) == SkipHeight(h) ==> Ones(d, SkipHeight(h)) < Ones(d, h)
    ensures var g := SkipHeight(h - 1);
            Next(h, t) != SkipHeight(h) ==>
              && t <= g < h - 1 && Steps(h, t) == 2 + Steps(g, t)
              && (Upper(d, g) == Upper(d, h) ==> Ones(d, g) < Ones(d, h))
  {
    InvertWithin(d, h);
    if SkipHeight(h) <= t {
      UpperMonotone(d, SkipHeight(h), t);
      assert false;
    }
    if Next(h, t) != SkipHeight(h) {
      var g := SkipHeight(h - 1);
      SkipHeightBelow(h);
      OddNext(h - 1, t);
      SkipHeightBelow(h - 1);
      if Upper(d, g) == Upper(d, h) {
        UpperOdd(d, h - 2);
        UpperMonotone(d, g, h - 1);
        UpperMonotone(d, h - 1, h);
        OddSkip(d, h - 1);
        TwoBelow(d, h);
      }
    }
  }

  // ---- in terms of the height ----

  lemma {:induction false} UpperOfAll(x: nat)
    ensures Upper(BitLength(x), x) == 0
  {
    if x > 0 {
      UpperOfAll(x / 2);
    }
  }

  /** It takes at most the square of the number of digits of the height to go back to any lower one. */
  lemma {:induction false} FewSteps(h: nat, t: nat)
    requires t <= h
    ensures Steps(h, t) <= BitLength(h) * BitLength(h)
  {
    UpperOfAll(h);
    UpperMonotone(BitLength(h), t, h);
    StepsWithin(BitLength(h), h, t);
  }
}
