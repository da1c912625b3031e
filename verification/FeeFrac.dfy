/** Fee/size pairs ordered by feerate, compared by cross multiplication and never by division. */
module FeeFracs {

  datatype FeeFrac = FeeFrac(fee: int, size: int) {

    predicate IsEmpty() {
      size == 0
    }

    function Plus(other: FeeFrac): FeeFrac {
      FeeFrac(fee + other.fee, size + other.size)
    }

    function Minus(other: FeeFrac): FeeFrac {
      FeeFrac(fee - other.fee, size - other.size)
    }

    /** Strictly higher feerate; an empty pair is neither higher nor lower than anything. */
    predicate Higher(other: FeeFrac) {
      fee * other.size > other.fee * size
    }

    /** The total order: by feerate, and by smaller size among equal feerates. */
    predicate Better(other: FeeFrac) {
      Higher(other) || (fee * other.size == other.fee * size && size < other.size)
    }

    /** Feerate at least the other's. */
    predicate NotLower(other: FeeFrac) {
      !other.Higher(this)
    }
  }

  function Zero(): FeeFrac {
    FeeFrac(0, 0)
  }

  lemma PlusZero(a: FeeFrac)
    ensures a.Plus(Zero()) == a && Zero().Plus(a) == a
  {
  }

  lemma PlusCommutes(a: FeeFrac, b: FeeFrac)
    ensures a.Plus(b) == b.Plus(a)
  {
  }

  lemma PlusAssociates(a: FeeFrac, b: FeeFrac, c: FeeFrac)
    ensures a.Plus(b).Plus(c) == a.Plus(b.Plus(c))
  {
  }

  /** The value of a fee/size pair when a unit of size is priced at p/q: its height above the
      line of slope p/q through the origin, scaled by q. */
  function Value(p: int, q: int, x: FeeFrac): int {
    q * x.fee - p * x.size
  }

  /** A pair has the higher feerate exactly when it lies above the other's line. */
  lemma HigherIsValue(a: FeeFrac, b: FeeFrac)
    ensures a.Higher(b) <==> Value(b.fee, b.size, a) > 0
    ensures b.Higher(a) <==> Value(b.fee, b.size, a) < 0
    ensures Value(b.fee, b.size, b) == 0
  {
  }

  lemma ValuePlus(p: int, q: int, a: FeeFrac, b: FeeFrac)
    ensures Value(p, q, a.Plus(b)) == Value(p, q, a) + Value(p, q, b)
  {
  }

  /** Lines through the origin are ordered by slope: what is positive at one price is positive for
      every pair of at least that feerate. */
  lemma ValueSign(p: int, q: int, a: FeeFrac, b: FeeFrac)
    requires q > 0 && a.size > 0 && b.size > 0
    requires a.NotLower(b)
    ensures Value(p, q, b) > 0 ==> Value(p, q, a) > 0
    ensures Value(p, q, b) >= 0 ==> Value(p, q, a) >= 0
    ensures Value(p, q, a) < 0 ==> Value(p, q, b) < 0
    ensures Value(p, q, a) <= 0 ==> Value(p, q, b) <= 0
    ensures a.Higher(b) && Value(p, q, b) >= 0 ==> Value(p, q, a) > 0
    ensures a.Higher(b) && Value(p, q, a) <= 0 ==> Value(p, q, b) < 0
  {
    var va, vb := Value(p, q, a), Value(p, q, b);
    // va * b.size - vb * a.size == q * (a.fee * b.size - b.fee * a.size)
    var d := a.fee * b.size - b.fee * a.size;
    assert va * b.size - vb * a.size == q * d by {
      calc {
        va * b.size - vb * a.size;
        (q * a.fee - p * a.size) * b.size - (q * b.fee - p * b.size) * a.size;
        q * (a.fee * b.size) - q * (b.fee * a.size);
        q * d;
      }
    }
    SignProduct(q, d);
    SignProduct(b.size, va);
    SignProduct(a.size, vb);
  }

  lemma SignProduct(k: int, x: int)
    requires k > 0
    ensures k * x > 0 <==> x > 0
    ensures k * x == 0 <==> x == 0
    ensures k * x < 0 <==> x < 0
    ensures x * k == k * x
  {
  }

  lemma NotLowerTransitive(a: FeeFrac, b: FeeFrac, c: FeeFrac)
    requires a.size > 0 && b.size > 0 && c.size > 0
    requires a.NotLower(b) && b.NotLower(c)
    ensures a.NotLower(c)
    ensures a.Higher(b) || b.Higher(c) ==> a.Higher(c)
  {
    ValueSign(c.fee, c.size, a, b);
    HigherIsValue(a, c);
    HigherIsValue(b, c);
  }

  /** "Not better than" is transitive. */
  lemma NotBetterTransitive(a: FeeFrac, b: FeeFrac, c: FeeFrac)
    requires a.size > 0 && b.size > 0 && c.size > 0
    requires !a.Better(b) && !b.Better(c)
    ensures !a.Better(c)
  {
    NotLowerTransitive(c, b, a);
  }

  /** The feerate of a sum lies between the feerates of its parts. */
  lemma Mediant(a: FeeFrac, b: FeeFrac)
    ensures a.Higher(b) <==> a.Higher(a.Plus(b))
    ensures a.Higher(b) <==> a.Plus(b).Higher(b)
    ensures a.NotLower(b) <==> a.NotLower(a.Plus(b))
    ensures a.NotLower(b) <==> a.Plus(b).NotLower(b)
  {
  }

  /** A part of no higher feerate than the whole, and no larger, is worth at most the whole or
      nothing, at every price. */
  lemma PartValue(p: int, q: int, part: FeeFrac, whole: FeeFrac)
    requires q > 0 && 0 < part.size <= whole.size
    requires whole.NotLower(part)
    ensures Value(p, q, part) <= Value(p, q, whole) || Value(p, q, part) <= 0
    ensures whole.Higher(part) ==> Value(p, q, part) < Value(p, q, whole) || Value(p, q, part) <= 0
  {
    if Value(p, q, part) > 0 {
      var vp, vw := Value(p, q, part), Value(p, q, whole);
      var d := whole.fee * part.size - part.fee * whole.size;
      assert vw * part.size - vp * whole.size == q * d by {
        calc {
          vw * part.size - vp * whole.size;
          (q * whole.fee - p * whole.size) * part.size - (q * part.fee - p * part.size) * whole.size;
          q * (whole.fee * part.size) - q * (part.fee * whole.size);
          q * d;
        }
      }
      assert q * d >= 0;
      assert vw * part.size == vp * whole.size + q * d >= vp * part.size + q * d;
    }
  }

  /** In any price at which `low` breaks even, everything of at least the feerate of a `high`
      above it gains. Used to price the part of a set left over after removing a worse part. */
  lemma RestOfSplit(p: int, q: int, x: FeeFrac, y: FeeFrac, goal: FeeFrac)
    requires q > 0 && x.size > 0 && y.size > 0 && goal.size > 0
    requires !x.Higher(goal)
    requires x.Plus(y).NotLower(goal)
    requires Value(p, q, goal) >= 0
    ensures y.NotLower(goal)
    ensures Value(p, q, y) >= 0
  {
    HigherIsValue(x, goal);
    HigherIsValue(y, goal);
    HigherIsValue(x.Plus(y), goal);
    ValuePlus(goal.fee, goal.size, x, y);
    ValueSign(p, q, y, goal);
  }
}
