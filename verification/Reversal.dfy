/** Turning a graph around: parents become children, fees change sign, and linearizations run
    backwards. Diagram comparisons survive the turn. */
module Reversal {
  import opened FeeFracs
  import opened Sets
  import opened Graphs
  import opened Diagrams
  import opened Chunkings

  function Reverse(s: seq<nat>): (r: seq<nat>)
    ensures |r| == |s|
  {
    if s == [] then [] else Reverse(s[1..]) + [s[0]]
  }

  function Negate(x: FeeFrac): FeeFrac {
    FeeFrac(-x.fee, x.size)
  }

  function FlipEntry(e: Entry): Entry {
    Entry(Negate(e.feerate), e.descendants, e.ancestors)
  }

  function Flip(g: Graph): Graph {
    Graph(seq(|g.entries|, i requires 0 <= i < |g.entries| => FlipEntry(g.entries[i])), g.used)
  }

  lemma {:induction false} FlipAt(g: Graph, i: nat)
    ensures Flip(g).FeeRate(i) == Negate(g.FeeRate(i))
    ensures Flip(g).Ancestors(i) == g.Descendants(i)
    ensures Flip(g).Descendants(i) == g.Ancestors(i)
  {
  }

  lemma {:induction false} FlipValid(g: Graph)
    requires g.Valid()
    ensures Flip(g).Valid()
  {
    var h := Flip(g);
    forall i | i in h.used ensures i < |h.entries| && i in h.Ancestors(i) && h.FeeRate(i).size > 0 {
      FlipAt(g, i);
      assert i in g.Descendants(i);
    }
    forall i, j | i in h.used && j in h.Ancestors(i) ensures j in h.used {
      FlipAt(g, i);
    }
    forall i, j | i in h.used && j in h.Descendants(i) ensures j in h.used {
      FlipAt(g, i);
    }
    forall i, j | i in h.used && j in h.used ensures j in h.Ancestors(i) <==> i in h.Descendants(j) {
      FlipAt(g, i);
      FlipAt(g, j);
      assert j in g.Descendants(i) <==> i in g.Ancestors(j);
    }
    forall i, j, k | i in h.used && j in h.Ancestors(i) && k in h.Ancestors(j) ensures k in h.Ancestors(i) {
      FlipAt(g, i);
      FlipAt(g, j);
      assert i in g.Ancestors(j) && j in g.Ancestors(k);
      assert k in g.Descendants(i) <==> i in g.Ancestors(k);
    }
    forall i, j | i in h.used && j in h.Ancestors(i) && i in h.Ancestors(j) ensures i == j {
      FlipAt(g, i);
      FlipAt(g, j);
      assert i in g.Ancestors(j) && j in g.Ancestors(i);
    }
  }

  lemma {:induction false} FlipTwice(g: Graph)
    ensures Flip(Flip(g)) == g
  {
    var h, k := Flip(g), Flip(Flip(g));
    forall i | 0 <= i < |g.entries| ensures k.entries[i] == g.entries[i] {
      assert h.entries[i] == FlipEntry(g.entries[i]);
      assert k.entries[i] == FlipEntry(h.entries[i]);
    }
    assert k.entries == g.entries;
  }

  // ---- reversed sequences ----

  lemma {:induction false} ReverseAt(s: seq<nat>, i: nat)
    requires i < |s|
    ensures Reverse(s)[i] == s[|s| - 1 - i]
  {
    if i < |s| - 1 {
      ReverseAt(s[1..], i);
    }
  }

  lemma {:induction false} ReverseConcat(a: seq<nat>, b: seq<nat>)
    ensures Reverse(a + b) == Reverse(b) + Reverse(a)
  {
    if a == [] {
      assert a + b == b;
    } else {
      assert (a + b)[1..] == a[1..] + b;
      ReverseConcat(a[1..], b);
    }
  }

  lemma {:induction false} ReverseTwice(s: seq<nat>)
    ensures Reverse(Reverse(s)) == s
  {
    if s != [] {
      ReverseConcat(Reverse(s[1..]), [s[0]]);
      ReverseTwice(s[1..]);
      assert Reverse([s[0]]) == [s[0]];
    }
  }

  lemma {:induction false} ReverseElements(s: seq<nat>)
    ensures Elements(Reverse(s)) == Elements(s)
  {
    if s != [] {
      ReverseElements(s[1..]);
      ElementsConcat(Reverse(s[1..]), [s[0]]);
      ElementsConcat([s[0]], s[1..]);
      assert s == [s[0]] + s[1..];
    }
  }

  lemma {:induction false} ReverseDistinct(s: seq<nat>)
    requires Distinct(s)
    ensures Distinct(Reverse(s))
  {
    forall i, j | 0 <= i < j < |s| ensures Reverse(s)[i] != Reverse(s)[j] {
      ReverseAt(s, i);
      ReverseAt(s, j);
    }
  }

  lemma {:induction false} ReverseOrder(g: Graph, s: seq<nat>)
    requires g.Consistent() && Elements(s) <= g.used && g.InOrder(s)
    ensures Flip(g).InOrder(Reverse(s))
  {
    forall i, j | 0 <= i < j < |s| ensures Reverse(s)[j] !in Flip(g).Ancestors(Reverse(s)[i]) {
      ReverseAt(s, i);
      ReverseAt(s, j);
      var a, b := s[|s| - 1 - j], s[|s| - 1 - i];
      assert b !in g.Ancestors(a) && a in Elements(s) && b in Elements(s);
      FlipAt(g, b);
      assert a in g.Descendants(b) <==> b in g.Ancestors(a);
    }
  }

  // ---- reversed diagrams ----

  lemma {:induction false} FlipRate(g: Graph, s: seq<nat>)
    ensures Flip(g).SeqRate(Reverse(s)) == Negate(g.SeqRate(s))
  {
    if s != [] {
      FlipRate(g, s[1..]);
      SeqRateConcat(Flip(g), Reverse(s[1..]), [s[0]]);
      SeqRateSingleton(Flip(g), [s[0]]);
      FlipAt(g, s[0]);
      SeqRateHead(g, s);
      NegatePlus(g.FeeRate(s[0]), g.SeqRate(s[1..]));
    }
  }

  lemma {:induction false} NegatePlus(a: FeeFrac, b: FeeFrac)
    ensures Negate(b).Plus(Negate(a)) == Negate(a.Plus(b))
  {
  }

  lemma {:induction false} NegateValue(p: int, q: int, x: FeeFrac)
    ensures Value(p, q, Negate(x)) == -Value(-p, q, x)
  {
  }

  /** The peaks of a reversed linearization are those of the original, less its total. */
  lemma {:induction false} FlipPeak(g: Graph, p: int, q: int, s: seq<nat>)
    ensures Peak(p, q, Rates(Flip(g), Reverse(s))) == Peak(-p, q, Rates(g, s)) - Value(-p, q, g.SeqRate(s))
  {
    var h := Flip(g);
    if s != [] {
      var a, rest := s[0], s[1..];
      FlipPeak(g, p, q, rest);
      FlipRate(g, rest);
      FlipAt(g, a);
      RatesConcat(h, Reverse(rest), [a]);
      PeakConcat(p, q, Rates(h, Reverse(rest)), Rates(h, [a]));
      RatesSum(h, Reverse(rest));
      SinglePeak(h, p, q, a);
      NegateValue(p, q, g.SeqRate(rest));
      NegateValue(p, q, g.FeeRate(a));
      assert Rates(g, s)[1..] == Rates(g, rest);
      SeqRateHead(g, s);
      ValuePlus(-p, q, g.FeeRate(a), g.SeqRate(rest));
      PeakNonNegative(-p, q, Rates(g, rest));
    }
  }

  lemma {:induction false} SinglePeak(g: Graph, p: int, q: int, a: nat)
    ensures Peak(p, q, Rates(g, [a])) == Max(0, Value(p, q, g.FeeRate(a)))
  {
    var rs := Rates(g, [a]);
    assert rs[1..] == [];
    assert rs[0] == g.FeeRate(a);
  }

  /** Comparing reversed linearizations of the turned graph is comparing the originals. */
  lemma {:induction false} FlipOutprices(g: Graph, a: seq<nat>, b: seq<nat>)
    requires g.SeqRate(a) == g.SeqRate(b)
    ensures Outprices(Rates(Flip(g), Reverse(a)), Rates(Flip(g), Reverse(b))) <==> Outprices(Rates(g, a), Rates(g, b))
  {
    var h := Flip(g);
    if Outprices(Rates(g, a), Rates(g, b)) {
      forall p: int, q: int | q > 0 ensures Peak(p, q, Rates(h, Reverse(a))) >= Peak(p, q, Rates(h, Reverse(b))) {
        FlipPeak(g, p, q, a);
        FlipPeak(g, p, q, b);
        assert Peak(-p, q, Rates(g, a)) >= Peak(-p, q, Rates(g, b));
      }
    }
    if Outprices(Rates(h, Reverse(a)), Rates(h, Reverse(b))) {
      forall p: int, q: int | q > 0 ensures Peak(p, q, Rates(g, a)) >= Peak(p, q, Rates(g, b)) {
        FlipPeak(g, -p, q, a);
        FlipPeak(g, -p, q, b);
        assert Peak(-p, q, Rates(h, Reverse(a))) >= Peak(-p, q, Rates(h, Reverse(b)));
      }
    }
  }
}
