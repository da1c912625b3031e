/** The guarantees of postlinearization beyond connected chunks. */
module PostGuarantees {
  import opened FeeFracs
  import opened Sets
  import opened Graphs
  import opened Diagrams
  import opened Chunkings
  import opened PostGroups
  import opened PostPasses
  import opened PostTrees
  import opened PostMoves
  import opened PostLinearizing
  import opened Reversal

  // ---- tree-shaped graphs ----

  ghost predicate OneParent(g: Graph) {
    forall p, q, c {:trigger ChildOf(g, p, c), ChildOf(g, q, c)} :: ChildOf(g, p, c) && ChildOf(g, q, c) ==> p == q
  }

  lemma {:induction false} FlipChild(g: Graph, p: nat, c: nat)
    requires g.Valid() && ChildOf(Flip(g), p, c)
    ensures ChildOf(g, c, p)
  {
    FlipAt(g, c);
    assert p in g.Descendants(c) && p in g.used;
    assert c in g.Ancestors(p);
    forall x ensures !Between(g, c, x, p) {
      FlipBetween(g, c, x, p);
    }
  }

  lemma {:induction false} FlipBetween(g: Graph, c: nat, x: nat, p: nat)
    requires g.Valid() && p in g.used && c in g.used
    ensures Between(g, c, x, p) ==> Between(Flip(g), p, x, c)
  {
    FlipAt(g, x);
    FlipAt(g, c);
    if Between(g, c, x, p) {
      assert x in g.used && x in g.Descendants(c) && p in g.Descendants(x);
    }
  }

  lemma {:induction false} OneParentFlips(g: Graph)
    requires g.Valid() && OneParent(g)
    ensures OneChild(Flip(g))
  {
    var h := Flip(g);
    forall p, c, d | ChildOf(h, p, c) && ChildOf(h, p, d) ensures c == d {
      FlipChild(g, p, c);
      FlipChild(g, p, d);
    }
  }

  /** Without two parents anywhere, the pass from the back is enough. */
  lemma {:induction false} BackwardOptimal(g: Graph, lin: seq<nat>, other: seq<nat>)
    requires g.Valid() && g.IsLinearization(g.used, lin) && g.IsLinearization(g.used, other) && OneParent(g)
    ensures Outprices(Rates(g, AfterPass(g, lin, true)), Rates(g, other))
  {
    var h, out := Flip(g), Flatten(Pass(Flip(g), Reverse(lin)));
    ReadyForPass(g, lin, true);
    ReadyForPass(g, other, true);
    OneParentFlips(g);
    PassOptimal(h, Reverse(lin), Reverse(other));
    PassImproves(g, lin, true);
    CompareTurned(g, out, other);
  }

  /** On trees of either direction nothing beats the result, whatever the input. */
  lemma {:induction false} TreesAreOptimal(g: Graph, lin: seq<nat>, other: seq<nat>)
    requires g.Valid() && g.IsLinearization(g.used, lin) && g.IsLinearization(g.used, other)
    requires OneChild(g) || OneParent(g)
    ensures AtLeastAsGood(g, Postlinearized(g, lin), other)
  {
    var mid, out := AfterPass(g, lin, true), Postlinearized(g, lin);
    PassImproves(g, lin, true);
    PassImproves(g, mid, false);
    if OneChild(g) {
      ReadyForPass(g, mid, false);
      PassOptimal(g, mid, other);
    } else {
      BackwardOptimal(g, lin, other);
      OutpricesTransitive(Rates(g, out), Rates(g, mid), Rates(g, other));
    }
    CompareLinearizations(g, out, other);
  }

  // ---- moved leaves ----

  /** lin with its i-th transaction moved to the end. */
  ghost function MovedToEnd(lin: seq<nat>, i: nat): seq<nat>
    requires i < |lin|
  {
    lin[..i] + lin[i + 1..] + [lin[i]]
  }

  lemma {:induction false} MovedIsLinearization(g: Graph, lin: seq<nat>, i: nat)
    requires g.Valid() && g.IsLinearization(g.used, lin) && i < |lin| && g.Descendants(lin[i]) == {lin[i]}
    ensures g.IsLinearization(g.used, MovedToEnd(lin, i))
  {
    var a, t, b := lin[..i], lin[i], lin[i + 1..];
    assert lin == a + ([t] + b);
    InOrderConcat(g, a, [t] + b);
    InOrderConcat(g, [t], b);
    DistinctConcat(a, [t] + b);
    DistinctConcat([t], b);
    ElementsConcat(a, [t] + b);
    ElementsConcat([t], b);
    ElementsConcat(a, b);
    ElementsConcat(a + b, [t]);
    InOrderConcat(g, a, b);
    DistinctConcat(a, b);
    assert Elements([t]) == {t};
    assert NoneBefore(g, Elements(a + b), {t});
    InOrderConcat(g, a + b, [t]);
    DistinctConcat(a + b, [t]);
  }

  lemma {:induction false} ReverseMoved(lin: seq<nat>, i: nat)
    requires i < |lin|
    ensures Reverse(MovedToEnd(lin, i)) == [lin[i]] + Reverse(lin[i + 1..]) + Reverse(lin[..i])
    ensures Reverse(lin) == Reverse(lin[i + 1..]) + [lin[i]] + Reverse(lin[..i])
  {
    var a, t, b := lin[..i], lin[i], lin[i + 1..];
    assert lin == a + ([t] + b);
    ReverseConcat(a, [t] + b);
    ReverseConcat([t], b);
    ReverseConcat(a + b, [t]);
    ReverseConcat(a, b);
    assert Reverse([t]) == [t];
  }

  /** Moving a leaf to the end and postlinearizing gives a linearization at least as good as before. */
  lemma {:induction false} MovedLeafIsHarmless(g: Graph, lin: seq<nat>, i: nat)
    requires g.Valid() && g.IsLinearization(g.used, lin) && i < |lin| && g.Descendants(lin[i]) == {lin[i]}
    ensures g.IsLinearization(g.used, Postlinearized(g, MovedToEnd(lin, i)))
    ensures Outprices(Rates(g, Postlinearized(g, MovedToEnd(lin, i))), Rates(g, lin))
  {
    var moved, h := MovedToEnd(lin, i), Flip(g);
    MovedIsLinearization(g, lin, i);
    ReadyForPass(g, lin, true);
    ReadyForPass(g, moved, true);
    ReverseMoved(lin, i);
    EarlyIsHarmless(h, lin[i], Reverse(lin[i + 1..]), Reverse(lin[..i]));
    var mid := AfterPass(g, moved, true);
    PassImproves(g, moved, true);
    CompareTurned(g, Flatten(Pass(h, Reverse(moved))), lin);
    PassImproves(g, mid, false);
    OutpricesTransitive(Rates(g, Postlinearized(g, moved)), Rates(g, mid), Rates(g, lin));
  }

  /** g with the fee of t raised. */
  ghost function Raised(g: Graph, t: nat, extra: nat): Graph
  {
    if t < |g.entries| then
      var e := g.entries[t];
      Graph(g.entries[t := e.(feerate := FeeFrac(e.feerate.fee + extra, e.feerate.size))], g.used)
    else g
  }

  lemma {:induction false} RaisedAt(g: Graph, t: nat, extra: nat, i: nat)
    ensures Raised(g, t, extra).Ancestors(i) == g.Ancestors(i)
    ensures Raised(g, t, extra).Descendants(i) == g.Descendants(i)
    ensures Raised(g, t, extra).FeeRate(i).size == g.FeeRate(i).size
    ensures Raised(g, t, extra).FeeRate(i).fee >= g.FeeRate(i).fee
  {
  }

  lemma {:induction false} RaisedValid(g: Graph, t: nat, extra: nat, lin: seq<nat>)
    requires g.Valid() && g.IsLinearization(g.used, lin)
    ensures Raised(g, t, extra).Valid() && Raised(g, t, extra).IsLinearization(g.used, lin)
  {
    var h := Raised(g, t, extra);
    forall i
      ensures h.Ancestors(i) == g.Ancestors(i) && h.Descendants(i) == g.Descendants(i)
      ensures h.FeeRate(i).size == g.FeeRate(i).size
    {
      RaisedAt(g, t, extra, i);
    }
  }

  lemma {:induction false} RaisedPeak(g: Graph, t: nat, extra: nat, p: int, q: int, s: seq<nat>)
    requires q > 0
    ensures Peak(p, q, Rates(Raised(g, t, extra), s)) >= Peak(p, q, Rates(g, s))
    ensures Raised(g, t, extra).SeqRate(s).size == g.SeqRate(s).size
  {
    var h := Raised(g, t, extra);
    if s != [] {
      var rest := s[1..];
      RaisedPeak(g, t, extra, p, q, rest);
      RaisedAt(g, t, extra, s[0]);
      assert Rates(g, s)[1..] == Rates(g, rest) && Rates(h, s)[1..] == Rates(h, rest);
      SeqRateHead(g, s);
      SeqRateHead(h, s);
      MoreFee(p, q, h.FeeRate(s[0]), g.FeeRate(s[0]));
    }
  }

  lemma MoreFee(p: int, q: int, a: FeeFrac, b: FeeFrac)
    requires q > 0 && a.size == b.size && a.fee >= b.fee
    ensures Value(p, q, a) >= Value(p, q, b)
  {
  }

  /** Replacing a leaf by one of the same size and a higher fee, at the end, and postlinearizing never
      gives a worse diagram than before. */
  lemma {:induction false} ReplacedLeafIsHarmless(g: Graph, lin: seq<nat>, i: nat, extra: nat)
    requires g.Valid() && g.IsLinearization(g.used, lin) && i < |lin| && g.Descendants(lin[i]) == {lin[i]}
    ensures var h := Raised(g, lin[i], extra);
            var out := Postlinearized(h, MovedToEnd(lin, i));
            && h.IsLinearization(g.used, out) && h.SeqRate(out).size == g.SeqRate(lin).size
            && Positive(DiagramOf(h, out)) && Positive(DiagramOf(g, lin))
            && NowhereBelow(DiagramOf(h, out), DiagramOf(g, lin), g.SeqRate(lin).size as real)
  {
    var t := lin[i];
    var h := Raised(g, t, extra);
    var out := Postlinearized(h, MovedToEnd(lin, i));
    RaisedValid(g, t, extra, lin);
    RaisedAt(g, t, extra, t);
    MovedLeafIsHarmless(h, lin, i);
    SeqRateIsSetRate(h, out);
    SeqRateIsSetRate(h, lin);
    RaisedPeak(g, t, extra, 0, 1, lin);
    DiagramShape(h, out);
    DiagramShape(g, lin);
    forall p: int, q: int | q > 0 ensures Peak(p, q, DiagramOf(h, out)) >= Peak(p, q, DiagramOf(g, lin)) {
      RaisedPeak(g, t, extra, p, q, lin);
      ChunkingPeak(h, p, q, out);
      ChunkingPeak(g, p, q, lin);
      assert Peak(p, q, Rates(h, out)) >= Peak(p, q, Rates(h, lin));
    }
    DiagramDuality(DiagramOf(h, out), DiagramOf(g, lin));
  }
}
