/** One postlinearization pass as a function on groups, and what it does to a linearization. */
module PostPasses {
  import opened FeeFracs
  import opened Sets
  import opened Graphs
  import opened Diagrams
  import opened Chunkings
  import opened PostGroups

  /** Group k moves to the front for as long as it has the higher feerate, absorbing what it depends on. */
  ghost function Settled(g: Graph, gs: seq<seq<nat>>, k: nat): seq<seq<nat>>
    requires k < |gs|
    decreases k
  {
    if k == 0 || !g.SeqRate(gs[k]).Higher(g.SeqRate(gs[k - 1])) then gs
    else if DepsOf(g, gs[k]) * Elements(gs[k - 1]) != {} then Settled(g, MergeAt(gs, k), k - 1)
    else Settled(g, SwapAt(gs, k), k - 1)
  }

  /** The groups after all transactions of lin have been appended one by one. */
  ghost function Pass(g: Graph, lin: seq<nat>): seq<seq<nat>> {
    if lin == [] then []
    else
      var gs := Pass(g, lin[..|lin| - 1]);
      Settled(g, gs + [[lin[|lin| - 1]]], |gs|)
  }

  lemma {:induction false} OutpricesTransitive(xs: seq<FeeFrac>, ys: seq<FeeFrac>, zs: seq<FeeFrac>)
    requires Outprices(xs, ys) && Outprices(ys, zs)
    ensures Outprices(xs, zs)
  {
    forall p: int, q: int | q > 0 ensures Peak(p, q, xs) >= Peak(p, q, zs) {
      assert Peak(p, q, xs) >= Peak(p, q, ys) && Peak(p, q, ys) >= Peak(p, q, zs);
    }
  }

  lemma {:induction false} OutpricesAppend(g: Graph, a: seq<nat>, b: seq<nat>, t: seq<nat>)
    requires Outprices(Rates(g, a), Rates(g, b)) && g.SeqRate(a) == g.SeqRate(b)
    ensures Outprices(Rates(g, a + t), Rates(g, b + t))
  {
    forall p: int, q: int | q > 0 ensures Peak(p, q, Rates(g, a + t)) >= Peak(p, q, Rates(g, b + t)) {
      AppendedPeak(g, p, q, a, t);
      AppendedPeak(g, p, q, b, t);
      assert Peak(p, q, Rates(g, a)) >= Peak(p, q, Rates(g, b));
    }
  }

  lemma {:induction false} AppendedPeak(g: Graph, p: int, q: int, a: seq<nat>, t: seq<nat>)
    ensures Peak(p, q, Rates(g, a + t))
        == Max(Peak(p, q, Rates(g, a)), Value(p, q, g.SeqRate(a)) + Peak(p, q, Rates(g, t)))
  {
    RatesConcat(g, a, t);
    PeakConcat(p, q, Rates(g, a), Rates(g, t));
    RatesSum(g, a);
  }

  /** s holds the transactions of lin, in an order at least as good. */
  ghost predicate Reorders(g: Graph, s: seq<nat>, lin: seq<nat>) {
    Elements(s) == Elements(lin) && Outprices(Rates(g, s), Rates(g, lin))
  }

  lemma {:induction false} SettledGrouped(g: Graph, gs: seq<seq<nat>>, k: nat)
    requires k < |gs| && Grouped(g, gs, k)
    ensures Grouped(g, Settled(g, gs, k), |Settled(g, gs, k)|)
    ensures Reorders(g, Flatten(Settled(g, gs, k)), Flatten(gs))
    decreases k
  {
    if k == 0 || !g.SeqRate(gs[k]).Higher(g.SeqRate(gs[k - 1])) {
      StopGrouped(g, gs, k);
    } else if DepsOf(g, gs[k]) * Elements(gs[k - 1]) != {} {
      MergeGrouped(g, gs, k);
      SettledGrouped(g, MergeAt(gs, k), k - 1);
    } else {
      SwapGrouped(g, gs, k);
      var gs' := SwapAt(gs, k);
      SettledGrouped(g, gs', k - 1);
      OutpricesTransitive(Rates(g, Flatten(Settled(g, gs', k - 1))), Rates(g, Flatten(gs')), Rates(g, Flatten(gs)));
    }
  }

  /** What a pass asks of its input. */
  ghost predicate Ordered(g: Graph, lin: seq<nat>) {
    g.Consistent() && g.Acyclic() && Sized(g, lin) && Distinct(lin) && g.InOrder(lin)
  }

  lemma {:induction false} OrderedPrefix(g: Graph, lin: seq<nat>, n: nat)
    requires Ordered(g, lin) && n <= |lin|
    ensures Ordered(g, lin[..n])
  {
    assert lin == lin[..n] + lin[n..];
    ElementsConcat(lin[..n], lin[n..]);
  }

  /** A pass leaves tight, connected groups in topological order, sorted by feerate, that are at
      least as good as its input. */
  lemma {:induction false} PassGrouped(g: Graph, lin: seq<nat>)
    requires Ordered(g, lin)
    ensures Grouped(g, Pass(g, lin), |Pass(g, lin)|)
    ensures Reorders(g, Flatten(Pass(g, lin)), lin)
  {
    if lin != [] {
      var n, idx := |lin| - 1, lin[|lin| - 1];
      var init := lin[..n];
      OrderedPrefix(g, lin, n);
      PassGrouped(g, init);
      assert lin == init + [idx];
      var gs := Pass(g, init);
      AppendPass(g, gs, init, idx);
      SettledGrouped(g, gs + [[idx]], |gs|);
      OutpricesTransitive(Rates(g, Flatten(Pass(g, lin))), Rates(g, Flatten(gs + [[idx]])), Rates(g, lin));
    }
  }

  lemma {:induction false} AppendPass(g: Graph, gs: seq<seq<nat>>, init: seq<nat>, idx: nat)
    requires Grouped(g, gs, |gs|) && Reorders(g, Flatten(gs), init) && Ordered(g, init + [idx])
    ensures Grouped(g, gs + [[idx]], |gs|) && Reorders(g, Flatten(gs + [[idx]]), init + [idx])
    ensures Flatten(gs + [[idx]]) == Flatten(gs) + [idx]
  {
    InOrderConcat(g, init, [idx]);
    DistinctConcat(init, [idx]);
    ElementsConcat(init, [idx]);
    assert idx in init + [idx];
    AppendGrouped(g, gs, idx);
    FlattenConcat(gs, [[idx]]);
    FlattenOne([idx]);
    ElementsConcat(Flatten(gs), [idx]);
    SeqRateIsSetRate(g, Flatten(gs));
    SeqRateIsSetRate(g, init);
    OutpricesAppend(g, Flatten(gs), init, [idx]);
  }
}
