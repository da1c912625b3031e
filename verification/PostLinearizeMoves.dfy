/** Moving a transaction nothing depends on to the end of a linearization does no harm: the pass from
    the back finds its place again. Seen from the back, a transaction t that comes first but could
    come later is a group of its own, which the other groups pass as if it were not there. */
module PostMoves {
  import opened FeeFracs
  import opened Sets
  import opened Graphs
  import opened Diagrams
  import opened Chunkings
  import opened PostGroups
  import opened PostPasses

  ghost function With(ds: seq<seq<nat>>, t: nat, j: nat): seq<seq<nat>>
    requires j <= |ds|
  {
    ds[..j] + [[t]] + ds[j..]
  }

  lemma {:induction false} WithIndex(ds: seq<seq<nat>>, t: nat, j: nat, i: nat)
    requires j <= |ds| && i <= |ds|
    ensures |With(ds, t, j)| == |ds| + 1
    ensures With(ds, t, j)[i] == if i < j then ds[i] else if i == j then [t] else ds[i - 1]
  {
  }

  /** No member of the groups depends on t. */
  ghost predicate Free(g: Graph, ds: seq<seq<nat>>, t: nat) {
    forall x :: x in Elements(Flatten(ds)) ==> t !in g.Ancestors(x)
  }

  /** Groups after the moving one are left alone. */
  lemma {:induction false} SettledSuffix(g: Graph, a: seq<seq<nat>>, k: nat, b: seq<seq<nat>>)
    requires k < |a|
    ensures Settled(g, a + b, k) == Settled(g, a, k) + b
    decreases k
  {
    if k > 0 {
      var ab := a + b;
      assert ab[k] == a[k] && ab[k - 1] == a[k - 1];
      assert ab[k + 1..] == a[k + 1..] + b && ab[..k - 1] == a[..k - 1];
      assert MergeAt(ab, k) == MergeAt(a, k) + b;
      assert SwapAt(ab, k) == SwapAt(a, k) + b;
      SettledSuffix(g, MergeAt(a, k), k - 1, b);
      SettledSuffix(g, SwapAt(a, k), k - 1, b);
    }
  }

  /** The moving group stops at t only if it would have stopped without it. */
  lemma {:induction false} StopAt(g: Graph, ds: seq<seq<nat>>, t: nat, k: nat)
    requires k < |ds| && Grouped(g, With(ds, t, k), k + 1)
    requires !g.SeqRate(ds[k]).Higher(g.SeqRate([t]))
    ensures Settled(g, ds, k) == ds && Settled(g, With(ds, t, k), k + 1) == With(ds, t, k)
  {
    var gs := With(ds, t, k);
    WithIndex(ds, t, k, k);
    WithIndex(ds, t, k, k + 1);
    if k > 0 {
      WithIndex(ds, t, k, k - 1);
      RatesPositive(g, gs);
      var rs := ChunkRates(g, gs);
      assert rs[k - 1] == g.SeqRate(ds[k - 1]) && rs[k] == g.SeqRate([t]) && rs[k + 1] == g.SeqRate(ds[k]);
      assert Falls(rs, k);
      NotLowerTransitive(rs[k - 1], rs[k], rs[k + 1]);
    }
  }

  /** The moving group passes t, which it does not depend on. */
  lemma {:induction false} PassBy(g: Graph, ds: seq<seq<nat>>, t: nat, k: nat) returns (j: nat)
    requires k < |ds| && Free(g, ds, t) && g.SeqRate(ds[k]).Higher(g.SeqRate([t]))
    ensures j <= |Settled(g, ds, k)| && Settled(g, With(ds, t, k), k + 1) == With(Settled(g, ds, k), t, j)
  {
    var gs, a, b := With(ds, t, k), ds[..k + 1], ds[k + 1..];
    WithIndex(ds, t, k, k);
    WithIndex(ds, t, k, k + 1);
    Independent(g, ds, t, k);
    SwapPast(ds, t, k);
    SettledSuffix(g, a, k, [[t]] + b);
    assert ds == a + b;
    SettledSuffix(g, a, k, b);
    j := |Settled(g, a, k)|;
    WithBetween(Settled(g, a, k), t, b);
  }

  lemma {:induction false} SwapPast(ds: seq<seq<nat>>, t: nat, k: nat)
    requires k < |ds|
    ensures |With(ds, t, k)| == |ds| + 1 && SwapAt(With(ds, t, k), k + 1) == ds[..k + 1] + ([[t]] + ds[k + 1..])
  {
    var gs := With(ds, t, k);
    assert gs[..k] == ds[..k] && gs[k + 2..] == ds[k + 1..];
  }

  lemma {:induction false} WithBetween(a: seq<seq<nat>>, t: nat, b: seq<seq<nat>>)
    ensures a + ([[t]] + b) == With(a + b, t, |a|)
  {
  }

  lemma {:induction false} Independent(g: Graph, ds: seq<seq<nat>>, t: nat, k: nat)
    requires k < |ds| && Free(g, ds, t)
    ensures DepsOf(g, ds[k]) * Elements([t]) == {}
  {
    if x :| x in DepsOf(g, ds[k]) * Elements([t]) {
      var i :| i in ds[k] && x in g.Ancestors(i);
      MemberOf(ds, k, i);
      assert false;
    }
  }

  lemma {:induction false} MemberOf(ds: seq<seq<nat>>, k: nat, x: nat)
    requires k < |ds| && x in ds[k]
    ensures x in Elements(Flatten(ds))
  {
    assert ds == ds[..k] + ([ds[k]] + ds[k + 1..]);
    FlattenConcat(ds[..k], [ds[k]] + ds[k + 1..]);
    FlattenConcat([ds[k]], ds[k + 1..]);
    FlattenOne(ds[k]);
    assert x in Flatten(ds);
  }

  /** One step of the moving group, with and without t before it. */
  ghost function Next(g: Graph, ds: seq<seq<nat>>, k: nat): seq<seq<nat>>
    requires 0 < k < |ds|
  {
    if DepsOf(g, ds[k]) * Elements(ds[k - 1]) != {} then MergeAt(ds, k) else SwapAt(ds, k)
  }

  lemma {:induction false} NextWith(g: Graph, ds: seq<seq<nat>>, t: nat, j: nat, k: nat, n: nat)
    returns (ds': seq<seq<nat>>)
    requires j < k < |ds| && n == k - 1 && Free(g, ds, t) && Grouped(g, With(ds, t, j), k + 1)
    requires g.SeqRate(ds[k]).Higher(g.SeqRate(ds[k - 1]))
    ensures Free(g, ds', t) && n < |ds'| && Settled(g, ds, k) == Settled(g, ds', n)
    ensures Grouped(g, With(ds', t, j), n + 1)
    ensures Settled(g, With(ds, t, j), k + 1) == Settled(g, With(ds', t, j), n + 1)
  {
    ds' := NextGroups(g, ds, t, j, k, n);
    NextSettles(g, ds, t, j, k, n, ds');
  }

  lemma {:induction false} NextGroups(g: Graph, ds: seq<seq<nat>>, t: nat, j: nat, k: nat, n: nat)
    returns (ds': seq<seq<nat>>)
    requires j < k < |ds| && n == k - 1 && Free(g, ds, t) && Grouped(g, With(ds, t, j), k + 1)
    requires g.SeqRate(ds[k]).Higher(g.SeqRate(ds[k - 1]))
    ensures ds' == Next(g, ds, k) && Free(g, ds', t) && n < |ds'| && Grouped(g, With(ds', t, j), n + 1)
  {
    var gs := WithAfter(ds, t, j, k);
    ds' := Next(g, ds, k);
    NextAround(g, ds, t, j, k);
    NextGrouped(g, gs, k + 1, n + 1, With(ds', t, j));
  }

  lemma {:induction false} NextSettles(g: Graph, ds: seq<seq<nat>>, t: nat, j: nat, k: nat, n: nat,
                                       ds': seq<seq<nat>>)
    requires j < k < |ds| && n == k - 1 && Free(g, ds, t) && g.SeqRate(ds[k]).Higher(g.SeqRate(ds[k - 1]))
    requires ds' == Next(g, ds, k)
    ensures n < |ds'| && Settled(g, ds, k) == Settled(g, ds', n)
    ensures |With(ds, t, j)| == |ds| + 1 && Settled(g, With(ds, t, j), k + 1) == Settled(g, With(ds', t, j), n + 1)
  {
    var gs := WithAfter(ds, t, j, k);
    NextAround(g, ds, t, j, k);
    SettledStep(g, ds, k, n, ds');
    SettledStep(g, gs, k + 1, n + 1, With(ds', t, j));
  }

  lemma {:induction false} SettledStep(g: Graph, gs: seq<seq<nat>>, k: nat, n: nat, gs': seq<seq<nat>>)
    requires 0 < k < |gs| && n == k - 1 && g.SeqRate(gs[k]).Higher(g.SeqRate(gs[k - 1])) && gs' == Next(g, gs, k)
    ensures n < |gs'| && Settled(g, gs, k) == Settled(g, gs', n)
  {
  }

  lemma {:induction false} WithAfter(ds: seq<seq<nat>>, t: nat, j: nat, k: nat) returns (gs: seq<seq<nat>>)
    requires j < k < |ds|
    ensures gs == With(ds, t, j) && |gs| == |ds| + 1 && gs[k + 1] == ds[k] && gs[k] == ds[k - 1]
  {
    gs := With(ds, t, j);
    WithIndex(ds, t, j, k + 1);
    WithIndex(ds, t, j, k);
  }

  lemma {:induction false} NextGrouped(g: Graph, gs: seq<seq<nat>>, k: nat, n: nat, gs': seq<seq<nat>>)
    requires 0 < k < |gs| && n == k - 1 && Grouped(g, gs, k) && g.SeqRate(gs[k]).Higher(g.SeqRate(gs[k - 1]))
    requires gs' == Next(g, gs, k)
    ensures n < |gs'| && Grouped(g, gs', n)
  {
    if DepsOf(g, gs[k]) * Elements(gs[k - 1]) != {} {
      MergeGrouped(g, gs, k);
    } else {
      SwapGrouped(g, gs, k);
    }
  }

  lemma {:induction false} NextAround(g: Graph, ds: seq<seq<nat>>, t: nat, j: nat, k: nat)
    requires j < k < |ds| && Free(g, ds, t)
    ensures Free(g, Next(g, ds, k), t) && k - 1 < |Next(g, ds, k)|
    ensures |With(ds, t, j)| == |ds| + 1 && Next(g, With(ds, t, j), k + 1) == With(Next(g, ds, k), t, j)
  {
    WithIndex(ds, t, j, k + 1);
    WithIndex(ds, t, j, k);
    MergeWith(ds, t, j, k);
    SwapWith(ds, t, j, k);
    AroundPair(ds, k);
    SwapFree(g, ds, t, k);
  }

  lemma {:induction false} StayWith(g: Graph, ds: seq<seq<nat>>, t: nat, j: nat, k: nat)
    requires j < k < |ds| && !g.SeqRate(ds[k]).Higher(g.SeqRate(ds[k - 1]))
    ensures Settled(g, ds, k) == ds
    ensures |With(ds, t, j)| == |ds| + 1 && Settled(g, With(ds, t, j), k + 1) == With(ds, t, j)
  {
    WithIndex(ds, t, j, k + 1);
    WithIndex(ds, t, j, k);
  }

  /** A group moves through a list that holds t as it does through the list without it. */
  lemma {:induction false} SettledSkips(g: Graph, ds: seq<seq<nat>>, t: nat, j: nat, k: nat) returns (j': nat)
    requires j <= k < |ds| && Free(g, ds, t) && Grouped(g, With(ds, t, j), k + 1)
    ensures j' <= |Settled(g, ds, k)| && Settled(g, With(ds, t, j), k + 1) == With(Settled(g, ds, k), t, j')
    decreases k, 2
  {
    if j < k {
      j' := BeforeSkips(g, ds, t, j, k);
    } else {
      j' := AtSkips(g, ds, t, k);
    }
  }

  lemma {:induction false} AtSkips(g: Graph, ds: seq<seq<nat>>, t: nat, k: nat) returns (j': nat)
    requires k < |ds| && Free(g, ds, t) && Grouped(g, With(ds, t, k), k + 1)
    ensures j' <= |Settled(g, ds, k)| && Settled(g, With(ds, t, k), k + 1) == With(Settled(g, ds, k), t, j')
  {
    if g.SeqRate(ds[k]).Higher(g.SeqRate([t])) {
      j' := PassBy(g, ds, t, k);
    } else {
      StopAt(g, ds, t, k);
      j' := k;
    }
  }

  lemma {:induction false} BeforeSkips(g: Graph, ds: seq<seq<nat>>, t: nat, j: nat, k: nat) returns (j': nat)
    requires j < k < |ds| && Free(g, ds, t) && Grouped(g, With(ds, t, j), k + 1)
    ensures j' <= |Settled(g, ds, k)| && Settled(g, With(ds, t, j), k + 1) == With(Settled(g, ds, k), t, j')
    decreases k, 1
  {
    if g.SeqRate(ds[k]).Higher(g.SeqRate(ds[k - 1])) {
      j' := StepSkips(g, ds, t, j, k);
    } else {
      StayWith(g, ds, t, j, k);
      j' := j;
    }
  }

  lemma {:induction false} StepSkips(g: Graph, ds: seq<seq<nat>>, t: nat, j: nat, k: nat) returns (j': nat)
    requires j < k < |ds| && Free(g, ds, t) && Grouped(g, With(ds, t, j), k + 1)
    requires g.SeqRate(ds[k]).Higher(g.SeqRate(ds[k - 1]))
    ensures j' <= |Settled(g, ds, k)| && Settled(g, With(ds, t, j), k + 1) == With(Settled(g, ds, k), t, j')
    decreases k, 0
  {
    var n: nat := k - 1;
    var ds' := NextWith(g, ds, t, j, k, n);
    j' := SettledSkips(g, ds', t, j, n);
  }

  lemma {:induction false} MergeWith(ds: seq<seq<nat>>, t: nat, j: nat, k: nat)
    requires j < k < |ds|
    ensures |With(ds, t, j)| == |ds| + 1 && MergeAt(With(ds, t, j), k + 1) == With(MergeAt(ds, k), t, j)
  {
    var gs := With(ds, t, j);
    assert gs[..k] == ds[..j] + [[t]] + ds[j..k - 1];
    assert MergeAt(ds, k)[..j] == ds[..j];
    assert MergeAt(ds, k)[j..] == ds[j..k - 1] + [ds[k - 1] + ds[k]] + ds[k + 1..];
  }

  lemma {:induction false} SwapWith(ds: seq<seq<nat>>, t: nat, j: nat, k: nat)
    requires j < k < |ds|
    ensures |With(ds, t, j)| == |ds| + 1 && SwapAt(With(ds, t, j), k + 1) == With(SwapAt(ds, k), t, j)
  {
    var gs := With(ds, t, j);
    assert gs[..k] == ds[..j] + [[t]] + ds[j..k - 1];
    assert SwapAt(ds, k)[..j] == ds[..j];
    assert SwapAt(ds, k)[j..] == ds[j..k - 1] + [ds[k], ds[k - 1]] + ds[k + 1..];
  }

  lemma {:induction false} SwapFree(g: Graph, ds: seq<seq<nat>>, t: nat, k: nat)
    requires 0 < k < |ds| && Free(g, ds, t)
    ensures Free(g, SwapAt(ds, k), t)
  {
    AroundPair(ds, k);
    var x, p, c, y := Flatten(ds[..k - 1]), ds[k - 1], ds[k], Flatten(ds[k + 1..]);
    forall i | i in Elements(Flatten(SwapAt(ds, k))) ensures i in Elements(Flatten(ds)) {
      assert i in x + (p + c) + y;
    }
  }

  /** A pass that starts with t leaves the groups of the pass without t, and t on its own. */
  lemma {:induction false} PassSkips(g: Graph, t: nat, a: seq<nat>) returns (j: nat)
    requires Ordered(g, [t] + a) && forall x :: x in Elements(a) ==> t !in g.Ancestors(x)
    ensures j <= |Pass(g, a)| && Pass(g, [t] + a) == With(Pass(g, a), t, j)
  {
    if a == [] {
      PassOfOne(g, [t] + a, t);
      j := 0;
    } else {
      var a', x := a[..|a| - 1], a[|a| - 1];
      assert a == a' + [x] && [t] + a == ([t] + a') + [x];
      assert ([t] + a)[..|a|] == [t] + a';
      OrderedPrefix(g, [t] + a, |a|);
      j := PassSkips(g, t, a');
      j := NextSkips(g, t, a', x, Pass(g, a'), Pass(g, [t] + a'), j);
      PassStep(g, a', x);
      PassStep(g, [t] + a', x);
    }
  }

  lemma {:induction false} PassStep(g: Graph, a: seq<nat>, x: nat)
    ensures Pass(g, a + [x]) == Settled(g, Pass(g, a) + [[x]], |Pass(g, a)|)
  {
    assert (a + [x])[..|a|] == a;
  }

  lemma {:induction false} PassOfOne(g: Graph, lin: seq<nat>, t: nat)
    requires |lin| == 1 && lin[0] == t
    ensures Pass(g, lin) == With([], t, 0)
  {
    assert lin[..0] == [];
  }

  lemma {:induction false} NextSkips(g: Graph, t: nat, a: seq<nat>, x: nat, ds: seq<seq<nat>>, gs: seq<seq<nat>>,
                                     j: nat)
    returns (j': nat)
    requires Ordered(g, [t] + a + [x]) && Ordered(g, [t] + a)
    requires forall y :: y in Elements(a + [x]) ==> t !in g.Ancestors(y)
    requires ds == Pass(g, a) && gs == Pass(g, [t] + a) && j <= |ds| && gs == With(ds, t, j)
    ensures var out := Settled(g, ds + [[x]], |ds|);
            j' <= |out| && Settled(g, gs + [[x]], |gs|) == With(out, t, j')
  {
    var ds', k := ds + [[x]], |ds|;
    NextReadyWith(g, t, a, x, ds, gs, j, ds', k);
    j' := SettledSkips(g, ds', t, j, k);
  }

  lemma {:induction false} NextReadyWith(g: Graph, t: nat, a: seq<nat>, x: nat, ds: seq<seq<nat>>, gs: seq<seq<nat>>,
                                         j: nat, ds': seq<seq<nat>>, k: nat)
    requires Ordered(g, [t] + a + [x]) && Ordered(g, [t] + a)
    requires forall y :: y in Elements(a + [x]) ==> t !in g.Ancestors(y)
    requires ds == Pass(g, a) && gs == Pass(g, [t] + a) && j <= |ds| && gs == With(ds, t, j)
    requires ds' == ds + [[x]] && k == |ds|
    ensures gs + [[x]] == With(ds', t, j) && |gs| == k + 1 && Grouped(g, With(ds', t, j), k + 1) && Free(g, ds', t)
  {
    NextReady(g, t, a, x, ds, gs);
    WithAppend(ds, t, j, [x]);
  }

  lemma {:induction false} NextReady(g: Graph, t: nat, a: seq<nat>, x: nat, ds: seq<seq<nat>>, gs: seq<seq<nat>>)
    requires Ordered(g, [t] + a + [x]) && Ordered(g, [t] + a)
    requires forall y :: y in Elements(a + [x]) ==> t !in g.Ancestors(y)
    requires ds == Pass(g, a) && gs == Pass(g, [t] + a)
    ensures Grouped(g, gs + [[x]], |gs|) && Free(g, ds + [[x]], t)
  {
    PassGrouped(g, [t] + a);
    AppendPass(g, gs, [t] + a, x);
    AppendFree(g, t, a, x);
  }

  lemma {:induction false} WithAppend(ds: seq<seq<nat>>, t: nat, j: nat, c: seq<nat>)
    requires j <= |ds|
    ensures With(ds, t, j) + [c] == With(ds + [c], t, j) && |With(ds, t, j)| == |ds| + 1
  {
  }

  lemma {:induction false} AppendFree(g: Graph, t: nat, a: seq<nat>, x: nat)
    requires Ordered(g, [t] + a) && forall y :: y in Elements(a + [x]) ==> t !in g.Ancestors(y)
    ensures Free(g, Pass(g, a) + [[x]], t)
  {
    OrderedSuffix(g, [t], a);
    PassGrouped(g, a);
    FlattenConcat(Pass(g, a), [[x]]);
    FlattenOne([x]);
    ElementsConcat(Flatten(Pass(g, a)), [x]);
    ElementsConcat(a, [x]);
  }

  lemma {:induction false} OrderedSuffix(g: Graph, a: seq<nat>, b: seq<nat>)
    requires Ordered(g, a + b)
    ensures Ordered(g, b)
  {
    ElementsConcat(a, b);
    DistinctConcat(a, b);
    InOrderConcat(g, a, b);
  }

  // ---- t is best where the pass left it ----

  lemma {:induction false} OneFurther(u: seq<seq<nat>>, t: nat, w: seq<seq<nat>>)
    requires w != []
    ensures u + [[t]] + w == u + [[t], w[0]] + w[1..]
    ensures (u + [w[0]]) + [[t]] + w[1..] == u + [w[0], [t]] + w[1..]
    ensures u + w == (u + [w[0]]) + w[1..]
  {
    assert w == [w[0]] + w[1..];
  }

  /** Moving t behind groups of no higher feerate is no improvement. */
  lemma {:induction false} LaterIsWorse(g: Graph, u: seq<seq<nat>>, t: nat, w: seq<seq<nat>>)
    requires Sized(g, Flatten(u + [[t]] + w)) && forall i :: 0 <= i < |w| ==> Tight(g, w[i])
    requires forall i :: 0 <= i < |w| ==> g.SeqRate([t]).NotLower(g.SeqRate(w[i]))
    ensures Outprices(Rates(g, Flatten(u + [[t]] + w)), Rates(g, Flatten(u + w) + [t]))
    decreases |w|
  {
    if w == [] {
      FlattenConcat(u, [[t]]);
      FlattenOne([t]);
      assert u + [[t]] + w == u + [[t]] && u + w == u;
    } else {
      var p, rest := w[0], w[1..];
      var x, y := Flatten(u), Flatten(rest);
      OneFurther(u, t, w);
      FlattenPair(u, [t], p, rest);
      FlattenPair(u, p, [t], rest);
      SizedParts(g, x, [t], p, y);
      SwapOutprices(g, x, p, [t], y);
      LaterIsWorse(g, u + [p], t, rest);
      OutpricesTransitive(Rates(g, Flatten(u + [[t]] + w)), Rates(g, Flatten((u + [p]) + [[t]] + rest)),
                          Rates(g, Flatten(u + w) + [t]));
    }
  }

  lemma {:induction false} SizedParts(g: Graph, x: seq<nat>, a: seq<nat>, b: seq<nat>, y: seq<nat>)
    requires Sized(g, x + (a + b) + y)
    ensures Sized(g, a) && Sized(g, b) && Sized(g, x + (b + a) + y)
  {
    ElementsConcat(x + (a + b), y);
    ElementsConcat(x, a + b);
    ElementsConcat(a, b);
    ElementsConcat(x + (b + a), y);
    ElementsConcat(x, b + a);
    ElementsConcat(b, a);
  }

  lemma {:induction false} FirstNotLower(rs: seq<FeeFrac>, i: nat, j: nat)
    requires Positive(rs) && AlmostSorted(rs, |rs|) && i <= j < |rs|
    ensures rs[i].NotLower(rs[j])
    decreases j
  {
    if i < j {
      FirstNotLower(rs, i, j - 1);
      assert Falls(rs, j);
      NotLowerTransitive(rs[i], rs[j - 1], rs[j]);
    }
  }

  lemma {:induction false} LaterGroup(g: Graph, ds: seq<seq<nat>>, t: nat, j: nat, i: nat)
    requires j <= i < |ds| && Grouped(g, With(ds, t, j), |ds| + 1)
    ensures Tight(g, ds[i]) && g.SeqRate([t]).NotLower(g.SeqRate(ds[i]))
  {
    var gs := With(ds, t, j);
    RatesPositive(g, gs);
    WithIndex(ds, t, j, j);
    WithIndex(ds, t, j, i + 1);
    assert GoodGroup(g, gs[i + 1]);
    var rs := ChunkRates(g, gs);
    FirstNotLower(rs, j, i + 1);
    assert rs[j] == g.SeqRate(gs[j]) && rs[i + 1] == g.SeqRate(gs[i + 1]);
  }

  /** Sorted groups with t among them are at least as good as with t moved to the end. */
  lemma {:induction false} InPlaceIsBetter(g: Graph, ds: seq<seq<nat>>, t: nat, j: nat)
    requires j <= |ds| && Grouped(g, With(ds, t, j), |ds| + 1)
    ensures Outprices(Rates(g, Flatten(With(ds, t, j))), Rates(g, Flatten(ds) + [t]))
  {
    var w := ds[j..];
    forall i | 0 <= i < |w| ensures Tight(g, w[i]) && g.SeqRate([t]).NotLower(g.SeqRate(w[i])) {
      LaterGroup(g, ds, t, j, j + i);
    }
    assert ds[..j] + w == ds;
    LaterIsWorse(g, ds[..j], t, w);
  }

  /** Starting with t rather than meeting it later costs nothing, whatever comes after. */
  lemma {:induction false} EarlyIsHarmless(g: Graph, t: nat, a: seq<nat>, b: seq<nat>)
    requires Ordered(g, [t] + a + b) && Ordered(g, a + [t] + b)
    ensures Reorders(g, Flatten(Pass(g, [t] + a + b)), a + [t] + b)
    decreases |b|
  {
    if b == [] {
      assert [t] + a + b == [t] + a && a + [t] + b == a + [t];
      EarlyAlone(g, t, a);
    } else {
      var n, x := |b| - 1, b[|b| - 1];
      var b', lin := b[..n], [t] + a + b;
      assert lin == ([t] + a + b') + [x] && lin[..|lin| - 1] == [t] + a + b';
      assert a + [t] + b == (a + [t] + b') + [x] && (a + [t] + b)[..|lin| - 1] == a + [t] + b';
      OrderedPrefix(g, lin, |lin| - 1);
      OrderedPrefix(g, a + [t] + b, |lin| - 1);
      EarlyIsHarmless(g, t, a, b');
      PassGrouped(g, [t] + a + b');
      var gs := Pass(g, [t] + a + b');
      AppendPass(g, gs, a + [t] + b', x);
      SettledGrouped(g, gs + [[x]], |gs|);
      OutpricesTransitive(Rates(g, Flatten(Pass(g, lin))), Rates(g, Flatten(gs + [[x]])), Rates(g, a + [t] + b));
    }
  }

  lemma {:induction false} EarlyAlone(g: Graph, t: nat, a: seq<nat>)
    requires Ordered(g, [t] + a) && Ordered(g, a + [t])
    ensures Reorders(g, Flatten(Pass(g, [t] + a)), a + [t])
  {
    InOrderConcat(g, a, [t]);
    assert t in Elements([t]);
    var j := PassSkips(g, t, a);
    OrderedSuffix(g, [t], a);
    PassGrouped(g, a);
    PassGrouped(g, [t] + a);
    var ds := Pass(g, a);
    InPlaceIsBetter(g, ds, t, j);
    SeqRateIsSetRate(g, Flatten(ds));
    SeqRateIsSetRate(g, a);
    OutpricesAppend(g, Flatten(ds), a, [t]);
    OutpricesTransitive(Rates(g, Flatten(With(ds, t, j))), Rates(g, Flatten(ds) + [t]), Rates(g, a + [t]));
    ElementsConcat([t], a);
    ElementsConcat(a, [t]);
    assert Elements([t]) + Elements(a) == Elements(a) + Elements([t]);
  }
}
