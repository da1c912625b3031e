/** The groups of a postlinearization pass: what merging and swapping adjacent groups preserves. */
module PostGroups {
  import opened FeeFracs
  import opened Sets
  import opened Graphs
  import opened Diagrams
  import opened Chunkings
  import opened Components

  /** gs with groups k - 1 and k merged into one. */
  ghost function MergeAt(gs: seq<seq<nat>>, k: nat): seq<seq<nat>>
    requires 0 < k < |gs|
  {
    gs[..k - 1] + [gs[k - 1] + gs[k]] + gs[k + 1..]
  }

  /** gs with groups k - 1 and k in the other order. */
  ghost function SwapAt(gs: seq<seq<nat>>, k: nat): seq<seq<nat>>
    requires 0 < k < |gs|
  {
    gs[..k - 1] + [gs[k], gs[k - 1]] + gs[k + 1..]
  }

  /** Everything the members of a group depend on. */
  ghost function DepsOf(g: Graph, c: seq<nat>): set<nat> {
    set i, x | i in c && x in g.Ancestors(i) :: x
  }

  /** Sorted by feerate, except that entry k may belong further to the front. */
  ghost predicate AlmostSorted(rs: seq<FeeFrac>, k: nat) {
    && (forall i {:trigger Falls(rs, i)} :: 0 < i < |rs| && i != k && i != k + 1 ==> Falls(rs, i))
    && (0 < k && k + 1 < |rs| ==> rs[k - 1].NotLower(rs[k + 1]))
    && (k + 1 < |rs| ==> rs[k].NotLower(rs[k + 1]))
  }

  ghost predicate GoodGroup(g: Graph, c: seq<nat>) {
    Tight(g, c) && Connected(g, Elements(c))
  }

  /** The state while group k of gs moves to the front: all groups are tight and connected, they are
      in topological order, and sorted but for group k. */
  ghost predicate Grouped(g: Graph, gs: seq<seq<nat>>, k: nat) {
    && g.Consistent() && g.Acyclic() && Sized(g, Flatten(gs)) && Distinct(Flatten(gs)) && g.InOrder(Flatten(gs))
    && (forall i {:trigger GoodGroup(g, gs[i])} :: 0 <= i < |gs| ==> GoodGroup(g, gs[i]))
    && AlmostSorted(ChunkRates(g, gs), k)
  }

  // ---- splitting a list of groups around two neighbours ----

  lemma {:induction false} AroundPair(gs: seq<seq<nat>>, k: nat)
    requires 0 < k < |gs|
    ensures Flatten(gs) == Flatten(gs[..k - 1]) + (gs[k - 1] + gs[k]) + Flatten(gs[k + 1..])
    ensures Flatten(MergeAt(gs, k)) == Flatten(gs)
    ensures Flatten(SwapAt(gs, k)) == Flatten(gs[..k - 1]) + (gs[k] + gs[k - 1]) + Flatten(gs[k + 1..])
  {
    var x, p, c, y := gs[..k - 1], gs[k - 1], gs[k], gs[k + 1..];
    assert gs == x + [p, c] + y;
    FlattenPair(x, p, c, y);
    FlattenPair(x, c, p, y);
    FlattenConcat(x + [p + c], y);
    FlattenConcat(x, [p + c]);
    FlattenOne(p + c);
  }

  lemma {:induction false} FlattenPair(x: seq<seq<nat>>, a: seq<nat>, b: seq<nat>, y: seq<seq<nat>>)
    ensures Flatten(x + [a, b] + y) == Flatten(x) + (a + b) + Flatten(y)
  {
    FlattenConcat(x + [a, b], y);
    FlattenConcat(x, [a, b]);
    assert [a, b] == [a] + [b];
    FlattenConcat([a], [b]);
    FlattenOne(a);
    FlattenOne(b);
  }

  lemma {:induction false} PairSized(g: Graph, gs: seq<seq<nat>>, k: nat)
    requires 0 < k < |gs| && Grouped(g, gs, k)
    ensures Sized(g, gs[k - 1]) && Sized(g, gs[k])
    ensures g.SeqRate(gs[k - 1]).size > 0 && g.SeqRate(gs[k]).size > 0
  {
    ChunkSized(g, gs, k - 1);
    ChunkSized(g, gs, k);
    assert GoodGroup(g, gs[k - 1]) && GoodGroup(g, gs[k]);
    SeqRateSize(g, gs[k - 1]);
    SeqRateSize(g, gs[k]);
  }

  lemma {:induction false} RatesPositive(g: Graph, gs: seq<seq<nat>>)
    requires Sized(g, Flatten(gs)) && forall i :: 0 <= i < |gs| ==> GoodGroup(g, gs[i])
    ensures Positive(ChunkRates(g, gs))
  {
    forall i | 0 <= i < |gs| ensures ChunkRates(g, gs)[i].size > 0 {
      ChunkSized(g, gs, i);
      assert GoodGroup(g, gs[i]);
      SeqRateSize(g, gs[i]);
    }
  }

  // ---- merging ----

  lemma {:induction false} MergedRates(g: Graph, gs: seq<seq<nat>>, k: nat)
    requires 0 < k < |gs|
    ensures var rs := ChunkRates(g, gs);
            ChunkRates(g, MergeAt(gs, k)) == rs[..k - 1] + [rs[k - 1].Plus(rs[k])] + rs[k + 1..]
  {
    SeqRateConcat(g, gs[k - 1], gs[k]);
    var rs, rs' := ChunkRates(g, gs), ChunkRates(g, MergeAt(gs, k));
    forall i | 0 <= i < |rs'|
      ensures rs'[i] == if i < k - 1 then rs[i] else if i == k - 1 then rs[k - 1].Plus(rs[k]) else rs[i + 1]
    {
      MergeIndex(gs, k, i);
    }
  }

  lemma {:induction false} MergeIndex(gs: seq<seq<nat>>, k: nat, i: nat)
    requires 0 < k < |gs| && i < |gs| - 1
    ensures |MergeAt(gs, k)| == |gs| - 1
    ensures MergeAt(gs, k)[i] == if i < k - 1 then gs[i] else if i == k - 1 then gs[k - 1] + gs[k] else gs[i + 1]
  {
  }

  lemma {:induction false} SwapIndex(gs: seq<seq<nat>>, k: nat, i: nat)
    requires 0 < k < |gs| && i < |gs|
    ensures |SwapAt(gs, k)| == |gs|
    ensures SwapAt(gs, k)[i] == if i == k - 1 then gs[k] else if i == k then gs[k - 1] else gs[i]
  {
  }

  lemma {:induction false} MergeSorted(rs: seq<FeeFrac>, k: nat)
    requires 0 < k < |rs| && Positive(rs) && AlmostSorted(rs, k) && rs[k].Higher(rs[k - 1])
    ensures AlmostSorted(rs[..k - 1] + [rs[k - 1].Plus(rs[k])] + rs[k + 1..], k - 1)
  {
    var m := rs[k - 1].Plus(rs[k]);
    var rs' := rs[..k - 1] + [m] + rs[k + 1..];
    if k + 1 < |rs| {
      BothNotLower(rs[k - 1], rs[k], rs[k + 1]);
      assert rs'[k] == rs[k + 1];
      if k > 1 {
        assert Falls(rs, k - 1);
        NotLowerTransitive(rs[k - 2], rs[k - 1], rs[k + 1]);
        assert rs'[k - 2] == rs[k - 2];
      }
    }
    forall i | 0 < i < |rs'| && i != k - 1 && i != k ensures Falls(rs', i) {
      if i < k - 1 {
        assert rs'[i - 1] == rs[i - 1] && rs'[i] == rs[i];
        assert Falls(rs, i);
      } else {
        assert rs'[i - 1] == rs[i] && rs'[i] == rs[i + 1];
        assert Falls(rs, i + 1);
      }
    }
  }

  lemma {:induction false} BothNotLower(a: FeeFrac, b: FeeFrac, c: FeeFrac)
    requires a.NotLower(c) && b.NotLower(c)
    ensures a.Plus(b).NotLower(c)
  {
    HigherIsValue(a, c);
    HigherIsValue(b, c);
    HigherIsValue(a.Plus(b), c);
    ValuePlus(c.fee, c.size, a, b);
  }

  /** Merging two groups with a dependency between them, the latter of higher feerate. */
  lemma {:induction false} MergeGrouped(g: Graph, gs: seq<seq<nat>>, k: nat)
    requires 0 < k < |gs| && Grouped(g, gs, k)
    requires g.SeqRate(gs[k]).Higher(g.SeqRate(gs[k - 1]))
    requires DepsOf(g, gs[k]) * Elements(gs[k - 1]) != {}
    ensures Grouped(g, MergeAt(gs, k), k - 1) && Flatten(MergeAt(gs, k)) == Flatten(gs)
  {
    AroundPair(gs, k);
    PairSized(g, gs, k);
    var p, c := gs[k - 1], gs[k];
    assert GoodGroup(g, p) && GoodGroup(g, c);
    MergeTight(g, p, c);
    MergeConnected(g, p, c);
    forall i | 0 <= i < |MergeAt(gs, k)| ensures GoodGroup(g, MergeAt(gs, k)[i]) {
      MergeIndex(gs, k, i);
    }
    RatesPositive(g, gs);
    MergedRates(g, gs, k);
    MergeSorted(ChunkRates(g, gs), k);
  }

  lemma {:induction false} MergeConnected(g: Graph, p: seq<nat>, c: seq<nat>)
    requires g.Consistent() && Sized(g, p) && Sized(g, c)
    requires Connected(g, Elements(p)) && Connected(g, Elements(c))
    requires DepsOf(g, c) * Elements(p) != {}
    ensures Connected(g, Elements(p + c))
  {
    var x :| x in DepsOf(g, c) * Elements(p);
    var i :| i in c && x in g.Ancestors(i);
    assert i in Elements(c);
    JoinConnected(g, Elements(c), Elements(p), i, x);
    ElementsConcat(p, c);
    assert Elements(c) + Elements(p) == Elements(p + c);
  }

  // ---- swapping ----

  lemma {:induction false} SwappedRates(g: Graph, gs: seq<seq<nat>>, k: nat)
    requires 0 < k < |gs|
    ensures var rs := ChunkRates(g, gs);
            ChunkRates(g, SwapAt(gs, k)) == rs[..k - 1] + [rs[k], rs[k - 1]] + rs[k + 1..]
  {
    var rs, rs' := ChunkRates(g, gs), ChunkRates(g, SwapAt(gs, k));
    forall i | 0 <= i < |rs'|
      ensures rs'[i] == if i == k - 1 then rs[k] else if i == k then rs[k - 1] else rs[i]
    {
      SwapIndex(gs, k, i);
    }
  }

  lemma {:induction false} SwapSorted(rs: seq<FeeFrac>, k: nat)
    requires 0 < k < |rs| && Positive(rs) && AlmostSorted(rs, k) && rs[k].Higher(rs[k - 1])
    ensures AlmostSorted(rs[..k - 1] + [rs[k], rs[k - 1]] + rs[k + 1..], k - 1)
  {
    var rs' := rs[..k - 1] + [rs[k], rs[k - 1]] + rs[k + 1..];
    forall i | 0 <= i < |rs'| ensures rs'[i] == if i == k - 1 then rs[k] else if i == k then rs[k - 1] else rs[i] {
    }
    if k > 1 {
      assert Falls(rs, k - 1);
    }
    forall i | 0 < i < |rs'| && i != k - 1 && i != k ensures Falls(rs', i) {
      if i != k + 1 {
        assert Falls(rs, i);
      }
    }
  }

  lemma {:induction false} SwapOrder(g: Graph, x: seq<nat>, p: seq<nat>, c: seq<nat>, y: seq<nat>)
    requires g.InOrder(x + (p + c) + y) && DepsOf(g, c) * Elements(p) == {}
    requires Distinct(x + (p + c) + y)
    ensures g.InOrder(x + (c + p) + y) && Distinct(x + (c + p) + y)
    ensures Elements(x + (c + p) + y) == Elements(x + (p + c) + y)
  {
    InOrderConcat(g, x + (p + c), y);
    InOrderConcat(g, x, p + c);
    InOrderConcat(g, p, c);
    ElementsConcat(x + (p + c), y);
    ElementsConcat(x, p + c);
    ElementsConcat(p, c);
    ElementsConcat(x + (c + p), y);
    ElementsConcat(x, c + p);
    ElementsConcat(c, p);
    DistinctConcat(x + (p + c), y);
    DistinctConcat(x, p + c);
    DistinctConcat(p, c);
    DistinctConcat(x + (c + p), y);
    DistinctConcat(x, c + p);
    DistinctConcat(c, p);
    assert Elements(c) + Elements(p) == Elements(p) + Elements(c);
    forall i, j | i in Elements(c) && j in Elements(p) ensures j !in g.Ancestors(i) {
      assert j in g.Ancestors(i) ==> j in DepsOf(g, c) * Elements(p);
    }
    InOrderConcat(g, c, p);
    InOrderConcat(g, x, c + p);
    InOrderConcat(g, x + (c + p), y);
  }

  /** Nothing in the second part is an ancestor of something in the first. */
  ghost predicate NoneBefore(g: Graph, a: set<nat>, b: set<nat>) {
    forall i, j :: i in a && j in b ==> j !in g.Ancestors(i)
  }

  lemma {:induction false} InOrderConcat(g: Graph, a: seq<nat>, b: seq<nat>)
    ensures g.InOrder(a + b) <==> g.InOrder(a) && g.InOrder(b) && NoneBefore(g, Elements(a), Elements(b))
  {
    var s := a + b;
    if g.InOrder(s) {
      forall i, j | 0 <= i < j < |a| ensures a[j] !in g.Ancestors(a[i]) {
        assert s[j] !in g.Ancestors(s[i]);
      }
      forall i, j | 0 <= i < j < |b| ensures b[j] !in g.Ancestors(b[i]) {
        assert s[|a| + j] !in g.Ancestors(s[|a| + i]);
      }
      forall x, y | x in Elements(a) && y in Elements(b) ensures y !in g.Ancestors(x) {
        var i :| 0 <= i < |a| && a[i] == x;
        var j :| 0 <= j < |b| && b[j] == y;
        assert s[|a| + j] !in g.Ancestors(s[i]);
      }
    }
    if g.InOrder(a) && g.InOrder(b) && NoneBefore(g, Elements(a), Elements(b)) {
      forall i, j | 0 <= i < j < |s| ensures s[j] !in g.Ancestors(s[i]) {
        if i < |a| <= j {
          assert a[i] in Elements(a) && b[j - |a|] in Elements(b);
        }
      }
    }
  }

  /** Swapping two independent groups, the latter of higher feerate. */
  lemma {:induction false} SwapGrouped(g: Graph, gs: seq<seq<nat>>, k: nat)
    requires 0 < k < |gs| && Grouped(g, gs, k)
    requires g.SeqRate(gs[k]).Higher(g.SeqRate(gs[k - 1]))
    requires DepsOf(g, gs[k]) * Elements(gs[k - 1]) == {}
    ensures Grouped(g, SwapAt(gs, k), k - 1) && Elements(Flatten(SwapAt(gs, k))) == Elements(Flatten(gs))
    ensures Outprices(Rates(g, Flatten(SwapAt(gs, k))), Rates(g, Flatten(gs)))
  {
    AroundPair(gs, k);
    PairSized(g, gs, k);
    var x, p, c, y := Flatten(gs[..k - 1]), gs[k - 1], gs[k], Flatten(gs[k + 1..]);
    SwapOrder(g, x, p, c, y);
    forall i | 0 <= i < |SwapAt(gs, k)| ensures GoodGroup(g, SwapAt(gs, k)[i]) {
      SwapIndex(gs, k, i);
    }
    RatesPositive(g, gs);
    SwappedRates(g, gs, k);
    SwapSorted(ChunkRates(g, gs), k);
    assert GoodGroup(g, p) && GoodGroup(g, c);
    SwapOutprices(g, x, p, c, y);
  }

  /** Moving a tight group before a tight group of lower feerate never lowers the diagram. */
  lemma {:induction false} SwapOutprices(g: Graph, x: seq<nat>, p: seq<nat>, c: seq<nat>, y: seq<nat>)
    requires Sized(g, p) && Sized(g, c) && Tight(g, p) && Tight(g, c)
    requires g.SeqRate(c).NotLower(g.SeqRate(p))
    ensures Outprices(Rates(g, x + (c + p) + y), Rates(g, x + (p + c) + y))
  {
    var a, b := Rates(g, (c + p) + y), Rates(g, (p + c) + y);
    forall u: int, v: int | v > 0 ensures Peak(u, v, a) >= Peak(u, v, b) {
      SwapPeak(g, u, v, p, c, y);
    }
    OutpricesPrepend(Rates(g, x), a, b);
    RatesConcat(g, x, (c + p) + y);
    RatesConcat(g, x, (p + c) + y);
    assert x + ((c + p) + y) == x + (c + p) + y;
    assert x + ((p + c) + y) == x + (p + c) + y;
  }

  lemma {:induction false} TwoPeaks(g: Graph, u: int, v: int, a: seq<nat>, b: seq<nat>, y: seq<nat>)
    ensures Peak(u, v, Rates(g, (a + b) + y))
         == Max(Max(Peak(u, v, Rates(g, a)), Value(u, v, g.SeqRate(a)) + Peak(u, v, Rates(g, b))),
                Value(u, v, g.SeqRate(a)) + Value(u, v, g.SeqRate(b)) + Peak(u, v, Rates(g, y)))
  {
    RatesConcat(g, a + b, y);
    RatesConcat(g, a, b);
    PeakConcat(u, v, Rates(g, a + b), Rates(g, y));
    PeakConcat(u, v, Rates(g, a), Rates(g, b));
    RatesSum(g, a + b);
    RatesSum(g, a);
    SeqRateConcat(g, a, b);
    ValuePlus(u, v, g.SeqRate(a), g.SeqRate(b));
  }

  lemma {:induction false} SwapPeak(g: Graph, u: int, v: int, p: seq<nat>, c: seq<nat>, y: seq<nat>)
    requires v > 0 && Sized(g, p) && Sized(g, c) && Tight(g, p) && Tight(g, c)
    requires g.SeqRate(c).NotLower(g.SeqRate(p))
    ensures Peak(u, v, Rates(g, (c + p) + y)) >= Peak(u, v, Rates(g, (p + c) + y))
  {
    TwoPeaks(g, u, v, p, c, y);
    TwoPeaks(g, u, v, c, p, y);
    TightPeak(g, u, v, p);
    TightPeak(g, u, v, c);
    PeakNonNegative(u, v, Rates(g, y));
    PeakNonNegative(u, v, Rates(g, (c + p) + y));
    SeqRateSize(g, p);
    SeqRateSize(g, c);
    ValueSign(u, v, g.SeqRate(c), g.SeqRate(p));
  }

  // ---- adding a group, and what a finished list of groups is ----

  lemma {:induction false} AppendGrouped(g: Graph, gs: seq<seq<nat>>, idx: nat)
    requires Grouped(g, gs, |gs|)
    requires idx in g.used && idx !in Elements(Flatten(gs)) && g.InOrder(Flatten(gs) + [idx])
    ensures Grouped(g, gs + [[idx]], |gs|) && Flatten(gs + [[idx]]) == Flatten(gs) + [idx]
  {
    var gs' := gs + [[idx]];
    FlattenConcat(gs, [[idx]]);
    FlattenOne([idx]);
    ElementsConcat(Flatten(gs), [idx]);
    DistinctConcat(Flatten(gs), [idx]);
    forall i | 0 <= i < |gs'| ensures GoodGroup(g, gs'[i]) {
      if i < |gs| {
        assert gs'[i] == gs[i];
      } else {
        SingletonConnected(g, idx);
      }
    }
    ChunkRatesAppend(g, gs, [idx]);
    var rs, rs' := ChunkRates(g, gs), ChunkRates(g, gs');
    forall i | 0 < i < |rs'| && i != |gs| && i != |gs| + 1 ensures Falls(rs', i) {
      assert Falls(rs, i);
    }
  }

  lemma {:induction false} SingletonConnected(g: Graph, i: nat)
    ensures Elements([i]) == {i} && Connected(g, {i})
  {
    forall s | s != {} && ClosedIn(g, {i}, s) ensures s == {i} {
    }
  }

  /** When group k no longer has to move, the groups are sorted. */
  lemma {:induction false} StopGrouped(g: Graph, gs: seq<seq<nat>>, k: nat)
    requires Grouped(g, gs, k) && k < |gs|
    requires k > 0 ==> !g.SeqRate(gs[k]).Higher(g.SeqRate(gs[k - 1]))
    ensures Grouped(g, gs, |gs|)
  {
    var rs := ChunkRates(g, gs);
    forall i | 0 < i < |rs| ensures Falls(rs, i) {
      if i == k {
        assert rs[k - 1] == g.SeqRate(gs[k - 1]) && rs[k] == g.SeqRate(gs[k]);
      }
    }
  }

  /** Sorted groups are the chunks of their concatenation, so its chunks are connected. */
  lemma {:induction false} GroupsAreChunks(g: Graph, gs: seq<seq<nat>>)
    requires Grouped(g, gs, |gs|)
    ensures Chunking(g, Flatten(gs)) == gs
    ensures forall i :: 0 <= i < |gs| ==> Connected(g, Elements(gs[i]))
  {
    ChunkingIsChunking(g, Flatten(gs));
    var rs := ChunkRates(g, gs);
    forall i | 0 < i < |rs| ensures Falls(rs, i) {
    }
    forall i | 0 <= i < |gs| ensures Tight(g, gs[i]) && Connected(g, Elements(gs[i])) {
      assert GoodGroup(g, gs[i]);
    }
    assert IsChunking(g, Flatten(gs), gs);
    ChunkingUnique(g, Flatten(gs), gs, Chunking(g, Flatten(gs)));
  }
}
