/** Improving a linearization in place: one pass over it from the back, and one from the front. */
module PostLinearizing {
  import opened FeeFracs
  import opened Sets
  import opened Graphs
  import opened Diagrams
  import opened Chunkings
  import opened Components
  import opened PostGroups
  import opened PostLists
  import opened PostPasses
  import opened Reversal

  // ---- moving the last group to its place ----

  /** The state while group k, stored in entry cur, moves to the front. */
  ghost predicate Moving(g: Graph, es: seq<TxEntry>, gs: seq<seq<nat>>, k: nat, next: nat, cur: nat, prev: nat) {
    && k < |gs| && Represents(g, es, gs) && Grouped(g, gs, k)
    && cur == At(gs, k) && prev == At(gs, k - 1) && next == At(gs, k + 1)
    && cur < |es| && prev < |es| && next < |es|
  }

  /** Merge or swap the last group with the ones before it while it has the higher feerate. */
  method Settle(ghost g: Graph, entries: seq<TxEntry>, idx: nat, ghost groups: seq<seq<nat>>) returns (es: seq<TxEntry>)
    requires groups != [] && groups[|groups| - 1] == [idx]
    requires Represents(g, entries, groups) && Grouped(g, groups, |groups| - 1)
    ensures |es| == |entries| && Represents(g, es, Settled(g, groups, |groups| - 1))
  {
    es := entries;
    ghost var gs, k: nat := groups, |groups| - 1;
    var curGroup := idx + 1;
    var nextGroup := 0;
    LinkBefore(es, gs, k);
    var prevGroup := es[curGroup].prevGroup;
    while es[curGroup].feerate.Higher(es[prevGroup].feerate)
      invariant |es| == |entries| && Moving(g, es, gs, k, nextGroup, curGroup, prevGroup)
      invariant Settled(g, gs, k) == Settled(g, groups, |groups| - 1)
      decreases k
    {
      es, gs, nextGroup, prevGroup := MovePastPrevious(g, es, gs, k, nextGroup, curGroup, prevGroup);
      k := k - 1;
    }
    SettledHere(g, es, gs, k);
  }

  /** One step: the current group absorbs the one before it if it depends on it, and passes it otherwise. */
  method MovePastPrevious(ghost g: Graph, es: seq<TxEntry>, ghost gs: seq<seq<nat>>, ghost k: nat, next: nat, cur: nat,
                          prev: nat)
    returns (es': seq<TxEntry>, ghost gs': seq<seq<nat>>, next': nat, prev': nat)
    requires Moving(g, es, gs, k, next, cur, prev) && es[cur].feerate.Higher(es[prev].feerate)
    ensures 0 < k && |es'| == |es| && Moving(g, es', gs', k - 1, next', cur, prev')
    ensures Settled(g, gs, k) == Settled(g, gs', k - 1)
  {
    // The sentinel's empty feerate is neither higher nor lower than another.
    NotSentinel(g, es, gs, k);
    PairFields(g, es, gs, k);
    if es[cur].deps * es[prev].group != {} {
      es' := MergeEntries(es, cur, prev);
      gs' := MergeAt(gs, k);
      MergeMoves(g, es, gs, k, es');
      next', prev' := next, es'[cur].prevGroup;
      LinkBefore(es', gs', k - 1);
    } else {
      LinkBefore(es, gs, k - 1);
      next', prev' := prev, es[prev].prevGroup;
      es' := SwapEntries(es, next, cur, prev);
      gs' := SwapAt(gs, k);
      SwapMoves(g, es, gs, k, es');
    }
  }

  lemma {:induction false} LinkBefore(es: seq<TxEntry>, gs: seq<seq<nat>>, k: int)
    requires Chained(es, gs) && 0 <= k < |gs|
    ensures At(gs, k) < |es| && es[At(gs, k)].prevGroup == At(gs, k - 1)
  {
    assert Linked(es, gs, k);
  }

  lemma {:induction false} NotSentinel(g: Graph, es: seq<TxEntry>, gs: seq<seq<nat>>, k: nat)
    requires Represents(g, es, gs) && k < |gs| && At(gs, k) < |es| && At(gs, k - 1) < |es|
    requires es[At(gs, k)].feerate.Higher(es[At(gs, k - 1)].feerate)
    ensures k > 0
  {
  }

  lemma {:induction false} PairFields(g: Graph, es: seq<TxEntry>, gs: seq<seq<nat>>, k: nat)
    requires Represents(g, es, gs) && 0 < k < |gs|
    ensures Summarizes(g, es[At(gs, k)], gs[k]) && Summarizes(g, es[At(gs, k - 1)], gs[k - 1])
    ensures At(gs, k) != At(gs, k - 1) && At(gs, k + 1) != At(gs, k) && At(gs, k + 1) != At(gs, k - 1)
    ensures gs[k][0] + 1 < |es| && gs[k][0] + 1 != At(gs, k - 1) && At(gs, k + 1) < |es|
  {
    assert Holds(g, es, gs[k]) && Holds(g, es, gs[k - 1]);
    TailsDiffer(gs, k, k - 1);
    TailsDiffer(gs, k, k + 1);
    TailsDiffer(gs, k - 1, k + 1);
    GroupsDisjoint(gs, k, k - 1, gs[k][0], gs[k - 1][|gs[k - 1]| - 1]);
  }

  lemma {:induction false} SettledHere(g: Graph, es: seq<TxEntry>, gs: seq<seq<nat>>, k: nat)
    requires Represents(g, es, gs) && k < |gs|
    requires !es[At(gs, k)].feerate.Higher(es[At(gs, k - 1)].feerate)
    ensures Settled(g, gs, k) == gs
  {
    if k > 0 {
      PairFields(g, es, gs, k);
    }
  }

  lemma {:induction false} MergeMoves(g: Graph, es: seq<TxEntry>, gs: seq<seq<nat>>, k: nat, es': seq<TxEntry>)
    requires 0 < k < |gs| && Represents(g, es, gs) && Grouped(g, gs, k)
    requires g.SeqRate(gs[k]).Higher(g.SeqRate(gs[k - 1])) && DepsOf(g, gs[k]) * Elements(gs[k - 1]) != {}
    requires Merged(es, es', At(gs, k), At(gs, k - 1))
    ensures var gs' := MergeAt(gs, k);
            && |gs'| == |gs| - 1 && Represents(g, es', gs') && Grouped(g, gs', k - 1)
            && At(gs', k - 1) == At(gs, k) && At(gs', k) == At(gs, k + 1)
  {
    MergeRepresents(g, es, gs, k, es');
    MergeGrouped(g, gs, k);
    MergeAtAt(gs, k, k - 1);
    MergeAtAt(gs, k, k);
  }

  lemma {:induction false} SwapMoves(g: Graph, es: seq<TxEntry>, gs: seq<seq<nat>>, k: nat, es': seq<TxEntry>)
    requires 0 < k < |gs| && Represents(g, es, gs) && Grouped(g, gs, k)
    requires g.SeqRate(gs[k]).Higher(g.SeqRate(gs[k - 1])) && DepsOf(g, gs[k]) * Elements(gs[k - 1]) == {}
    requires Relinked(es, es', gs, k)
    ensures var gs' := SwapAt(gs, k);
            && |gs'| == |gs| && Represents(g, es', gs') && Grouped(g, gs', k - 1)
            && At(gs', k - 1) == At(gs, k) && At(gs', k) == At(gs, k - 1) && At(gs', k - 2) == At(gs, k - 2)
  {
    SwapGrouped(g, gs, k);
    SwapRepresents(g, es, gs, k, es');
    SwapAtAt(gs, k, k - 1);
    SwapAtAt(gs, k, k);
    SwapAtAt(gs, k, k - 2);
  }

  // ---- one pass ----

  /** The graph as a pass sees it. */
  ghost function Seen(g: Graph, rev: bool): Graph {
    if rev then Flip(g) else g
  }

  /** The order in which a pass visits, and in which it writes back. */
  ghost function Visited(s: seq<nat>, rev: bool): seq<nat> {
    if rev then Reverse(s) else s
  }

  /** Append the transactions of a one by one, moving each to its place. */
  method BuildGroups(g: Graph, a: array<nat>, rev: bool, entries: seq<TxEntry>) returns (es: seq<TxEntry>)
    requires Ordered(Seen(g, rev), Visited(a[..], rev)) && |entries| == |g.entries| + 1
    requires forall i :: 0 <= i < a.Length ==> a[i] < |g.entries|
    requires entries[0].feerate.fee == 0 && entries[0].feerate.size == 0
    ensures |es| == |entries| && Represents(Seen(g, rev), es, Pass(Seen(g, rev), Visited(a[..], rev)))
  {
    ghost var h, lin := Seen(g, rev), Visited(a[..], rev);
    es := entries[0 := entries[0].(prevGroup := 0)];
    assert lin[..0] == [];
    StartRepresents(h, es);
    for i := 0 to a.Length
      invariant |es| == |entries| && |lin| == a.Length && Represents(h, es, Pass(h, lin[..i]))
    {
      var idx := a[if rev then a.Length - 1 - i else i];
      VisitedAt(a[..], rev, i);
      assert idx == lin[i];
      var deps := if rev then g.Descendants(idx) else g.Ancestors(idx);
      var feerate := g.FeeRate(idx);
      if rev {
        feerate := Negate(feerate);
        FlipAt(g, idx);
      }
      es := AddGroup(h, es, idx, deps, feerate, lin, i);
    }
    assert lin[..a.Length] == lin;
  }

  lemma {:induction false} VisitedAt(s: seq<nat>, rev: bool, i: nat)
    requires i < |s|
    ensures |Visited(s, rev)| == |s| && Visited(s, rev)[i] == s[if rev then |s| - 1 - i else i]
  {
    if rev {
      ReverseAt(s, i);
    }
  }

  lemma {:induction false} StartRepresents(g: Graph, es: seq<TxEntry>)
    requires |es| > 0 && es[0].feerate.fee == 0 && es[0].feerate.size == 0 && es[0].prevGroup == 0
    ensures Represents(g, es, [])
  {
    assert Linked(es, [], 0);
  }

  method AddGroup(ghost h: Graph, entries: seq<TxEntry>, idx: nat, deps: set<nat>, feerate: FeeFrac,
                  ghost lin: seq<nat>, ghost n: nat)
    returns (es: seq<TxEntry>)
    requires Ordered(h, lin) && n < |lin| && idx == lin[n] && idx + 1 < |entries|
    requires deps == h.Ancestors(idx) && feerate == h.FeeRate(idx)
    requires Represents(h, entries, Pass(h, lin[..n]))
    ensures |es| == |entries| && Represents(h, es, Pass(h, lin[..n + 1]))
  {
    ghost var gs := Pass(h, lin[..n]);
    AddReady(h, lin, n);
    es := AppendEntry(entries, idx, deps, feerate);
    AppendRepresents(h, entries, gs, idx, es);
    es := Settle(h, es, idx, gs + [[idx]]);
    assert lin[..n + 1][..n] == lin[..n];
  }

  lemma {:induction false} AddReady(h: Graph, lin: seq<nat>, n: nat)
    requires Ordered(h, lin) && n < |lin|
    ensures var gs := Pass(h, lin[..n]);
            Grouped(h, gs + [[lin[n]]], |gs|) && lin[n] !in Flatten(gs)
  {
    OrderedPrefix(h, lin, n);
    OrderedPrefix(h, lin, n + 1);
    PassGrouped(h, lin[..n]);
    assert lin[..n + 1] == lin[..n] + [lin[n]];
    AppendPass(h, Pass(h, lin[..n]), lin[..n], lin[n]);
    DistinctConcat(lin[..n], [lin[n]]);
    assert lin[n] !in Elements(Flatten(Pass(h, lin[..n])));
  }

  // ---- writing back ----

  /** The last |s| positions of arr in visiting order hold s. */
  ghost predicate HoldsBack(arr: seq<nat>, rev: bool, s: seq<nat>) {
    && |s| <= |arr|
    && if rev then arr[..|s|] == Reverse(s) else arr[|arr| - |s|..] == s
  }

  lemma {:induction false} HoldsBackGrow(arr: seq<nat>, rev: bool, s: seq<nat>, v: nat, arr': seq<nat>)
    requires HoldsBack(arr, rev, s) && |s| < |arr|
    requires arr' == arr[(if rev then |s| else |arr| - 1 - |s|) := v]
    ensures HoldsBack(arr', rev, [v] + s)
  {
    if rev {
      assert arr'[..|s| + 1] == arr[..|s|] + [v];
      assert ([v] + s)[1..] == s;
    } else {
      assert arr'[|arr| - |s| - 1..] == [v] + arr[|arr| - |s|..];
    }
  }

  method WriteTx(a: array<nat>, rev: bool, done: nat, tx: nat, ghost s: seq<nat>)
    requires HoldsBack(a[..], rev, s) && done == |s| < a.Length
    modifies a
    ensures HoldsBack(a[..], rev, [tx] + s)
  {
    ghost var before := a[..];
    if rev {
      a[done] := tx;
    } else {
      a[a.Length - (done + 1)] := tx;
    }
    HoldsBackGrow(before, rev, s, tx, a[..]);
  }

  /** Write the group that ends in entry cur, from its back to its front. */
  method WriteGroup(a: array<nat>, rev: bool, es: seq<TxEntry>, cur: nat, start: nat,
                    ghost h: Graph, ghost c: seq<nat>, ghost s: seq<nat>)
    returns (done: nat)
    requires Holds(h, es, c) && cur == Tail(c) && HoldsBack(a[..], rev, s)
    requires start == |s| && |c| + |s| <= a.Length
    modifies a
    ensures HoldsBack(a[..], rev, c + s) && done == |c + s|
  {
    ghost var j: nat, written := |c|, s;
    var tx := cur;
    done := start;
    while tx != 0
      invariant j <= |c| && tx == LinkTo(c, j) && written == c[j..] + s
      invariant HoldsBack(a[..], rev, written) && done == |written|
      decreases j
    {
      PreviousTx(h, es, c, j);
      SuffixGrows(c, j, s);
      WriteTx(a, rev, done, tx - 1, written);
      done := done + 1;
      tx := es[tx].prevTx;
      j, written := j - 1, [c[j - 1]] + written;
    }
    assert c[0..] == c;
  }

  /** One more than the transaction before position j of c, or 0 for none. */
  ghost function LinkTo(c: seq<nat>, j: nat): nat
    requires j <= |c|
  {
    if j == 0 then 0 else c[j - 1] + 1
  }

  lemma {:induction false} SuffixGrows(c: seq<nat>, j: nat, s: seq<nat>)
    requires 0 < j <= |c|
    ensures [c[j - 1]] + (c[j..] + s) == c[j - 1..] + s && |c[j..] + s| < |c| + |s|
  {
  }

  lemma {:induction false} PreviousTx(h: Graph, es: seq<TxEntry>, c: seq<nat>, j: nat)
    requires Holds(h, es, c) && 0 < j <= |c|
    ensures LinkTo(c, j) < |es| && es[LinkTo(c, j)].prevTx == LinkTo(c, j - 1)
  {
    if j > 1 {
      assert Follows(es, c, j - 1);
    }
  }

  /** Write the groups back, from the last to the first. */
  method WriteBack(a: array<nat>, rev: bool, es: seq<TxEntry>, ghost h: Graph, ghost gs: seq<seq<nat>>)
    requires Represents(h, es, gs) && |Flatten(gs)| == a.Length
    modifies a
    ensures a[..] == Visited(Flatten(gs), rev)
  {
    ghost var m := |gs|;
    assert Linked(es, gs, m);
    var curGroup := es[0].prevGroup;
    var done := 0;
    while curGroup != 0
      invariant 0 <= m <= |gs| && curGroup == At(gs, m - 1)
      invariant HoldsBack(a[..], rev, Flatten(gs[m..])) && done == |Flatten(gs[m..])|
      decreases m
    {
      TailGroups(gs, m - 1);
      assert Holds(h, es, gs[m - 1]);
      done := WriteGroup(a, rev, es, curGroup, done, h, gs[m - 1], Flatten(gs[m..]));
      LinkBefore(es, gs, m - 1);
      curGroup := es[curGroup].prevGroup;
      m := m - 1;
    }
    assert gs[0..] == gs;
  }

  lemma {:induction false} TailGroups(gs: seq<seq<nat>>, m: nat)
    requires m < |gs|
    ensures Flatten(gs[m..]) == gs[m] + Flatten(gs[m + 1..]) && |Flatten(gs[m..])| <= |Flatten(gs)|
  {
    assert gs[m..][1..] == gs[m + 1..];
    assert gs == gs[..m] + gs[m..];
    FlattenConcat(gs[..m], gs[m..]);
  }

  // ---- both passes ----

  /** The linearization after one pass. */
  ghost function AfterPass(g: Graph, lin: seq<nat>, rev: bool): seq<nat> {
    Visited(Flatten(Pass(Seen(g, rev), Visited(lin, rev))), rev)
  }

  /** The linearization after a pass from the back and one from the front. */
  ghost function Postlinearized(g: Graph, lin: seq<nat>): seq<nat> {
    AfterPass(g, AfterPass(g, lin, true), false)
  }

  lemma {:induction false} ReadyForPass(g: Graph, lin: seq<nat>, rev: bool)
    requires g.Valid() && g.IsLinearization(g.used, lin)
    ensures Ordered(Seen(g, rev), Visited(lin, rev)) && Seen(g, rev).used == g.used
    ensures Seen(g, rev).IsLinearization(g.used, Visited(lin, rev))
  {
    if rev {
      FlipValid(g);
      ReverseOrder(g, lin);
      ReverseDistinct(lin);
      ReverseElements(lin);
    }
  }

  /** A pass in either direction keeps a linearization valid and never makes it worse. */
  lemma {:induction false} PassImproves(g: Graph, lin: seq<nat>, rev: bool)
    requires g.Valid() && g.IsLinearization(g.used, lin)
    ensures g.IsLinearization(g.used, AfterPass(g, lin, rev))
    ensures Outprices(Rates(g, AfterPass(g, lin, rev)), Rates(g, lin))
    ensures |AfterPass(g, lin, rev)| == |lin|
  {
    ReadyForPass(g, lin, rev);
    var h, out := Seen(g, rev), Flatten(Pass(Seen(g, rev), Visited(lin, rev)));
    PassGrouped(h, Visited(lin, rev));
    if rev {
      FlipValid(g);
      TurnBack(g, out);
      CompareTurned(g, out, lin);
    }
    DistinctCount(lin);
    DistinctCount(AfterPass(g, lin, rev));
  }

  lemma {:induction false} TurnBack(g: Graph, s: seq<nat>)
    requires Flip(g).Valid() && Flip(g).IsLinearization(g.used, s)
    ensures g.IsLinearization(g.used, Reverse(s))
  {
    ReverseOrder(Flip(g), s);
    FlipTwice(g);
    ReverseDistinct(s);
    ReverseElements(s);
  }

  lemma {:induction false} CompareTurned(g: Graph, s: seq<nat>, lin: seq<nat>)
    requires g.IsLinearization(g.used, lin) && g.IsLinearization(g.used, Reverse(s))
    ensures Outprices(Rates(Flip(g), s), Rates(Flip(g), Reverse(lin))) <==>
      Outprices(Rates(g, Reverse(s)), Rates(g, lin))
  {
    SeqRateIsSetRate(g, lin);
    SeqRateIsSetRate(g, Reverse(s));
    FlipOutprices(g, Reverse(s), lin);
    ReverseTwice(s);
  }

  lemma {:induction false} PostlinearizedImproves(g: Graph, lin: seq<nat>)
    requires g.Valid() && g.IsLinearization(g.used, lin)
    ensures g.IsLinearization(g.used, Postlinearized(g, lin))
    ensures Outprices(Rates(g, Postlinearized(g, lin)), Rates(g, lin))
    ensures AtLeastAsGood(g, Postlinearized(g, lin), lin)
  {
    var mid := AfterPass(g, lin, true);
    PassImproves(g, lin, true);
    PassImproves(g, mid, false);
    OutpricesTransitive(Rates(g, Postlinearized(g, lin)), Rates(g, mid), Rates(g, lin));
    CompareLinearizations(g, Postlinearized(g, lin), lin);
  }

  lemma {:induction false} CompareLinearizations(g: Graph, a: seq<nat>, b: seq<nat>)
    requires g.Valid() && g.IsLinearization(g.used, a) && g.IsLinearization(g.used, b)
    ensures AtLeastAsGood(g, a, b) <==> Outprices(Rates(g, a), Rates(g, b))
  {
    SeqRateIsSetRate(g, a);
    SeqRateIsSetRate(g, b);
    AtLeastAsGoodIffOutprices(g, a, b);
  }

  /** The chunks of a postlinearized linearization are connected. */
  lemma {:induction false} PostlinearizedConnected(g: Graph, lin: seq<nat>)
    requires g.Valid() && g.IsLinearization(g.used, lin)
    ensures forall c :: c in Chunking(g, Postlinearized(g, lin)) ==> Connected(g, Elements(c))
  {
    var mid := AfterPass(g, lin, true);
    PassImproves(g, lin, true);
    ReadyForPass(g, mid, false);
    PassGrouped(g, mid);
    GroupsAreChunks(g, Pass(g, mid));
  }

  /** Improve a linearization in place. */
  method PostLinearize(g: Graph, a: array<nat>)
    requires g.Valid() && g.IsLinearization(g.used, a[..])
    modifies a
    ensures a[..] == Postlinearized(g, old(a[..]))
    ensures g.IsLinearization(g.used, a[..]) && AtLeastAsGood(g, a[..], old(a[..]))
    ensures forall c :: c in Chunking(g, a[..]) ==> Connected(g, Elements(c))
  {
    var es := seq(|g.entries| + 1, i => TxEntry(0, 0, 0, {}, {}, Zero()));
    PostlinearizedImproves(g, a[..]);
    PostlinearizedConnected(g, a[..]);
    PassImproves(g, a[..], true);
    es := RunPass(g, a, true, es);
    es := RunPass(g, a, false, es);
  }

  method RunPass(g: Graph, a: array<nat>, rev: bool, entries: seq<TxEntry>) returns (es: seq<TxEntry>)
    requires g.Valid() && g.IsLinearization(g.used, a[..]) && |entries| == |g.entries| + 1
    requires entries[0].feerate.fee == 0 && entries[0].feerate.size == 0
    modifies a
    ensures a[..] == AfterPass(g, old(a[..]), rev)
    ensures |es| == |entries| && es[0].feerate.fee == 0 && es[0].feerate.size == 0
  {
    ReadyForPass(g, a[..], rev);
    PassImproves(g, a[..], rev);
    forall i | 0 <= i < a.Length ensures a[i] < |g.entries| {
      assert a[..][i] in Elements(a[..]);
    }
    ghost var gs := Pass(Seen(g, rev), Visited(a[..], rev));
    es := BuildGroups(g, a, rev, entries);
    WriteBack(a, rev, es, Seen(g, rev), gs);
  }
}
