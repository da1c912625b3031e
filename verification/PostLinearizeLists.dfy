/** How a postlinearization pass stores its groups: singly linked lists of transactions, themselves
    linked into a circular list of groups through a sentinel. */
module PostLists {
  import opened FeeFracs
  import opened Sets
  import opened Graphs
  import opened Chunkings
  import opened LinearizationChunkings
  import opened PostGroups

  datatype TxEntry = TxEntry(
    /** The entry before this one within a group, 0 at its beginning. */
    prevTx: nat,
    // The fields below are used for the last transaction of a group (and, for prevGroup, the sentinel).
    /** The entry at the beginning of the group. */
    firstTx: nat,
    /** The entry that stands for the group before this one, 0 if there is none. */
    prevGroup: nat,
    group: set<nat>,
    deps: set<nat>,
    feerate: FeeFrac)

  ghost function Tail(c: seq<nat>): nat
    requires c != []
  {
    c[|c| - 1] + 1
  }

  ghost predicate NonEmpty(gs: seq<seq<nat>>) {
    forall k :: 0 <= k < |gs| ==> gs[k] != []
  }

  /** The entry that stands for group k; the sentinel comes before the first and after the last. */
  ghost function At(gs: seq<seq<nat>>, k: int): nat
    requires NonEmpty(gs) && -1 <= k <= |gs|
  {
    if 0 <= k < |gs| then Tail(gs[k]) else 0
  }

  /** The entries of c form one group. */
  ghost predicate Holds(g: Graph, es: seq<TxEntry>, c: seq<nat>) {
    && c != [] && (forall j :: 0 <= j < |c| ==> c[j] + 1 < |es|)
    && Summarizes(g, es[Tail(c)], c)
    && es[c[0] + 1].prevTx == 0
    && (forall j {:trigger Follows(es, c, j)} :: 0 < j < |c| ==> Follows(es, c, j))
  }

  /** The entry of the j-th transaction of c points to the one before it. */
  ghost predicate Follows(es: seq<TxEntry>, c: seq<nat>, j: nat)
    requires 0 < j < |c| && c[j] + 1 < |es|
  {
    es[c[j] + 1].prevTx == c[j - 1] + 1
  }

  /** The fields of a group's last transaction describe the group. */
  ghost predicate Summarizes(g: Graph, e: TxEntry, c: seq<nat>)
    requires c != []
  {
    && e.group == Elements(c) && e.deps == DepsOf(g, c)
    && e.feerate == g.SeqRate(c) && e.firstTx == c[0] + 1
  }

  /** Each group points to the one before it, and the sentinel to the last. */
  ghost predicate Chained(es: seq<TxEntry>, gs: seq<seq<nat>>) {
    && NonEmpty(gs) && (forall k :: 0 <= k <= |gs| ==> At(gs, k) < |es|)
    && (forall k {:trigger Linked(es, gs, k)} :: 0 <= k <= |gs| ==> Linked(es, gs, k))
  }

  ghost predicate Linked(es: seq<TxEntry>, gs: seq<seq<nat>>, k: int)
    requires NonEmpty(gs) && 0 <= k <= |gs| && At(gs, k) < |es|
  {
    es[At(gs, k)].prevGroup == At(gs, k - 1)
  }

  ghost predicate Represents(g: Graph, es: seq<TxEntry>, gs: seq<seq<nat>>) {
    && |es| > 0 && es[0].feerate.fee == 0 && es[0].feerate.size == 0
    && Distinct(Flatten(gs)) && Chained(es, gs)
    && (forall k :: 0 <= k < |gs| ==> Holds(g, es, gs[k]))
  }

  // ---- groups do not share entries ----

  lemma {:induction false} InFlatten(gs: seq<seq<nat>>, k: nat, x: nat)
    requires k < |gs| && x in gs[k]
    ensures x in Flatten(gs)
  {
    if k > 0 {
      InFlatten(gs[1..], k - 1, x);
    }
  }

  lemma {:induction false} GroupsDisjoint(gs: seq<seq<nat>>, i: nat, j: nat, x: nat, y: nat)
    requires Distinct(Flatten(gs)) && i < |gs| && j < |gs| && i != j && x in gs[i] && y in gs[j]
    ensures x != y
  {
    if i < j {
      DisjointFrom(gs, i, j, x, y);
    } else {
      DisjointFrom(gs, j, i, y, x);
    }
  }

  lemma {:induction false} DisjointFrom(gs: seq<seq<nat>>, i: nat, j: nat, x: nat, y: nat)
    requires Distinct(Flatten(gs)) && i < j < |gs| && x in gs[i] && y in gs[j]
    ensures x != y
  {
    assert gs == gs[..i + 1] + gs[i + 1..];
    FlattenConcat(gs[..i + 1], gs[i + 1..]);
    DistinctConcat(Flatten(gs[..i + 1]), Flatten(gs[i + 1..]));
    assert gs[..i + 1][i] == gs[i] && gs[i + 1..][j - i - 1] == gs[j];
    InFlatten(gs[..i + 1], i, x);
    InFlatten(gs[i + 1..], j - i - 1, y);
    assert x in Elements(Flatten(gs[..i + 1])) && y in Elements(Flatten(gs[i + 1..]));
  }

  lemma {:induction false} GroupDistinct(gs: seq<seq<nat>>, k: nat)
    requires Distinct(Flatten(gs)) && k < |gs|
    ensures Distinct(gs[k])
  {
    assert Flatten(gs) == gs[0] + Flatten(gs[1..]);
    DistinctConcat(gs[0], Flatten(gs[1..]));
    if k > 0 {
      GroupDistinct(gs[1..], k - 1);
    }
  }

  /** Different positions in the group list stand for different entries. */
  lemma {:induction false} TailsDiffer(gs: seq<seq<nat>>, i: int, j: int)
    requires Distinct(Flatten(gs)) && NonEmpty(gs) && 0 <= i < |gs| && -1 <= j <= |gs| && i != j
    ensures At(gs, i) != At(gs, j)
  {
    if 0 <= j < |gs| {
      GroupsDisjoint(gs, i, j, gs[i][|gs[i]| - 1], gs[j][|gs[j]| - 1]);
    }
  }

  /** All fields but the group link. */
  ghost predicate SamePayload(e: TxEntry, e': TxEntry) {
    e.(prevGroup := 0) == e'.(prevGroup := 0)
  }

  lemma {:induction false} HoldsFrame(g: Graph, es: seq<TxEntry>, es': seq<TxEntry>, c: seq<nat>)
    requires Holds(g, es, c) && |es'| == |es|
    requires forall j :: 0 <= j < |c| ==> SamePayload(es[c[j] + 1], es'[c[j] + 1])
    ensures Holds(g, es', c)
  {
    assert SamePayload(es[c[0] + 1], es'[c[0] + 1]);
    assert SamePayload(es[Tail(c)], es'[Tail(c)]);
    forall j | 0 < j < |c| ensures Follows(es', c, j) {
      assert Follows(es, c, j);
      assert SamePayload(es[c[j] + 1], es'[c[j] + 1]);
    }
  }

  // ---- appending a group ----

  method AppendEntry(es: seq<TxEntry>, idx: nat, deps: set<nat>, feerate: FeeFrac) returns (r: seq<TxEntry>)
    requires idx + 1 < |es|
    ensures |r| == |es|
    ensures r[idx + 1] == TxEntry(0, idx + 1, es[0].prevGroup, {idx}, deps, feerate)
    ensures r[0] == es[0].(prevGroup := idx + 1)
    ensures forall i :: 0 < i < |es| && i != idx + 1 ==> r[i] == es[i]
  {
    var curGroup := idx + 1;
    r := es[curGroup := TxEntry(0, curGroup, es[0].prevGroup, {idx}, deps, feerate)];
    r := r[0 := r[0].(prevGroup := curGroup)];
  }

  lemma {:induction false} AppendRepresents(g: Graph, es: seq<TxEntry>, gs: seq<seq<nat>>, idx: nat, es': seq<TxEntry>)
    requires Represents(g, es, gs) && idx + 1 < |es| == |es'| && idx !in Flatten(gs)
    requires es'[idx + 1] == TxEntry(0, idx + 1, es[0].prevGroup, {idx}, g.Ancestors(idx), g.FeeRate(idx))
    requires es'[0] == es[0].(prevGroup := idx + 1)
    requires forall i :: 0 < i < |es| && i != idx + 1 ==> es'[i] == es[i]
    ensures Represents(g, es', gs + [[idx]])
  {
    var gs' := gs + [[idx]];
    FlattenConcat(gs, [[idx]]);
    FlattenOne([idx]);
    DistinctConcat(Flatten(gs), [idx]);
    forall k | 0 <= k < |gs'| ensures Holds(g, es', gs'[k]) {
      if k < |gs| {
        assert gs'[k] == gs[k];
        StillHolds(g, es, gs, k, idx, es');
      } else {
        SingletonHolds(g, es', gs'[k], es'[idx + 1]);
      }
    }
    AppendChained(es, gs, idx, es');
  }

  lemma {:induction false} StillHolds(g: Graph, es: seq<TxEntry>, gs: seq<seq<nat>>, k: nat, idx: nat,
                                      es': seq<TxEntry>)
    requires k < |gs| && Holds(g, es, gs[k]) && idx !in Flatten(gs) && |es'| == |es|
    requires forall i :: 0 < i < |es| && i != idx + 1 ==> es'[i] == es[i]
    ensures Holds(g, es', gs[k])
  {
    var c := gs[k];
    forall j | 0 <= j < |c| ensures SamePayload(es[c[j] + 1], es'[c[j] + 1]) {
      InFlatten(gs, k, c[j]);
    }
    HoldsFrame(g, es, es', c);
  }

  lemma {:induction false} SingletonHolds(g: Graph, es: seq<TxEntry>, c: seq<nat>, e: TxEntry)
    requires |c| == 1 && c[0] + 1 < |es| && es[c[0] + 1] == e
    requires e.prevTx == 0 && e.firstTx == c[0] + 1
    requires e.group == {c[0]} && e.deps == g.Ancestors(c[0]) && e.feerate == g.FeeRate(c[0])
    ensures Holds(g, es, c)
  {
    SeqRateSingleton(g, c);
    DepsOfOne(g, c);
    assert Tail(c) == c[0] + 1;
    assert e.feerate == g.SeqRate(c);
  }

  lemma {:induction false} DepsOfOne(g: Graph, c: seq<nat>)
    requires |c| == 1
    ensures DepsOf(g, c) == g.Ancestors(c[0])
  {
    forall x | x in g.Ancestors(c[0]) ensures x in DepsOf(g, c) {
      assert c[0] in c;
    }
  }

  lemma {:induction false} AppendChained(es: seq<TxEntry>, gs: seq<seq<nat>>, idx: nat, es': seq<TxEntry>)
    requires Chained(es, gs) && idx + 1 < |es| == |es'| && idx !in Flatten(gs)
    requires es'[idx + 1].prevGroup == es[0].prevGroup && es'[0].prevGroup == idx + 1
    requires forall i :: 0 < i < |es| && i != idx + 1 ==> es'[i] == es[i]
    ensures Chained(es', gs + [[idx]])
  {
    var gs' := gs + [[idx]];
    forall k | -1 <= k <= |gs'|
      ensures At(gs', k) == if k == |gs| then idx + 1 else if k == |gs| + 1 then 0 else At(gs, k)
    {
      if 0 <= k < |gs| {
        assert gs'[k] == gs[k];
      }
    }
    forall k | 0 <= k <= |gs'| ensures Linked(es', gs', k) {
      if k < |gs| {
        InFlatten(gs, k, gs[k][|gs[k]| - 1]);
        assert Linked(es, gs, k);
      } else if k == |gs| {
        assert Linked(es, gs, |gs|);
      }
    }
  }

  // ---- swapping ----

  /** Reorder the links PP <- P <- C <- N to PP <- C <- P <- N. */
  method SwapEntries(es: seq<TxEntry>, next: nat, cur: nat, prev: nat) returns (r: seq<TxEntry>)
    requires next < |es| && cur < |es| && prev < |es|
    requires next != cur && next != prev && cur != prev
    ensures |r| == |es|
    ensures r[next] == es[next].(prevGroup := prev)
    ensures r[prev] == es[prev].(prevGroup := cur)
    ensures r[cur] == es[cur].(prevGroup := es[prev].prevGroup)
    ensures forall i :: 0 <= i < |es| && i != next && i != prev && i != cur ==> r[i] == es[i]
  {
    var preprev := es[prev].prevGroup;
    r := es[next := es[next].(prevGroup := prev)];
    r := r[prev := r[prev].(prevGroup := cur)];
    r := r[cur := r[cur].(prevGroup := preprev)];
  }

  /** es' is es with the links around groups k - 1 and k reordered. */
  ghost predicate Relinked(es: seq<TxEntry>, es': seq<TxEntry>, gs: seq<seq<nat>>, k: nat)
    requires Chained(es, gs) && 0 < k < |gs|
  {
    && |es'| == |es|
    && es'[At(gs, k + 1)] == es[At(gs, k + 1)].(prevGroup := At(gs, k - 1))
    && es'[At(gs, k - 1)] == es[At(gs, k - 1)].(prevGroup := At(gs, k))
    && es'[At(gs, k)] == es[At(gs, k)].(prevGroup := es[At(gs, k - 1)].prevGroup)
    && forall i :: 0 <= i < |es| && i != At(gs, k + 1) && i != At(gs, k - 1) && i != At(gs, k) ==> es'[i] == es[i]
  }

  lemma {:induction false} SwapRepresents(g: Graph, es: seq<TxEntry>, gs: seq<seq<nat>>, k: nat, es': seq<TxEntry>)
    requires Represents(g, es, gs) && 0 < k < |gs| && Distinct(Flatten(SwapAt(gs, k)))
    requires Relinked(es, es', gs, k)
    ensures Represents(g, es', SwapAt(gs, k))
  {
    var gs' := SwapAt(gs, k);
    forall i | 0 <= i < |es| ensures SamePayload(es[i], es'[i]) {
    }
    forall m | 0 <= m < |gs'| ensures Holds(g, es', gs'[m]) {
      SwapIndex(gs, k, m);
      var m' := if m == k - 1 then k else if m == k then k - 1 else m;
      assert Holds(g, es, gs[m']);
      HoldsFrame(g, es, es', gs[m']);
    }
    SwapChained(es, gs, k, es');
  }

  lemma {:induction false} SwapAtAt(gs: seq<seq<nat>>, k: nat, m: int)
    requires NonEmpty(gs) && 0 < k < |gs| && -1 <= m <= |gs|
    ensures NonEmpty(SwapAt(gs, k)) && |SwapAt(gs, k)| == |gs|
    ensures At(SwapAt(gs, k), m) == At(gs, if m == k - 1 then k else if m == k then k - 1 else m)
  {
    forall i | 0 <= i < |gs| ensures SwapAt(gs, k)[i] != [] {
      SwapIndex(gs, k, i);
    }
    if 0 <= m < |gs| {
      SwapIndex(gs, k, m);
    }
  }

  lemma {:induction false} SwapChained(es: seq<TxEntry>, gs: seq<seq<nat>>, k: nat, es': seq<TxEntry>)
    requires Chained(es, gs) && Distinct(Flatten(gs)) && 0 < k < |gs| && Relinked(es, es', gs, k)
    ensures Chained(es', SwapAt(gs, k))
  {
    SwapAtAt(gs, k, 0);
    forall m | 0 <= m <= |gs|
      ensures At(SwapAt(gs, k), m) < |es'| && Linked(es', SwapAt(gs, k), m)
    {
      SwapAtAt(gs, k, m);
      SwapAtAt(gs, k, m - 1);
      assert Linked(es, gs, m) && Linked(es, gs, k - 1);
      if m < k - 1 || m > k + 1 {
        AtDiffers(gs, m, k);
      }
    }
  }

  lemma {:induction false} AtDiffers(gs: seq<seq<nat>>, m: int, k: nat)
    requires Distinct(Flatten(gs)) && NonEmpty(gs) && 0 < k < |gs| && 0 <= m <= |gs| && (m < k - 1 || m > k + 1)
    ensures At(gs, m) != At(gs, k + 1) && At(gs, m) != At(gs, k - 1) && At(gs, m) != At(gs, k)
  {
    TailsDiffer(gs, k, m);
    TailsDiffer(gs, k - 1, m);
    if m < |gs| {
      TailsDiffer(gs, m, k + 1);
    } else {
      TailsDiffer(gs, k + 1, m);
    }
  }

  // ---- merging ----

  /** Merge the group of prev into that of cur. */
  method MergeEntries(es: seq<TxEntry>, cur: nat, prev: nat) returns (r: seq<TxEntry>)
    requires cur < |es| && prev < |es| && cur != prev && es[cur].firstTx < |es| && es[cur].firstTx != prev
    ensures Merged(es, r, cur, prev)
  {
    r := es[cur := es[cur].(group := es[cur].group + es[prev].group, deps := es[cur].deps + es[prev].deps,
                            feerate := es[cur].feerate.Plus(es[prev].feerate))];
    r := r[r[cur].firstTx := r[r[cur].firstTx].(prevTx := prev)];
    r := r[cur := r[cur].(firstTx := r[prev].firstTx)];
    r := r[cur := r[cur].(prevGroup := r[prev].prevGroup)];
  }

  /** es' is es with the group that ends in prev put in front of the one that ends in cur. */
  ghost predicate Merged(es: seq<TxEntry>, es': seq<TxEntry>, cur: nat, prev: nat)
    requires cur < |es| && prev < |es|
  {
    var first := es[cur].firstTx;
    && first < |es| && |es'| == |es|
    && es'[cur] == TxEntry(if first == cur then prev else es[cur].prevTx, es[prev].firstTx, es[prev].prevGroup,
                           es[cur].group + es[prev].group, es[cur].deps + es[prev].deps,
                           es[cur].feerate.Plus(es[prev].feerate))
    && (first != cur ==> es'[first] == es[first].(prevTx := prev))
    && forall i :: 0 <= i < |es| && i != cur && i != first ==> es'[i] == es[i]
  }

  /** The ends of c are distinct from everything else in p and c. */
  ghost predicate Apart(p: seq<nat>, c: seq<nat>)
    requires c != []
  {
    && (forall j :: 0 <= j < |p| ==> p[j] != c[0] && p[j] != c[|c| - 1])
    && (forall j :: 0 <= j < |c| ==> (j > 0 ==> c[j] != c[0]) && (j < |c| - 1 ==> c[j] != c[|c| - 1]))
  }

  lemma {:induction false} DepsOfConcat(g: Graph, p: seq<nat>, c: seq<nat>)
    ensures DepsOf(g, p + c) == DepsOf(g, c) + DepsOf(g, p)
  {
    forall x | x in DepsOf(g, c) + DepsOf(g, p) ensures x in DepsOf(g, p + c) {
      if x in DepsOf(g, c) {
        var i :| i in c && x in g.Ancestors(i);
        assert i in p + c;
      } else {
        var i :| i in p && x in g.Ancestors(i);
        assert i in p + c;
      }
    }
  }

  lemma {:induction false} MergedSummary(g: Graph, p: seq<nat>, c: seq<nat>, ep: TxEntry, ec: TxEntry, e: TxEntry)
    requires p != [] && c != [] && Summarizes(g, ep, p) && Summarizes(g, ec, c)
    requires e.group == ec.group + ep.group && e.deps == ec.deps + ep.deps
    requires e.feerate == ec.feerate.Plus(ep.feerate) && e.firstTx == ep.firstTx
    ensures Summarizes(g, e, p + c)
  {
    SeqRateConcat(g, p, c);
    PlusCommutes(g.SeqRate(p), g.SeqRate(c));
    DepsOfConcat(g, p, c);
    ElementsConcat(p, c);
    UnionCommutes(Elements(p), Elements(c));
  }

  lemma {:induction false} MergedHolds(g: Graph, es: seq<TxEntry>, es': seq<TxEntry>, p: seq<nat>, c: seq<nat>)
    requires Holds(g, es, p) && Holds(g, es, c) && Apart(p, c)
    requires Merged(es, es', Tail(c), Tail(p))
    ensures Holds(g, es', p + c)
  {
    MergedEnds(g, es, es', p, c);
    forall j | 0 < j < |p + c| ensures (p + c)[j] + 1 < |es'| && Follows(es', p + c, j) {
      MergedLink(g, es, es', p, c, j);
    }
  }

  lemma {:induction false} MergedEnds(g: Graph, es: seq<TxEntry>, es': seq<TxEntry>, p: seq<nat>, c: seq<nat>)
    requires Holds(g, es, p) && Holds(g, es, c) && Apart(p, c)
    requires Merged(es, es', Tail(c), Tail(p))
    ensures var m := p + c;
            m[0] + 1 < |es'| && Tail(m) < |es'| && Summarizes(g, es'[Tail(m)], m) && es'[m[0] + 1].prevTx == 0
  {
    var m := p + c;
    assert Tail(m) == Tail(c) && m[0] == p[0];
    MergedSummary(g, p, c, es[Tail(p)], es[Tail(c)], es'[Tail(c)]);
    assert es'[m[0] + 1] == es[p[0] + 1];
  }

  lemma {:induction false} MergedLink(g: Graph, es: seq<TxEntry>, es': seq<TxEntry>, p: seq<nat>, c: seq<nat>, j: nat)
    requires Holds(g, es, p) && Holds(g, es, c) && Apart(p, c) && 0 < j < |p + c|
    requires Merged(es, es', Tail(c), Tail(p))
    ensures (p + c)[j] + 1 < |es'| && Follows(es', p + c, j)
  {
    var m := p + c;
    assert m[|p|] == c[0] && m[|m| - 1] == c[|c| - 1];
    if j < |p| {
      assert m[j] == p[j] && m[j - 1] == p[j - 1];
      assert Follows(es, p, j);
    } else if j == |p| {
      assert m[j - 1] == p[|p| - 1];
    } else {
      assert m[j] == c[j - |p|] && m[j - 1] == c[j - |p| - 1];
      assert Follows(es, c, j - |p|);
    }
  }

  lemma {:induction false} PairDistinct(gs: seq<seq<nat>>, k: nat)
    requires Distinct(Flatten(gs)) && 0 < k < |gs|
    ensures Distinct(gs[k - 1] + gs[k])
  {
    AroundPair(gs, k);
    DistinctConcat(Flatten(gs[..k - 1]) + (gs[k - 1] + gs[k]), Flatten(gs[k + 1..]));
    DistinctConcat(Flatten(gs[..k - 1]), gs[k - 1] + gs[k]);
  }

  lemma {:induction false} PairApart(p: seq<nat>, c: seq<nat>)
    requires p != [] && c != [] && Distinct(p + c)
    ensures Apart(p, c)
  {
    var m := p + c;
    assert m[|p|] == c[0] && m[|m| - 1] == c[|c| - 1];
    forall j | 0 <= j < |p| ensures p[j] != c[0] && p[j] != c[|c| - 1] {
      assert m[j] == p[j];
    }
    forall j | 0 <= j < |c| ensures (j > 0 ==> c[j] != c[0]) && (j < |c| - 1 ==> c[j] != c[|c| - 1]) {
      assert m[|p| + j] == c[j];
    }
  }

  /** Entries of groups other than the merged ones are untouched. */
  lemma {:induction false} OtherHolds(g: Graph, es: seq<TxEntry>, es': seq<TxEntry>, gs: seq<seq<nat>>, k: nat, m: nat)
    requires 0 < k < |gs| && m < |gs| && m != k && Distinct(Flatten(gs))
    requires Holds(g, es, gs[m]) && Holds(g, es, gs[k]) && Holds(g, es, gs[k - 1])
    requires Merged(es, es', Tail(gs[k]), Tail(gs[k - 1]))
    ensures Holds(g, es', gs[m])
  {
    var c := gs[m];
    forall j | 0 <= j < |c| ensures SamePayload(es[c[j] + 1], es'[c[j] + 1]) {
      GroupsDisjoint(gs, m, k, c[j], gs[k][0]);
      GroupsDisjoint(gs, m, k, c[j], gs[k][|gs[k]| - 1]);
    }
    HoldsFrame(g, es, es', c);
  }

  lemma {:induction false} MergeRepresents(g: Graph, es: seq<TxEntry>, gs: seq<seq<nat>>, k: nat, es': seq<TxEntry>)
    requires Represents(g, es, gs) && 0 < k < |gs| && Merged(es, es', At(gs, k), At(gs, k - 1))
    ensures Represents(g, es', MergeAt(gs, k))
  {
    var gs' := MergeAt(gs, k);
    AroundPair(gs, k);
    PairDistinct(gs, k);
    PairApart(gs[k - 1], gs[k]);
    assert Holds(g, es, gs[k]) && Holds(g, es, gs[k - 1]);
    forall m | 0 <= m < |gs'| ensures Holds(g, es', gs'[m]) {
      MergeIndex(gs, k, m);
      if m == k - 1 {
        MergedHolds(g, es, es', gs[k - 1], gs[k]);
      } else {
        var m' := if m < k - 1 then m else m + 1;
        assert Holds(g, es, gs[m']);
        OtherHolds(g, es, es', gs, k, m');
      }
    }
    MergeChained(es, gs, k, es');
  }

  lemma {:induction false} MergeAtAt(gs: seq<seq<nat>>, k: nat, m: int)
    requires NonEmpty(gs) && 0 < k < |gs| && -1 <= m < |gs|
    ensures NonEmpty(MergeAt(gs, k)) && |MergeAt(gs, k)| == |gs| - 1
    ensures At(MergeAt(gs, k), m) == At(gs, if m < k - 1 then m else m + 1)
  {
    forall i | 0 <= i < |gs| - 1 ensures MergeAt(gs, k)[i] != [] {
      MergeIndex(gs, k, i);
    }
    if 0 <= m < |gs| - 1 {
      MergeIndex(gs, k, m);
    }
  }

  lemma {:induction false} MergeChained(es: seq<TxEntry>, gs: seq<seq<nat>>, k: nat, es': seq<TxEntry>)
    requires Chained(es, gs) && Distinct(Flatten(gs)) && 0 < k < |gs| && Merged(es, es', At(gs, k), At(gs, k - 1))
    requires es[At(gs, k)].firstTx == gs[k][0] + 1
    ensures Chained(es', MergeAt(gs, k))
  {
    MergeAtAt(gs, k, 0);
    forall m | 0 <= m < |gs|
      ensures At(MergeAt(gs, k), m) < |es'| && Linked(es', MergeAt(gs, k), m)
    {
      MergeAtAt(gs, k, m);
      MergeAtAt(gs, k, m - 1);
      var n := if m < k - 1 then m else m + 1;
      assert Linked(es, gs, n) && Linked(es, gs, k - 1);
      if n != k {
        UnmergedTail(gs, k, n);
      }
    }
  }

  lemma {:induction false} UnmergedTail(gs: seq<seq<nat>>, k: nat, n: nat)
    requires Distinct(Flatten(gs)) && NonEmpty(gs) && k < |gs| && n <= |gs| && n != k
    ensures At(gs, n) != At(gs, k) && At(gs, n) != gs[k][0] + 1
  {
    TailsDiffer(gs, k, n);
    if n < |gs| {
      GroupsDisjoint(gs, n, k, gs[n][|gs[n]| - 1], gs[k][0]);
    }
  }
}
