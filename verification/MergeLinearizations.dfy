/** Listing sets in topological order, and merging two linearizations into one as good as both. */
module Merging {
  import opened FeeFracs
  import opened Sets
  import opened Graphs
  import opened Diagrams
  import opened Chunkings
  import opened LinearizationChunkings

  // ---- AppendTopo ----

  /** Fewer ancestors first, and the lower index among equals. */
  predicate Before(g: Graph, a: nat, b: nat) {
    |g.Ancestors(a)| < |g.Ancestors(b)| || (|g.Ancestors(a)| == |g.Ancestors(b)| && a < b)
  }

  ghost predicate SortedTopo(g: Graph, s: seq<nat>) {
    forall i, j :: 0 <= i < j < |s| ==> Before(g, s[i], s[j])
  }

  function Insert(g: Graph, s: seq<nat>, x: nat): (r: seq<nat>)
    ensures Elements(r) == Elements(s) + {x} && |r| == |s| + 1
    ensures SortedTopo(g, s) && x !in s ==> SortedTopo(g, r)
  {
    if s == [] then [x]
    else if Before(g, x, s[0]) then
      assert SortedTopo(g, s) ==> SortedTopo(g, [x] + s) by {
        if SortedTopo(g, s) {
          InsertFront(g, s, x);
        }
      }
      ElementsConcat([x], s);
      assert Elements([x]) == {x};
      [x] + s
    else
      var rest := Insert(g, s[1..], x);
      assert s == [s[0]] + s[1..];
      assert SortedTopo(g, s) && x !in s ==> SortedTopo(g, [s[0]] + rest) by {
        if SortedTopo(g, s) && x !in s {
          InsertBehind(g, s, rest, x);
        }
      }
      ElementsConcat([s[0]], s[1..]);
      ElementsConcat([s[0]], rest);
      [s[0]] + rest
  }

  lemma {:induction false} InsertFront(g: Graph, s: seq<nat>, x: nat)
    requires s != [] && SortedTopo(g, s) && Before(g, x, s[0])
    ensures SortedTopo(g, [x] + s)
  {
    var r := [x] + s;
    forall i, j | 0 <= i < j < |r| ensures Before(g, r[i], r[j]) {
      if i > 0 {
        assert r[i] == s[i - 1] && r[j] == s[j - 1];
      } else if j > 1 {
        assert Before(g, s[0], s[j - 1]);
      }
    }
  }

  lemma {:induction false} InsertBehind(g: Graph, s: seq<nat>, rest: seq<nat>, x: nat)
    requires s != [] && SortedTopo(g, s) && x !in s && !Before(g, x, s[0])
    requires Elements(rest) == Elements(s[1..]) + {x}
    requires SortedTopo(g, s[1..]) ==> SortedTopo(g, rest)
    ensures SortedTopo(g, [s[0]] + rest)
  {
    var r := [s[0]] + rest;
    assert SortedTopo(g, s[1..]);
    forall i, j | 0 <= i < j < |r| ensures Before(g, r[i], r[j]) {
      if i > 0 {
        assert r[i] == rest[i - 1] && r[j] == rest[j - 1];
      } else {
        assert rest[j - 1] in Elements(rest);
        if r[j] != x {
          var k :| 0 <= k < |s[1..]| && s[1..][k] == r[j];
          assert s[k + 1] == r[j];
        }
      }
    }
  }

  /** Continue a list with a set of transactions, those with fewer ancestors first. */
  method AppendTopo(g: Graph, list: seq<nat>, select: set<nat>) returns (r: seq<nat>)
    requires g.Valid() && select <= g.used
    ensures |list| <= |r| && r[..|list|] == list
    ensures SortedTopo(g, r[|list|..])
    ensures g.IsLinearization(select, r[|list|..])
  {
    var tail: seq<nat> := [];
    var rest := select;
    while rest != {}
      invariant rest <= select && SortedTopo(g, tail) && Elements(tail) == select - rest
      decreases rest
    {
      var i := First(rest);
      assert i !in Elements(tail);
      tail := Insert(g, tail, i);
      rest := rest - {i};
    }
    SortedIsLinearization(g, select, tail);
    r := list + tail;
  }

  lemma {:induction false} SortedIsLinearization(g: Graph, select: set<nat>, s: seq<nat>)
    requires g.Valid() && select <= g.used
    requires SortedTopo(g, s) && Elements(s) == select
    ensures g.IsLinearization(select, s)
  {
    forall i, j | 0 <= i < j < |s| ensures s[i] != s[j] && s[j] !in g.Ancestors(s[i]) {
      var a, b := s[i], s[j];
      assert a in select && b in select;
      assert Before(g, a, b);
      if b in g.Ancestors(a) && a != b {
        assert g.Ancestors(b) <= g.Ancestors(a) && a !in g.Ancestors(b) && a in g.Ancestors(a);
        SmallerSubset(g.Ancestors(b), g.Ancestors(a), a);
      }
    }
  }

  lemma {:induction false} SmallerSubset(a: set<nat>, b: set<nat>, x: nat)
    requires a <= b && x in b && x !in a
    ensures |a| < |b|
  {
    var c := b - {x};
    assert a <= c;
    SubsetSize(a, c);
  }

  lemma {:induction false} SubsetSize(a: set<nat>, b: set<nat>)
    requires a <= b
    ensures |a| <= |b|
  {
    assert b == a + (b - a);
  }

  // ---- one step of taking a set out of a linearization ----

  ghost predicate Improves(g: Graph, out: seq<nat>, rem: seq<nat>, lin: seq<nat>) {
    Outprices(Rates(g, out + rem), Rates(g, lin))
  }

  /** Moving a safe set from what remains to the output keeps the combination as good as lin. */
  lemma {:induction false} TakeOut(g: Graph, out: seq<nat>, rem: seq<nat>, lin: seq<nat>, ts: seq<nat>, keep: set<nat>)
    requires Sized(g, rem) && Distinct(rem) && Distinct(ts) && Elements(ts) <= Elements(rem)
    requires keep == Elements(rem) - Elements(ts)
    requires Improves(g, out, rem, lin) && SafeToMove(g, Chunking(g, rem), Elements(ts))
    ensures Improves(g, out + ts, Filter(rem, keep), lin)
  {
    MoveToFront(g, rem, ts);
    var rem' := Filter(rem, keep);
    assert Moved(rem, ts) == ts + rem';
    OutpricesPrepend(Rates(g, out), Rates(g, ts + rem'), Rates(g, rem));
    RatesConcat(g, out, ts + rem');
    RatesConcat(g, out, rem);
    assert out + (ts + rem') == (out + ts) + rem';
    var a, b, c := Rates(g, (out + ts) + rem'), Rates(g, out + rem), Rates(g, lin);
    forall p: int, q: int | q > 0 ensures Peak(p, q, a) >= Peak(p, q, c) {
      assert Peak(p, q, a) >= Peak(p, q, b);
      assert Peak(p, q, b) >= Peak(p, q, c);
    }
  }

  lemma {:induction false} IntersectionTopological(g: Graph, todo: set<nat>, rem: seq<nat>, s: set<nat>, t: set<nat>)
    requires g.Consistent() && todo <= g.used && g.IsLinearization(todo, rem)
    requires g.Topological(s, todo) && ShortestIntersection(g, Chunking(g, rem), s, t)
    ensures g.Topological(t, todo) && t <= s && (s != {} ==> t != {})
  {
    var cs := Chunking(g, rem);
    var k :| 0 <= k <= |cs| && t == s * Reach(cs, k) && Shortest(g, cs, s, k);
    ChunkingFlattens(g, rem);
    FlattenPrefix(cs, k);
    PrefixTopological(g, todo, rem, |Flatten(cs[..k])|);
    TopologicalMeet(g, s, Reach(cs, k), todo);
  }

  /** The first chunk of a linearization: a non-empty topological prefix. */
  lemma {:induction false} FirstChunkInfo(g: Graph, todo: set<nat>, rem: seq<nat>)
    requires g.Valid() && todo <= g.used && todo != {} && g.IsLinearization(todo, rem)
    ensures var cs := Chunking(g, rem);
            && cs != [] && IsChunking(g, rem, cs)
            && Elements(cs[0]) != {} && g.Topological(Elements(cs[0]), todo)
            && g.SeqRate(cs[0]) == g.SetRate(Elements(cs[0]))
  {
    ChunkingIsChunking(g, rem);
    assert rem != [];
    ChunkingDropFirst(g, rem);
    var c := Chunking(g, rem)[0];
    assert Tight(g, c);
    PrefixTopological(g, todo, rem, |c|);
    DistinctPrefix(rem, |c|);
    SeqRateIsSetRate(g, c);
    assert c[0] in Elements(c);
  }

  // ---- MergeLinearizations ----

  /** A set chosen from the better first chunk, cut to a prefix of the other linearization, is safe to
      move to the front of both. */
  lemma {:induction false} ChosenIsSafe(g: Graph, todo: set<nat>, rem: seq<nat>, other: seq<nat>, t: set<nat>)
    requires g.Valid() && todo <= g.used && todo != {}
    requires g.IsLinearization(todo, rem) && g.IsLinearization(todo, other)
    requires Chunking(g, rem) != [] && Chunking(g, other) != []
    requires g.SeqRate(Chunking(g, other)[0]).NotLower(g.SeqRate(Chunking(g, rem)[0]))
    requires ShortestIntersection(g, Chunking(g, rem), Elements(Chunking(g, other)[0]), t)
    ensures t != {} && g.Topological(t, todo)
    ensures SafeToMove(g, Chunking(g, rem), t) && SafeToMove(g, Chunking(g, other), t)
  {
    FirstChunkInfo(g, todo, rem);
    FirstChunkInfo(g, todo, other);
    var s := Elements(Chunking(g, other)[0]);
    IntersectionTopological(g, todo, rem, s, t);
    IntersectionIsSafe(g, rem, Chunking(g, rem), s, t);
    assert g.SetRate(t).NotLower(g.SetRate(s)) by {
      var cs := Chunking(g, rem);
      var k :| 0 <= k <= |cs| && t == s * Reach(cs, k) && Shortest(g, cs, s, k);
    }
    WithinFirstChunkIsSafe(g, Chunking(g, other), t);
  }

  /** While linearizing g: todo remains, ret lists the rest topologically, rem is what remains of lin,
      and ret followed by rem is as good as lin. */
  ghost predicate Progress(g: Graph, todo: set<nat>, ret: seq<nat>, rem: seq<nat>, lin: seq<nat>) {
    && todo <= g.used && g.Topological(g.used - todo, g.used)
    && g.IsLinearization(g.used - todo, ret)
    && g.IsLinearization(todo, rem)
    && Improves(g, ret, rem, lin)
  }

  lemma {:induction false} DoneStaysTopological(g: Graph, todo: set<nat>, t: set<nat>, ret: seq<nat>, ts: seq<nat>)
    requires g.Valid() && todo <= g.used && g.Topological(g.used - todo, g.used) && g.Topological(t, todo)
    requires g.IsLinearization(g.used - todo, ret) && g.IsLinearization(t, ts)
    ensures g.Topological(g.used - (todo - t), g.used)
    ensures g.IsLinearization(g.used - (todo - t), ret + ts)
  {
    var done, done' := g.used - todo, g.used - (todo - t);
    forall i, x | i in done' && x in g.Ancestors(i) * g.used ensures x in done' {
      if i in done {
        assert x in done;
      } else {
        assert i in t;
        assert x in todo ==> x in g.Ancestors(i) * todo;
      }
    }
    assert done' - done == t;
    assert g.Topological(done, done');
    ConcatLinearization(g, done', done, ret, ts);
  }

  lemma {:induction false} ProgressStep(g: Graph, todo: set<nat>, out: seq<nat>, rem: seq<nat>, lin: seq<nat>,
                                        t: set<nat>, ret: seq<nat>)
    requires g.Valid() && Progress(g, todo, out, rem, lin)
    requires |out| <= |ret| && ret[..|out|] == out
    requires g.Topological(t, todo) && g.IsLinearization(t, ret[|out|..])
    requires SafeToMove(g, Chunking(g, rem), t)
    ensures Progress(g, todo - t, ret, Filter(rem, todo - t), lin)
  {
    var ts := ret[|out|..];
    assert ret == out + ts;
    TakeOut(g, out, rem, lin, ts, todo - t);
    FilterLinearization(g, todo, rem, todo - t);
    assert todo * (todo - t) == todo - t;
    DoneStaysTopological(g, todo, t, out, ts);
  }

  lemma {:induction false} ProgressStart(g: Graph, lin: seq<nat>)
    requires g.Valid() && g.IsLinearization(g.used, lin)
    ensures Progress(g, g.used, [], lin, lin)
  {
    assert [] + lin == lin;
    assert g.used - g.used == {};
    assert Elements([]) == {};
  }

  lemma {:induction false} ProgressEnd(g: Graph, ret: seq<nat>, rem: seq<nat>, lin: seq<nat>)
    requires g.Valid() && g.IsLinearization(g.used, lin) && Progress(g, {}, ret, rem, lin)
    ensures g.IsLinearization(g.used, ret) && AtLeastAsGood(g, ret, lin)
  {
    assert g.used - {} == g.used;
    DistinctCount(rem);
    assert ret + rem == ret;
    SeqRateIsSetRate(g, ret);
    SeqRateIsSetRate(g, lin);
    AtLeastAsGoodIffOutprices(g, ret, lin);
  }

  /** The set to output next: the better first chunk, intersected with prefixes of the other. */
  method NextToOutput(chunking1: LinearizationChunking, chunking2: LinearizationChunking) returns (best: set<nat>)
    requires chunking1.Valid() && chunking2.Valid() && chunking1.g == chunking2.g
    requires chunking1.todo == chunking2.todo && chunking1.todo != {}
    requires chunking1.g.Valid() && chunking1.todo <= chunking1.g.used
    requires chunking1.g.IsLinearization(chunking1.todo, chunking1.Remaining())
    requires chunking1.g.IsLinearization(chunking1.todo, chunking2.Remaining())
    ensures best != {} && chunking1.g.Topological(best, chunking1.todo)
    ensures SafeToMove(chunking1.g, Chunking(chunking1.g, chunking1.Remaining()), best)
    ensures SafeToMove(chunking1.g, Chunking(chunking1.g, chunking2.Remaining()), best)
  {
    ghost var g, todo, rem1, rem2 := chunking1.g, chunking1.todo, chunking1.Remaining(), chunking2.Remaining();
    FirstChunkInfo(g, todo, rem1);
    FirstChunkInfo(g, todo, rem2);
    InfosAt(g, Chunking(g, rem1), 0);
    InfosAt(g, Chunking(g, rem2), 0);
    var first1, first2 := chunking1.GetChunk(0), chunking2.GetChunk(0);
    if first2.feerate.Higher(first1.feerate) {
      var r := chunking1.IntersectPrefixes(first2);
      best := r.transactions;
      ChosenIsSafe(g, todo, rem1, rem2, best);
    } else {
      var r := chunking2.IntersectPrefixes(first1);
      best := r.transactions;
      ChosenIsSafe(g, todo, rem2, rem1, best);
    }
  }

  /** Merge two linearizations of a graph into one whose diagram is nowhere below either's. */
  method MergeLinearizations(g: Graph, lin1: seq<nat>, lin2: seq<nat>) returns (ret: seq<nat>)
    requires g.Valid() && g.IsLinearization(g.used, lin1) && g.IsLinearization(g.used, lin2)
    ensures g.IsLinearization(g.used, ret)
    ensures AtLeastAsGood(g, ret, lin1) && AtLeastAsGood(g, ret, lin2)
  {
    var chunking1 := new LinearizationChunking(g, lin1);
    var chunking2 := new LinearizationChunking(g, lin2);
    ret := [];
    ghost var todo, rem1, rem2 := g.used, lin1, lin2;
    ProgressStart(g, lin1);
    ProgressStart(g, lin2);
    if |g.used| == 0 {
      ProgressEnd(g, ret, rem1, lin1);
      ProgressEnd(g, ret, rem2, lin2);
      return;
    }
    while true
      invariant chunking1 != chunking2 && fresh(chunking1) && fresh(chunking2)
      invariant chunking1.Valid() && chunking1.g == g && chunking1.todo == todo && chunking1.Remaining() == rem1
      invariant chunking2.Valid() && chunking2.g == g && chunking2.todo == todo && chunking2.Remaining() == rem2
      invariant todo != {} && Progress(g, todo, ret, rem1, lin1) && Progress(g, todo, ret, rem2, lin2)
      decreases todo
    {
      var best := NextToOutput(chunking1, chunking2);
      ghost var out := ret;
      ret := AppendTopo(g, ret, best);
      ProgressStep(g, todo, out, rem1, lin1, best, ret);
      ProgressStep(g, todo, out, rem2, lin2, best, ret);
      todo := todo - best;
      rem1, rem2 := Filter(rem1, todo), Filter(rem2, todo);
      chunking1.MarkDone(best);
      if chunking1.NumChunksLeft() == 0 {
        NoneLeft(g, todo, rem1);
        break;
      }
      NoneLeft(g, todo, rem1);
      chunking2.MarkDone(best);
    }
    ProgressEnd(g, ret, rem1, lin1);
    ProgressEnd(g, ret, rem2, lin2);
  }

  lemma {:induction false} NoneLeft(g: Graph, todo: set<nat>, rem: seq<nat>)
    requires g.Valid() && todo <= g.used && g.IsLinearization(todo, rem)
    ensures |Chunking(g, rem)| == 0 <==> todo == {}
  {
    SomeChunk(g, rem);
    DistinctCount(rem);
  }
}
