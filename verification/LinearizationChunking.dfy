/** The chunking of what remains of a linearization while subsets of it are taken away, and the
    operation that picks a subset whose move to the front cannot worsen the diagram. */
module LinearizationChunkings {
  import opened FeeFracs
  import opened Sets
  import opened Graphs
  import opened Diagrams
  import opened Chunkings

  /** Some transactions and a claim about what they pay for what size, which Describes says is right. */
  datatype SetInfo = SetInfo(transactions: set<nat>, feerate: FeeFrac) {
    ghost predicate Describes(g: Graph) {
      feerate == g.SetRate(transactions)
    }
  }

  function Infos(g: Graph, cs: seq<seq<nat>>): seq<SetInfo> {
    seq(|cs|, i requires 0 <= i < |cs| => SetInfo(Elements(cs[i]), g.SeqRate(cs[i])))
  }

  /** What the first j chunks hold. */
  ghost function Reach(cs: seq<seq<nat>>, j: nat): set<nat>
    requires j <= |cs|
  {
    Elements(Flatten(cs[..j]))
  }

  /** t is the shortest intersection of s with a run of leading chunks whose feerate is not below
      that of s. */
  ghost predicate ShortestIntersection(g: Graph, cs: seq<seq<nat>>, s: set<nat>, t: set<nat>) {
    exists k :: 0 <= k <= |cs| && t == s * Reach(cs, k) && Shortest(g, cs, s, k)
  }

  ghost predicate Shortest(g: Graph, cs: seq<seq<nat>>, s: set<nat>, k: nat)
    requires k <= |cs|
  {
    && (s != {} ==> s * Reach(cs, k) != {})
    && g.SetRate(s * Reach(cs, k)).NotLower(g.SetRate(s))
    && AllBelow(g, cs, s, k)
  }

  ghost predicate AllBelow(g: Graph, cs: seq<seq<nat>>, s: set<nat>, k: nat)
    requires k <= |cs|
  {
    forall j :: 0 <= j < k ==> Below(g, cs, s, j)
  }

  /** What s shares with the first j chunks, if anything, has a lower feerate than s. */
  ghost predicate Below(g: Graph, cs: seq<seq<nat>>, s: set<nat>, j: nat)
    requires j <= |cs|
  {
    s * Reach(cs, j) != {} ==> g.SetRate(s).Higher(g.SetRate(s * Reach(cs, j)))
  }

  /** Whatever t holds beyond any run of leading chunks has at least the first chunk's feerate. */
  ghost predicate SafeToMove(g: Graph, cs: seq<seq<nat>>, t: set<nat>) {
    forall j :: 0 <= j <= |cs| && t - Reach(cs, j) != {} ==>
      cs != [] && g.SetRate(t - Reach(cs, j)).NotLower(g.SeqRate(cs[0]))
  }

  // ---- sets that are safe to move to the front ----

  lemma {:induction false} ReachGrows(cs: seq<seq<nat>>, j: nat, k: nat)
    requires j <= k <= |cs|
    ensures Reach(cs, j) <= Reach(cs, k)
  {
    assert cs[..k] == cs[..j] + cs[j..k];
    FlattenConcat(cs[..j], cs[j..k]);
  }

  lemma {:induction false} IntersectionIsSafe(g: Graph, lin: seq<nat>, cs: seq<seq<nat>>, s: set<nat>, t: set<nat>)
    requires Sized(g, lin) && IsChunking(g, lin, cs) && lin != []
    requires s != {} && s <= g.used && cs != []
    requires g.SetRate(s).NotLower(g.SeqRate(cs[0]))
    requires ShortestIntersection(g, cs, s, t)
    ensures SafeToMove(g, cs, t)
  {
    var k :| 0 <= k <= |cs| && t == s * Reach(cs, k) && Shortest(g, cs, s, k);
    var c := g.SeqRate(cs[0]);
    ChunkSized(g, cs, 0);
    assert Tight(g, cs[0]);
    SeqRateSize(g, cs[0]);
    forall j | 0 <= j <= |cs| ensures t - Reach(cs, j) != {} ==> g.SetRate(t - Reach(cs, j)).NotLower(c) {
      if k <= j {
        ReachGrows(cs, k, j);
        assert t - Reach(cs, j) == {};
      } else {
        ReachGrows(cs, j, k);
        assert t * Reach(cs, j) == s * Reach(cs, j);
        assert Below(g, cs, s, j);
        BeyondWorsePart(g, s, t, Reach(cs, j), c);
      }
    }
  }

  /** If t is no worse than s, and its part inside a is worse, then its part outside a is no worse. */
  lemma {:induction false} BeyondWorsePart(g: Graph, s: set<nat>, t: set<nat>, a: set<nat>, c: FeeFrac)
    requires g.PositiveSizes() && s != {} && s <= g.used && t <= g.used && c.size > 0
    requires g.SetRate(s).NotLower(c) && g.SetRate(t).NotLower(g.SetRate(s))
    requires t * a != {} ==> g.SetRate(s).NotLower(g.SetRate(t * a))
    ensures t - a != {} ==> g.SetRate(t - a).NotLower(c)
  {
    if t - a != {} {
      var x, y, rs := g.SetRate(t * a), g.SetRate(t - a), g.SetRate(s);
      SetRateSplit(g, t, a);
      SetRateSize(g, t * a);
      SetRateSize(g, t - a);
      SetRateSize(g, s);
      if t * a == {} {
        assert t == t * a + (t - a);
        assert t - a == t;
      } else {
        HigherIsValue(rs, rs);
        RestOfSplit(rs.fee, rs.size, x, y, rs);
      }
      NotLowerTransitive(y, rs, c);
    }
  }

  lemma {:induction false} WithinFirstChunkIsSafe(g: Graph, cs: seq<seq<nat>>, t: set<nat>)
    requires cs != [] && t <= Elements(cs[0])
    requires g.SetRate(t).NotLower(g.SeqRate(cs[0]))
    ensures SafeToMove(g, cs, t)
  {
    forall j | 0 <= j <= |cs|
      ensures t - Reach(cs, j) != {} ==> g.SetRate(t - Reach(cs, j)).NotLower(g.SeqRate(cs[0]))
    {
      if j == 0 {
        assert cs[..0] == [];
        assert t - Reach(cs, j) == t;
      } else {
        ReachGrows(cs, 1, j);
        assert cs[..1] == [cs[0]];
        FlattenOne(cs[0]);
      }
    }
  }

  /** No topological subset of todo has a higher feerate than t. */
  ghost predicate HighestFeerate(g: Graph, todo: set<nat>, t: set<nat>) {
    && t != {} && g.Topological(t, todo)
    && forall x :: x != {} && g.Topological(x, todo) ==> g.SetRate(t).NotLower(g.SetRate(x))
  }

  lemma {:induction false} FlattenPrefix(cs: seq<seq<nat>>, j: nat)
    requires j <= |cs|
    ensures |Flatten(cs[..j])| <= |Flatten(cs)|
    ensures Flatten(cs)[..|Flatten(cs[..j])|] == Flatten(cs[..j])
  {
    assert cs == cs[..j] + cs[j..];
    FlattenConcat(cs[..j], cs[j..]);
  }

  lemma {:induction false} HighestFeerateIsSafe(g: Graph, todo: set<nat>, lin: seq<nat>, cs: seq<seq<nat>>, t: set<nat>)
    requires g.Valid() && todo <= g.used && g.IsLinearization(todo, lin)
    requires IsChunking(g, lin, cs) && HighestFeerate(g, todo, t)
    ensures SafeToMove(g, cs, t)
  {
    FirstChunkBest(g, lin, cs, |lin|) by {
      assert Elements([]) == {};
    }
    var c := cs[0];
    assert lin[..|c|] == c;
    PrefixTopological(g, todo, lin, |c|);
    DistinctPrefix(lin, |c|);
    SeqRateIsSetRate(g, c);
    SeqRateSize(g, c);
    assert c[0] in Elements(c);
    forall j | 0 <= j <= |cs| ensures t - Reach(cs, j) != {} ==> g.SetRate(t - Reach(cs, j)).NotLower(g.SeqRate(c)) {
      FlattenPrefix(cs, j);
      PrefixTopological(g, todo, lin, |Flatten(cs[..j])|);
      TopologicalMeet(g, t, Reach(cs, j), todo);
      BeyondWorsePart(g, t, t, Reach(cs, j), g.SeqRate(c));
    }
  }

  lemma {:induction false} DistinctPrefix(s: seq<nat>, k: nat)
    requires Distinct(s) && k <= |s|
    ensures Distinct(s[..k])
  {
  }

  // ---- moving a safe set to the front ----

  /** lin with the members of t (listed as ts) moved to the front. */
  ghost function Moved(lin: seq<nat>, ts: seq<nat>): seq<nat> {
    ts + Filter(lin, Elements(lin) - Elements(ts))
  }

  /** A moved linearization has a prefix made of t and any chosen prefix of the original. */
  lemma {:induction false} MovedPrefix(lin: seq<nat>, ts: seq<nat>, m: nat) returns (head: seq<nat>, tail: seq<nat>)
    requires Distinct(lin) && Distinct(ts) && Elements(ts) <= Elements(lin) && m <= |lin|
    ensures Moved(lin, ts) == head + tail && Distinct(head)
    ensures Elements(head) == Elements(lin[..m]) + (Elements(ts) - Elements(lin[..m]))
  {
    var pre, post := lin[..m], lin[m..];
    var keep := Elements(lin) - Elements(ts);
    assert lin == pre + post;
    FilterConcat(pre, post, keep);
    var kept := Filter(pre, keep);
    head, tail := ts + kept, Filter(post, keep);
    DistinctPrefix(lin, m);
    FilterDistinct(pre, keep);
    DistinctConcat(ts, kept);
    ElementsConcat(ts, kept);
    ElementsConcat(pre, post);
    UnionOfKept(Elements(pre), Elements(ts), Elements(lin));
  }

  lemma {:induction false} UnionOfKept(pre: set<nat>, t: set<nat>, all: set<nat>)
    requires pre <= all
    ensures t + pre * (all - t) == pre + (t - pre)
  {
  }

  lemma {:induction false} HeadBelowPeak(g: Graph, p: int, q: int, head: seq<nat>, tail: seq<nat>)
    ensures Value(p, q, g.SeqRate(head)) <= Peak(p, q, Rates(g, head + tail))
  {
    RatesConcat(g, head, tail);
    PeakConcat(p, q, Rates(g, head), Rates(g, tail));
    PeakNonNegative(p, q, Rates(g, tail));
    RatesSum(g, head);
  }

  lemma {:induction false} MovedPrefixValue(g: Graph, lin: seq<nat>, ts: seq<nat>, m: nat, p: int, q: int)
    requires Distinct(lin) && Distinct(ts) && Elements(ts) <= Elements(lin) && m <= |lin|
    ensures var pre, t := Elements(lin[..m]), Elements(ts);
            Value(p, q, g.SetRate(pre)) + Value(p, q, g.SetRate(t - pre)) <= Peak(p, q, Rates(g, Moved(lin, ts)))
  {
    var pre, t := Elements(lin[..m]), Elements(ts);
    var head, tail := MovedPrefix(lin, ts, m);
    HeadBelowPeak(g, p, q, head, tail);
    SeqRateIsSetRate(g, head);
    SetRateUnion(g, pre, t - pre);
    ValuePlus(p, q, g.SetRate(pre), g.SetRate(t - pre));
  }

  /** Moving a safe set to the front never lowers the diagram at any point. */
  lemma {:induction false} MoveToFront(g: Graph, lin: seq<nat>, ts: seq<nat>)
    requires Sized(g, lin) && Distinct(lin) && Distinct(ts) && Elements(ts) <= Elements(lin)
    requires SafeToMove(g, Chunking(g, lin), Elements(ts))
    ensures Outprices(Rates(g, Moved(lin, ts)), Rates(g, lin))
  {
    forall p: int, q: int | q > 0 ensures Peak(p, q, Rates(g, Moved(lin, ts))) >= Peak(p, q, Rates(g, lin)) {
      MoveToFrontAt(g, lin, ts, p, q);
    }
  }

  lemma {:induction false} MoveToFrontAt(g: Graph, lin: seq<nat>, ts: seq<nat>, p: int, q: int)
    requires q > 0 && Sized(g, lin) && Distinct(lin) && Distinct(ts) && Elements(ts) <= Elements(lin)
    requires SafeToMove(g, Chunking(g, lin), Elements(ts))
    ensures Peak(p, q, Rates(g, Moved(lin, ts))) >= Peak(p, q, Rates(g, lin))
  {
    var cs, t := Chunking(g, lin), Elements(ts);
    ChunkingIsChunking(g, lin);
    ChunkingPeak(g, p, q, lin);
    PeakNonNegative(p, q, Rates(g, Moved(lin, ts)));
    var j := PeakAttained(p, q, ChunkRates(g, cs));
    if Peak(p, q, Rates(g, lin)) > 0 {
      assert ChunkRates(g, cs)[..j] == ChunkRates(g, cs[..j]);
      ChunkRatesSum(g, cs[..j]);
      FlattenPrefix(cs, j);
      var m := |Flatten(cs[..j])|;
      assert lin[..m] == Flatten(cs[..j]);
      DistinctPrefix(lin, m);
      SeqRateIsSetRate(g, lin[..m]);
      MovedPrefixValue(g, lin, ts, m, p, q);
      var y := t - Reach(cs, j);
      SetRateSize(g, y);
      if y != {} {
        FirstChunkGains(g, lin, p, q);
        ChunkSized(g, cs, 0);
        assert Tight(g, cs[0]);
        SeqRateSize(g, cs[0]);
        ValueSign(p, q, g.SetRate(y), g.SeqRate(cs[0]));
      }
    }
  }

  /** Where the diagram rises above a line at all, its first chunk does. */
  lemma {:induction false} FirstChunkGains(g: Graph, lin: seq<nat>, p: int, q: int)
    requires q > 0 && Sized(g, lin) && Peak(p, q, Rates(g, lin)) > 0
    ensures Chunking(g, lin) != [] && Value(p, q, g.SeqRate(Chunking(g, lin)[0])) > 0
  {
    var cs := Chunking(g, lin);
    ChunkingPeak(g, p, q, lin);
    DiagramShape(g, lin);
    var rs := ChunkRates(g, cs);
    if Value(p, q, rs[0]) <= 0 {
      AllLossesAfterFirst(p, q, rs);
    }
  }

  // ---- bookkeeping facts ----

  lemma {:induction false} PushStops(g: Graph, cs: seq<seq<nat>>, c: seq<nat>)
    requires cs == [] || !g.SeqRate(c).Higher(g.SeqRate(cs[|cs| - 1]))
    ensures Push(g, cs, c) == cs + [c]
  {
  }

  lemma {:induction false} PushFlattens(g: Graph, cs: seq<seq<nat>>, c: seq<nat>)
    ensures Flatten(Push(g, cs, c)) == Flatten(cs) + c
    decreases |cs|
  {
    FlattenConcat(cs, [c]);
    FlattenOne(c);
    if cs != [] && g.SeqRate(c).Higher(g.SeqRate(cs[|cs| - 1])) {
      var init, last := cs[..|cs| - 1], cs[|cs| - 1];
      PushFlattens(g, init, last + c);
      assert cs == init + [last];
      FlattenConcat(init, [last]);
      FlattenOne(last);
    }
  }

  lemma {:induction false} ChunkingFlattens(g: Graph, lin: seq<nat>)
    ensures Flatten(Chunking(g, lin)) == lin
  {
    if lin != [] {
      var init, x := lin[..|lin| - 1], lin[|lin| - 1];
      ChunkingFlattens(g, init);
      PushFlattens(g, Chunking(g, init), [x]);
      assert lin == init + [x];
    }
  }

  lemma {:induction false} LastChunk(cs: seq<seq<nat>>, c: seq<nat>)
    requires cs != []
    ensures Flatten(cs[..|cs| - 1]) + (cs[|cs| - 1] + c) == Flatten(cs) + c
    ensures Distinct(Flatten(cs) + c) ==> Elements(cs[|cs| - 1]) !! Elements(c)
  {
    var init, d := cs[..|cs| - 1], cs[|cs| - 1];
    assert cs == init + [d];
    FlattenConcat(init, [d]);
    FlattenOne(d);
    DistinctConcat(Flatten(init), d + c);
    DistinctConcat(d, c);
  }

  lemma {:induction false} AllBelowNext(g: Graph, cs: seq<seq<nat>>, s: set<nat>, k: nat)
    requires k < |cs| && AllBelow(g, cs, s, k) && Below(g, cs, s, k)
    ensures AllBelow(g, cs, s, k + 1)
  {
  }

  lemma {:induction false} InfosAt(g: Graph, cs: seq<seq<nat>>, i: nat)
    requires i < |cs|
    ensures Infos(g, cs)[i] == SetInfo(Elements(cs[i]), g.SeqRate(cs[i]))
  {
  }

  lemma {:induction false} InfosLast(g: Graph, cs: seq<seq<nat>>, infos: seq<SetInfo>)
    requires cs != [] && infos == Infos(g, cs)
    ensures infos[|infos| - 1] == SetInfo(Elements(cs[|cs| - 1]), g.SeqRate(cs[|cs| - 1]))
  {
    InfosAt(g, cs, |cs| - 1);
  }

  lemma {:induction false} InfosInit(g: Graph, cs: seq<seq<nat>>)
    requires cs != []
    ensures Infos(g, cs[..|cs| - 1]) == Infos(g, cs)[..|cs| - 1]
  {
  }

  lemma {:induction false} InfosTail(g: Graph, cs: seq<seq<nat>>)
    requires cs != []
    ensures Infos(g, cs[1..]) == Infos(g, cs)[1..]
  {
  }

  lemma {:induction false} InfosAppend(g: Graph, cs: seq<seq<nat>>, c: seq<nat>)
    ensures Infos(g, cs + [c]) == Infos(g, cs) + [SetInfo(Elements(c), g.SeqRate(c))]
  {
  }

  lemma {:induction false} SomeChunk(g: Graph, lin: seq<nat>)
    requires Sized(g, lin)
    ensures lin != [] <==> Chunking(g, lin) != []
  {
    ChunkingIsChunking(g, lin);
    FlattenLength(Chunking(g, lin));
  }

  lemma {:induction false} UnionCommutes(a: set<nat>, b: set<nat>)
    ensures a + b == b + a
  {
  }

  lemma {:induction false} ReachNext(cs: seq<seq<nat>>, s: set<nat>, i: nat)
    requires i < |cs|
    ensures s * Reach(cs, i + 1) == s * Reach(cs, i) + Elements(cs[i]) * s
    ensures Elements(cs[i]) * s == {} ==> s * Reach(cs, i + 1) == s * Reach(cs, i)
    ensures Distinct(Flatten(cs)) ==> s * Reach(cs, i) !! Elements(cs[i]) * s
  {
    assert cs[..i + 1] == cs[..i] + [cs[i]];
    FlattenConcat(cs[..i], [cs[i]]);
    FlattenOne(cs[i]);
    ElementsConcat(Flatten(cs[..i]), cs[i]);
    FlattenPrefix(cs, i + 1);
    DistinctConcat(Flatten(cs[..i]), cs[i]);
    assert Reach(cs, i + 1) == Reach(cs, i) + Elements(cs[i]);
  }

  /** When the first n of what remains of lin are done, the first n of lin can be forgotten. */
  lemma {:induction false} DropDonePrefix(lin: seq<nat>, todo: set<nat>, done: set<nat>, n: nat)
    requires Distinct(lin) && todo <= Elements(lin)
    requires n <= |Filter(lin, todo)| && done == Elements(Filter(lin, todo)[..n])
    ensures n <= |lin| && Distinct(lin[n..]) && todo - done <= Elements(lin[n..]) <= Elements(lin)
    ensures Filter(lin[n..], todo - done) == Filter(Filter(lin, todo), todo - done) == Filter(lin, todo)[n..]
  {
    var todo' := todo - done;
    var rem := Filter(lin, todo);
    assert lin == lin[..n] + lin[n..];
    FilterConcat(lin[..n], lin[n..], todo);
    var f := Filter(lin[..n], todo);
    assert f == rem[..|f|];
    assert Elements(f) <= Elements(rem[..n]);
    assert Elements(lin[..n]) !! todo';
    FilterNone(lin[..n], todo');
    FilterConcat(lin[..n], lin[n..], todo');
    FilterFilter(lin, todo, todo');
    assert todo * todo' == todo';
    DistinctConcat(lin[..n], lin[n..]);
    ElementsConcat(lin[..n], lin[n..]);
    FilterDistinct(lin, todo);
    assert rem == rem[..n] + rem[n..];
    FilterConcat(rem[..n], rem[n..], todo');
    FilterNone(rem[..n], todo');
    DistinctConcat(rem[..n], rem[n..]);
    ElementsConcat(rem[..n], rem[n..]);
    FilterAll(rem[n..], todo');
  }

  /** One round of absorbing the last chunk. */
  lemma {:induction false} AbsorbStep(g: Graph, cs: seq<seq<nat>>, c: seq<nat>, r: seq<SetInfo>, add: SetInfo)
    requires cs != [] && r == Infos(g, cs) && add == SetInfo(Elements(c), g.SeqRate(c))
    requires add.feerate.Higher(r[|r| - 1].feerate)
    ensures var last, init, d := r[|r| - 1], cs[..|cs| - 1], cs[|cs| - 1];
            && r[..|r| - 1] == Infos(g, init)
            && SetInfo(add.transactions + last.transactions, add.feerate.Plus(last.feerate))
               == SetInfo(Elements(d + c), g.SeqRate(d + c))
            && Push(g, cs, c) == Push(g, init, d + c)
            && Flatten(init) + (d + c) == Flatten(cs) + c
            && (Distinct(Flatten(cs) + c) ==> add.transactions !! last.transactions)
  {
    var last, d := r[|r| - 1], cs[|cs| - 1];
    InfosLast(g, cs, r);
    InfosInit(g, cs);
    LastChunk(cs, c);
    SeqRateConcat(g, d, c);
    ElementsConcat(d, c);
    PlusCommutes(add.feerate, last.feerate);
    UnionCommutes(add.transactions, last.transactions);
  }

  lemma {:induction false} SingleInfo(g: Graph, idx: nat)
    ensures SetInfo({idx}, g.FeeRate(idx)) == SetInfo(Elements([idx]), g.SeqRate([idx]))
  {
    SeqRateSingleton(g, [idx]);
  }

  lemma {:induction false} AbsorbDone(g: Graph, cs: seq<seq<nat>>, c: seq<nat>, r: seq<SetInfo>, add: SetInfo)
    requires r == Infos(g, cs) && add == SetInfo(Elements(c), g.SeqRate(c))
    requires r == [] || !add.feerate.Higher(r[|r| - 1].feerate)
    ensures r + [add] == Infos(g, Push(g, cs, c))
  {
    if cs != [] {
      InfosLast(g, cs, r);
    }
    PushStops(g, cs, c);
    InfosAppend(g, cs, c);
  }

  /** Append transaction idx as a chunk after absorbing final chunks of lower feerate. */
  method Absorb(g: Graph, chunks: seq<SetInfo>, idx: nat, ghost before: seq<nat>) returns (r: seq<SetInfo>)
    requires chunks == Infos(g, Chunking(g, before))
    requires Distinct(before + [idx])
    ensures r == Infos(g, Chunking(g, before + [idx]))
  {
    ghost var goal := Chunking(g, before + [idx]);
    assert (before + [idx])[..|before|] == before;
    var add := SetInfo({idx}, g.FeeRate(idx));
    ghost var cs, c := Chunking(g, before), [idx];
    r := chunks;
    SingleInfo(g, idx);
    ChunkingFlattens(g, before);
    while r != [] && add.feerate.Higher(r[|r| - 1].feerate)
      invariant r == Infos(g, cs)
      invariant add == SetInfo(Elements(c), g.SeqRate(c))
      invariant Push(g, cs, c) == goal
      invariant Flatten(cs) + c == before + [idx]
      decreases |r|
    {
      AbsorbStep(g, cs, c, r, add);
      // What is absorbed does not overlap what absorbs it.
      assert add.transactions !! r[|r| - 1].transactions;
      add := SetInfo(add.transactions + r[|r| - 1].transactions, add.feerate.Plus(r[|r| - 1].feerate));
      r := r[..|r| - 1];
      cs, c := cs[..|cs| - 1], cs[|cs| - 1] + c;
    }
    AbsorbDone(g, cs, c, r, add);
    r := r + [add];
  }

  lemma {:induction false} FilterNext(lin: seq<nat>, todo: set<nat>, n: nat)
    requires n < |lin| && Distinct(lin)
    ensures Filter(lin[..n + 1], todo)
         == if lin[n] in todo then Filter(lin[..n], todo) + [lin[n]] else Filter(lin[..n], todo)
    ensures lin[n] in todo ==> Distinct(Filter(lin[..n], todo) + [lin[n]])
  {
    assert lin[..n + 1] == lin[..n] + [lin[n]];
    FilterConcat(lin[..n], [lin[n]], todo);
    DistinctPrefix(lin, n + 1);
    FilterDistinct(lin[..n + 1], todo);
  }

  /** The shortest intersection of subset with leading chunks whose feerate is not below subset's. */
  method IntersectChunks(g: Graph, chunks: seq<SetInfo>, subset: SetInfo, ghost cs: seq<seq<nat>>) returns (r: SetInfo)
    requires chunks == Infos(g, cs) && Distinct(Flatten(cs))
    requires subset.transactions <= Elements(Flatten(cs)) && subset.Describes(g)
    ensures r.Describes(g)
    ensures ShortestIntersection(g, cs, subset.transactions, r.transactions)
  {
    var s := subset.transactions;
    assert cs[..0] == [] && cs[..|cs|] == cs;
    SetRateEmpty(g);
    var accumulator := SetInfo({}, Zero());
    for i := 0 to |chunks|
      invariant accumulator.transactions == s * Reach(cs, i)
      invariant accumulator.Describes(g)
      invariant s != {} ==> accumulator.transactions != s
      invariant AllBelow(g, cs, s, i) && Below(g, cs, s, i)
    {
      var toAdd := chunks[i].transactions * s;
      AllBelowNext(g, cs, s, i);
      InfosAt(g, cs, i);
      ReachNext(cs, s, i);
      if toAdd != {} {
        SetRateUnion(g, accumulator.transactions, toAdd);
        accumulator := accumulator.(transactions := accumulator.transactions + toAdd);
        if accumulator.transactions == s {
          assert Shortest(g, cs, s, i + 1);
          break;
        }
        accumulator := accumulator.(feerate := accumulator.feerate.Plus(g.SetRate(toAdd)));
        if !subset.feerate.Higher(accumulator.feerate) {
          assert Shortest(g, cs, s, i + 1);
          return accumulator;
        }
      }
      assert Below(g, cs, s, i + 1);
    }
    return subset;
  }

  // ---- the class ----

  class LinearizationChunking {
    /** The graph this linearization is for. */
    const g: Graph
    /** Holds what remains in its order, perhaps with transactions that are done between. */
    var linearization: seq<nat>
    /** From chunksSkip on, the chunking of what remains; before, chunks that are done. */
    var chunks: seq<SetInfo>
    /** Where the chunks that count begin. */
    var chunksSkip: nat
    /** What remains in the linearization. */
    var todo: set<nat>

    ghost function Remaining(): seq<nat>
      reads this
    {
      Filter(linearization, todo)
    }

    ghost predicate Consistent()
      reads this
    {
      && Sized(g, linearization) && Distinct(linearization)
      && todo <= Elements(linearization)
    }

    ghost predicate Valid()
      reads this
    {
      && Consistent()
      && chunksSkip <= |chunks|
      && chunks[chunksSkip..] == Infos(g, Chunking(g, Remaining()))
    }

    lemma {:induction false} RemainingFacts()
      requires Consistent()
      ensures Distinct(Remaining()) && Elements(Remaining()) == todo && Sized(g, Remaining())
    {
      FilterDistinct(linearization, todo);
    }

    constructor (g: Graph, lin: seq<nat>)
      requires Sized(g, lin) && Distinct(lin)
      ensures Valid() && this.g == g
      ensures Remaining() == lin && todo == Elements(lin)
    {
      this.g := g;
      linearization := lin;
      chunks := [];
      chunksSkip := 0;
      todo := Elements(lin);
      new;
      FilterAll(lin, todo);
      BuildChunks();
    }

    /** Chunk what remains from scratch. */
    method BuildChunks()
      requires Consistent() && chunks == [] && chunksSkip == 0
      modifies this`chunks, this`linearization
      ensures Valid() && Remaining() == old(Remaining())
      ensures linearization != [] ==> linearization[0] in todo
    {
      while linearization != [] && linearization[0] !in todo
        invariant Consistent() && Remaining() == old(Remaining()) && chunks == []
        decreases |linearization|
      {
        assert linearization == [linearization[0]] + linearization[1..];
        DistinctConcat([linearization[0]], linearization[1..]);
        linearization := linearization[1..];
      }
      var lin := linearization;
      for n := 0 to |lin|
        invariant linearization == lin
        invariant chunks == Infos(g, Chunking(g, Filter(lin[..n], todo)))
      {
        var idx := lin[n];
        FilterNext(lin, todo, n);
        if idx in todo {
          chunks := Absorb(g, chunks, idx, Filter(lin[..n], todo));
        }
      }
      assert lin[..|lin|] == lin;
    }

    /** How many chunks remain. */
    function NumChunksLeft(): (n: nat)
      requires Valid()
      reads this
      ensures n == |Chunking(g, Remaining())|
    {
      |chunks| - chunksSkip
    }

    /** Chunk n of what remains; chunk 0 is its highest-feerate prefix. */
    function GetChunk(n: nat): (c: SetInfo)
      requires Valid() && n < NumChunksLeft()
      reads this
      ensures c == Infos(g, Chunking(g, Remaining()))[n]
    {
      chunks[n + chunksSkip]
    }

    /** Take subset out of the linearization. */
    method MarkDone(subset: set<nat>)
      requires Valid() && subset != {} && subset <= todo
      modifies this
      ensures Valid() && todo == old(todo) - subset
      ensures Remaining() == Filter(old(Remaining()), todo)
    {
      ghost var before := Remaining();
      RemainingFacts();
      SomeChunk(g, before);
      ghost var cs := Chunking(g, before);
      todo := todo - subset;
      FilterFilter(linearization, old(todo), todo);
      assert old(todo) * todo == todo;
      if chunks[chunksSkip].transactions == subset {
        ChunkingDropFirst(g, before);
        DropDonePrefix(linearization, old(todo), subset, |cs[0]|);
        assert chunks[chunksSkip] == Infos(g, cs)[0];
        DistinctPrefix(before, |cs[0]|);
        DistinctCount(cs[0]);
        InfosTail(g, cs);
        assert chunks[chunksSkip + 1..] == chunks[chunksSkip..][1..];
        chunksSkip := chunksSkip + 1;
        linearization := linearization[|subset|..];
      } else {
        chunks := [];
        chunksSkip := 0;
        BuildChunks();
      }
    }

    /** What can be moved to the front without harm: of the subset, its part in as few leading chunks as it takes to
        pay no less per size than the whole subset. */
    method IntersectPrefixes(subset: SetInfo) returns (r: SetInfo)
      requires Valid() && subset.transactions <= todo && subset.Describes(g)
      ensures r.Describes(g)
      ensures ShortestIntersection(g, Chunking(g, Remaining()), subset.transactions, r.transactions)
    {
      RemainingFacts();
      ChunkingFlattens(g, Remaining());
      r := IntersectChunks(g, chunks[chunksSkip..], subset, Chunking(g, Remaining()));
    }
  }
}
