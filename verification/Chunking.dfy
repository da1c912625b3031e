/** Chunks of a linearization: the maximal-feerate prefix, then the maximal-feerate prefix of what
    remains, and so on, found by merging each transaction backward into worse chunks. */
module Chunkings {
  import opened FeeFracs
  import opened Sets
  import opened Graphs
  import opened Diagrams

  function Flatten(cs: seq<seq<nat>>): seq<nat> {
    if cs == [] then [] else cs[0] + Flatten(cs[1..])
  }

  function Rates(g: Graph, lin: seq<nat>): seq<FeeFrac> {
    seq(|lin|, i requires 0 <= i < |lin| => g.FeeRate(lin[i]))
  }

  function ChunkRates(g: Graph, cs: seq<seq<nat>>): seq<FeeFrac> {
    seq(|cs|, i requires 0 <= i < |cs| => g.SeqRate(cs[i]))
  }

  ghost predicate Sized(g: Graph, lin: seq<nat>) {
    g.PositiveSizes() && Elements(lin) <= g.used
  }

  /** Every proper prefix of c has a strictly lower feerate than c. */
  ghost predicate Tight(g: Graph, c: seq<nat>) {
    c != [] && forall k :: 0 < k < |c| ==> g.SeqRate(c).Higher(g.SeqRate(c[..k]))
  }

  /** cs cuts lin into tight chunks of non-increasing feerate. */
  ghost predicate IsChunking(g: Graph, lin: seq<nat>, cs: seq<seq<nat>>) {
    && Flatten(cs) == lin
    && (forall i :: 0 <= i < |cs| ==> Tight(g, cs[i]))
    && NonIncreasing(ChunkRates(g, cs))
  }

  /** Append chunk c, first absorbing final chunks of lower feerate. */
  function Push(g: Graph, cs: seq<seq<nat>>, c: seq<nat>): seq<seq<nat>> {
    if cs != [] && g.SeqRate(c).Higher(g.SeqRate(cs[|cs| - 1]))
    then Push(g, cs[..|cs| - 1], cs[|cs| - 1] + c)
    else cs + [c]
  }

  function Chunking(g: Graph, lin: seq<nat>): seq<seq<nat>> {
    if lin == [] then []
    else Push(g, Chunking(g, lin[..|lin| - 1]), [lin[|lin| - 1]])
  }

  /** The feerate diagram of a linearization: the polyline through its chunk totals. */
  ghost function DiagramOf(g: Graph, lin: seq<nat>): seq<FeeFrac> {
    ChunkRates(g, Chunking(g, lin))
  }

  /** The diagram of a is nowhere below the diagram of b. */
  ghost predicate AtLeastAsGood(g: Graph, a: seq<nat>, b: seq<nat>) {
    && Positive(DiagramOf(g, a)) && Positive(DiagramOf(g, b))
    && NowhereBelow(DiagramOf(g, a), DiagramOf(g, b), g.SeqRate(a).size as real)
  }

  // ---- flattening and rates ----

  lemma {:induction false} FlattenConcat(a: seq<seq<nat>>, b: seq<seq<nat>>)
    ensures Flatten(a + b) == Flatten(a) + Flatten(b)
  {
    if a == [] {
      assert a + b == b;
    } else {
      assert (a + b)[1..] == a[1..] + b;
      FlattenConcat(a[1..], b);
    }
  }

  lemma {:induction false} FlattenLength(cs: seq<seq<nat>>)
    requires forall i :: 0 <= i < |cs| ==> cs[i] != []
    ensures |Flatten(cs)| >= |cs|
  {
    if cs != [] {
      FlattenLength(cs[1..]);
    }
  }

  lemma {:induction false} FlattenOne(c: seq<nat>)
    ensures Flatten([c]) == c
  {
    assert [c][1..] == [];
  }

  lemma {:induction false} RatesSum(g: Graph, lin: seq<nat>)
    ensures Sum(Rates(g, lin)) == g.SeqRate(lin)
  {
    if lin != [] {
      assert Rates(g, lin)[1..] == Rates(g, lin[1..]);
      RatesSum(g, lin[1..]);
      SeqRateHead(g, lin);
    }
  }

  lemma {:induction false} RatesConcat(g: Graph, a: seq<nat>, b: seq<nat>)
    ensures Rates(g, a + b) == Rates(g, a) + Rates(g, b)
  {
  }

  lemma {:induction false} ChunkRatesSum(g: Graph, cs: seq<seq<nat>>)
    ensures Sum(ChunkRates(g, cs)) == g.SeqRate(Flatten(cs))
  {
    if cs != [] {
      assert ChunkRates(g, cs)[1..] == ChunkRates(g, cs[1..]);
      ChunkRatesSum(g, cs[1..]);
      SeqRateConcat(g, cs[0], Flatten(cs[1..]));
    }
  }

  lemma {:induction false} ChunkRatesInit(g: Graph, cs: seq<seq<nat>>)
    requires cs != []
    ensures ChunkRates(g, cs[..|cs| - 1]) == ChunkRates(g, cs)[..|cs| - 1]
  {
  }

  lemma {:induction false} ChunkRatesAppend(g: Graph, cs: seq<seq<nat>>, c: seq<nat>)
    ensures ChunkRates(g, cs + [c]) == ChunkRates(g, cs) + [g.SeqRate(c)]
  {
  }

  lemma {:induction false} ChunkSized(g: Graph, cs: seq<seq<nat>>, i: nat)
    requires Sized(g, Flatten(cs)) && i < |cs|
    ensures Sized(g, cs[i])
  {
    assert Elements(cs[0]) <= Elements(Flatten(cs));
    if i > 0 {
      assert Elements(Flatten(cs[1..])) <= Elements(Flatten(cs));
      ChunkSized(g, cs[1..], i - 1);
    }
  }

  lemma {:induction false} ChunksPositive(g: Graph, lin: seq<nat>, cs: seq<seq<nat>>)
    requires Sized(g, lin) && IsChunking(g, lin, cs)
    ensures Positive(ChunkRates(g, cs))
  {
    forall i | 0 <= i < |cs| ensures ChunkRates(g, cs)[i].size > 0 {
      ChunkSized(g, cs, i);
      assert Tight(g, cs[i]);
      SeqRateSize(g, cs[i]);
    }
  }

  // ---- the chunking algorithm yields a chunking ----

  /** Putting a tight chunk behind a tight chunk of lower feerate gives a tight chunk. */
  lemma {:induction false} MergeTight(g: Graph, a: seq<nat>, b: seq<nat>)
    requires Sized(g, a) && Sized(g, b)
    requires Tight(g, a) && Tight(g, b)
    requires g.SeqRate(b).Higher(g.SeqRate(a))
    ensures Tight(g, a + b)
  {
    var c := a + b;
    var ra, rb, rc := g.SeqRate(a), g.SeqRate(b), g.SeqRate(c);
    SeqRateConcat(g, a, b);
    SeqRateSize(g, a);
    SeqRateSize(g, b);
    Mediant(rb, ra);
    assert rc == rb.Plus(ra);
    forall k | 0 < k < |c| ensures rc.Higher(g.SeqRate(c[..k])) {
      if k <= |a| {
        assert c[..k] == a[..k];
        PrefixSized(g, a, k);
        assert k == |a| ==> a[..k] == a;
        NotLowerTransitive(rc, ra, g.SeqRate(a[..k]));
      } else {
        var j := k - |a|;
        assert c[..k] == a + b[..j];
        MergeTightTail(g, a, b, j);
      }
    }
  }

  lemma {:induction false} PrefixSized(g: Graph, c: seq<nat>, k: nat)
    requires Sized(g, c) && 0 < k <= |c|
    ensures Sized(g, c[..k])
    ensures 0 < g.SeqRate(c[..k]).size <= g.SeqRate(c).size
  {
    assert c == c[..k] + c[k..];
    SeqRateConcat(g, c[..k], c[k..]);
    SeqRateSize(g, c[..k]);
    SeqRateSize(g, c[k..]);
  }

  lemma {:induction false} MergeTightTail(g: Graph, a: seq<nat>, b: seq<nat>, j: nat)
    requires Sized(g, a) && Sized(g, b) && a != []
    requires Tight(g, b) && 0 < j < |b|
    requires g.SeqRate(b).Higher(g.SeqRate(a))
    ensures g.SeqRate(a + b).Higher(g.SeqRate(a + b[..j]))
  {
    var ra, rb, rj := g.SeqRate(a), g.SeqRate(b), g.SeqRate(b[..j]);
    var rc := ra.Plus(rb);
    SeqRateConcat(g, a, b);
    SeqRateConcat(g, a, b[..j]);
    PrefixSized(g, b, j);
    SeqRateSize(g, a);
    assert rb.Higher(rj);
    PartValue(rc.fee, rc.size, rj, rb);
    HigherIsValue(rb, rc);
    HigherIsValue(ra, rc);
    Mediant(rb, ra);
    assert rc == rb.Plus(ra);
    ValuePlus(rc.fee, rc.size, ra, rb);
    ValuePlus(rc.fee, rc.size, ra, rj);
    HigherIsValue(ra.Plus(rj), rc);
  }

  lemma {:induction false} PushChunking(g: Graph, lin: seq<nat>, cs: seq<seq<nat>>, c: seq<nat>)
    requires Sized(g, lin + c) && IsChunking(g, lin, cs) && Tight(g, c)
    ensures IsChunking(g, lin + c, Push(g, cs, c))
    decreases |cs|
  {
    FlattenOne(c);
    FlattenConcat(cs, [c]);
    assert Sized(g, lin) && Sized(g, c) by {
      ElementsConcat(lin, c);
    }
    if cs != [] && g.SeqRate(c).Higher(g.SeqRate(cs[|cs| - 1])) {
      var init, last := cs[..|cs| - 1], cs[|cs| - 1];
      assert cs == init + [last];
      FlattenConcat(init, [last]);
      FlattenOne(last);
      ChunkSized(g, cs, |cs| - 1);
      MergeTight(g, last, c);
      ChunkingInit(g, cs);
      assert Flatten(init) + (last + c) == lin + c;
      PushChunking(g, Flatten(init), init, last + c);
    } else {
      var cs' := cs + [c];
      forall i | 0 <= i < |cs'| ensures Tight(g, cs'[i]) {
        assert i < |cs| ==> cs'[i] == cs[i];
      }
      var rs, rs' := ChunkRates(g, cs), ChunkRates(g, cs');
      forall i | 0 < i < |rs'| ensures Falls(rs', i) {
        if i < |cs| {
          assert Falls(rs, i);
        }
      }
    }
  }

  lemma {:induction false} ChunkingInit(g: Graph, cs: seq<seq<nat>>)
    requires cs != [] && IsChunking(g, Flatten(cs), cs)
    ensures IsChunking(g, Flatten(cs[..|cs| - 1]), cs[..|cs| - 1])
  {
    ChunkRatesInit(g, cs);
    var rs, rs' := ChunkRates(g, cs), ChunkRates(g, cs[..|cs| - 1]);
    forall i | 0 < i < |rs'| ensures Falls(rs', i) {
      assert Falls(rs, i);
    }
  }

  lemma {:induction false} ChunkingIsChunking(g: Graph, lin: seq<nat>)
    requires Sized(g, lin)
    ensures IsChunking(g, lin, Chunking(g, lin))
  {
    if lin != [] {
      var init, x := lin[..|lin| - 1], lin[|lin| - 1];
      assert lin == init + [x];
      ElementsConcat(init, [x]);
      ChunkingIsChunking(g, init);
      PushChunking(g, init, Chunking(g, init), [x]);
    }
  }

  // ---- a linearization has only one chunking ----

  /** The first chunk is no worse than any prefix, and better than every shorter one. */
  lemma {:induction false} FirstChunkBest(g: Graph, lin: seq<nat>, cs: seq<seq<nat>>, k: nat)
    requires Sized(g, lin) && IsChunking(g, lin, cs) && 0 < k <= |lin|
    ensures cs != [] && 0 < |cs[0]| <= |lin|
    ensures g.SeqRate(cs[0]).NotLower(g.SeqRate(lin[..k]))
    ensures k < |cs[0]| ==> g.SeqRate(cs[0]).Higher(g.SeqRate(lin[..k]))
  {
    var c := cs[0];
    assert Tight(g, c);
    if k < |c| {
      assert lin[..k] == c[..k];
      assert g.SeqRate(c).Higher(g.SeqRate(c[..k]));
    } else {
      ChunkSized(g, cs, 0);
      SeqRateSize(g, c);
      var rc := g.SeqRate(c);
      ChunksPositive(g, lin, cs);
      var rs := ChunkRates(g, cs);
      forall i | 0 <= i < |rs| ensures !rs[i].Higher(rc) {
        FirstIsHighest(rs, i);
      }
      NoGainPastFirst(rs, rc);
      ChunkPeak(g, rc.fee, rc.size, cs);
      PrefixBelowPeak(rc.fee, rc.size, Rates(g, lin), k);
      assert Rates(g, lin)[..k] == Rates(g, lin[..k]);
      RatesSum(g, lin[..k]);
      HigherIsValue(g.SeqRate(lin[..k]), rc);
    }
  }

  /** Chunk totals carry the peaks of the whole linearization. */
  lemma {:induction false} ChunkPeak(g: Graph, p: int, q: int, cs: seq<seq<nat>>)
    requires q > 0 && Sized(g, Flatten(cs))
    requires forall i :: 0 <= i < |cs| ==> Tight(g, cs[i])
    ensures Peak(p, q, Rates(g, Flatten(cs))) == Peak(p, q, ChunkRates(g, cs))
  {
    if cs != [] {
      var c, rest := cs[0], Flatten(cs[1..]);
      assert Elements(rest) <= Elements(Flatten(cs));
      ChunkPeak(g, p, q, cs[1..]);
      assert ChunkRates(g, cs)[1..] == ChunkRates(g, cs[1..]);
      RatesConcat(g, c, rest);
      PeakConcat(p, q, Rates(g, c), Rates(g, rest));
      RatesSum(g, c);
      ChunkSized(g, cs, 0);
      TightPeak(g, p, q, c);
      PeakNonNegative(p, q, Rates(g, rest));
      PeakNonNegative(p, q, Rates(g, c));
    }
  }

  lemma {:induction false} TightPeak(g: Graph, p: int, q: int, c: seq<nat>)
    requires q > 0 && Sized(g, c) && Tight(g, c)
    ensures Peak(p, q, Rates(g, c)) <= Max(0, Value(p, q, g.SeqRate(c)))
  {
    var k := PeakAttained(p, q, Rates(g, c));
    assert Rates(g, c)[..k] == Rates(g, c[..k]);
    RatesSum(g, c[..k]);
    if 0 < k {
      PrefixSized(g, c, k);
      assert k == |c| ==> c[..k] == c;
      PartValue(p, q, g.SeqRate(c[..k]), g.SeqRate(c));
    }
  }

  lemma {:induction false} ChunkingUnique(g: Graph, lin: seq<nat>, cs: seq<seq<nat>>, ds: seq<seq<nat>>)
    requires Sized(g, lin)
    requires IsChunking(g, lin, cs) && IsChunking(g, lin, ds)
    ensures cs == ds
    decreases |lin|
  {
    if lin == [] {
      FlattenLength(cs);
      FlattenLength(ds);
    } else {
      FirstChunkBest(g, lin, cs, |lin|);
      FirstChunkBest(g, lin, ds, |lin|);
      var m, n := |cs[0]|, |ds[0]|;
      assert lin[..m] == cs[0] && lin[..n] == ds[0];
      FirstChunkBest(g, lin, cs, n);
      FirstChunkBest(g, lin, ds, m);
      assert m == n;
      ChunkingTail(g, lin, cs);
      ChunkingTail(g, lin, ds);
      ChunkingUnique(g, lin[m..], cs[1..], ds[1..]);
      assert cs == [cs[0]] + cs[1..] && ds == [ds[0]] + ds[1..];
    }
  }

  lemma {:induction false} ChunkingTail(g: Graph, lin: seq<nat>, cs: seq<seq<nat>>)
    requires Sized(g, lin) && IsChunking(g, lin, cs) && cs != []
    ensures |cs[0]| <= |lin| && lin[..|cs[0]|] == cs[0]
    ensures Sized(g, lin[|cs[0]|..])
    ensures IsChunking(g, lin[|cs[0]|..], cs[1..])
  {
    assert lin == cs[0] + Flatten(cs[1..]);
    assert lin[|cs[0]|..] == Flatten(cs[1..]);
    var rs, rs' := ChunkRates(g, cs), ChunkRates(g, cs[1..]);
    forall i | 0 < i < |rs'| ensures Falls(rs', i) {
      assert Falls(rs, i + 1);
    }
  }

  /** Dropping the first chunk leaves the chunking of what remains: no rechunking is needed. */
  lemma {:induction false} ChunkingDropFirst(g: Graph, lin: seq<nat>)
    requires Sized(g, lin) && lin != []
    ensures var cs := Chunking(g, lin);
            && cs != [] && |cs[0]| <= |lin| && lin[..|cs[0]|] == cs[0]
            && Chunking(g, lin[|cs[0]|..]) == cs[1..]
  {
    var cs := Chunking(g, lin);
    ChunkingIsChunking(g, lin);
    FirstChunkBest(g, lin, cs, |lin|);
    ChunkingTail(g, lin, cs);
    var rest := lin[|cs[0]|..];
    ChunkingIsChunking(g, rest);
    ChunkingUnique(g, rest, cs[1..], Chunking(g, rest));
  }

  // ---- what chunkings mean for diagrams ----

  lemma {:induction false} ChunkingPeak(g: Graph, p: int, q: int, lin: seq<nat>)
    requires q > 0 && Sized(g, lin)
    ensures Peak(p, q, Rates(g, lin)) == Peak(p, q, DiagramOf(g, lin))
  {
    ChunkingIsChunking(g, lin);
    ChunkPeak(g, p, q, Chunking(g, lin));
  }

  lemma {:induction false} DiagramShape(g: Graph, lin: seq<nat>)
    requires Sized(g, lin)
    ensures Positive(DiagramOf(g, lin)) && NonIncreasing(DiagramOf(g, lin))
    ensures Sum(DiagramOf(g, lin)) == g.SeqRate(lin)
  {
    ChunkingIsChunking(g, lin);
    ChunksPositive(g, lin, Chunking(g, lin));
    ChunkRatesSum(g, Chunking(g, lin));
  }

  /** Comparing diagrams is comparing the best running total at every price. */
  lemma {:induction false} AtLeastAsGoodIffOutprices(g: Graph, a: seq<nat>, b: seq<nat>)
    requires Sized(g, a) && Sized(g, b) && g.SeqRate(a).size == g.SeqRate(b).size
    ensures AtLeastAsGood(g, a, b) <==> Outprices(Rates(g, a), Rates(g, b))
  {
    DiagramShape(g, a);
    DiagramShape(g, b);
    DiagramDuality(DiagramOf(g, a), DiagramOf(g, b));
    if Outprices(Rates(g, a), Rates(g, b)) {
      forall p: int, q: int | q > 0 ensures Peak(p, q, DiagramOf(g, a)) >= Peak(p, q, DiagramOf(g, b)) {
        ChunkingPeak(g, p, q, a);
        ChunkingPeak(g, p, q, b);
        assert Peak(p, q, Rates(g, a)) >= Peak(p, q, Rates(g, b));
      }
    }
    if Outprices(DiagramOf(g, a), DiagramOf(g, b)) {
      forall p: int, q: int | q > 0 ensures Peak(p, q, Rates(g, a)) >= Peak(p, q, Rates(g, b)) {
        ChunkingPeak(g, p, q, a);
        ChunkingPeak(g, p, q, b);
        assert Peak(p, q, DiagramOf(g, a)) >= Peak(p, q, DiagramOf(g, b));
      }
    }
  }

  /** The chunk diagram is the least concave majorant of the running totals of a linearization: it
      passes above all of them, and below every concave diagram of the same extent that does. */
  lemma {:induction false} ChunkDiagramIsLeastConcaveMajorant(g: Graph, lin: seq<nat>, hull: seq<FeeFrac>)
    requires Sized(g, lin) && Positive(hull) && NonIncreasing(hull)
    requires Sum(hull).size == g.SeqRate(lin).size
    ensures Positive(DiagramOf(g, lin)) && NonIncreasing(DiagramOf(g, lin))
    ensures Covers(g, DiagramOf(g, lin), lin)
    ensures Covers(g, hull, lin) ==> NowhereBelow(hull, DiagramOf(g, lin), g.SeqRate(lin).size as real)
  {
    var d := DiagramOf(g, lin);
    DiagramShape(g, lin);
    PositiveRates(g, lin);
    RatesSum(g, lin);
    assert Outprices(d, Rates(g, lin)) by {
      forall p: int, q: int | q > 0 ensures Peak(p, q, d) >= Peak(p, q, Rates(g, lin)) {
        ChunkingPeak(g, p, q, lin);
      }
    }
    DiagramDuality(d, Rates(g, lin));
    forall k | 0 <= k <= |lin| ensures CoversAt(g, d, lin, k) {
      DiagramAtPrefix(Rates(g, lin), k);
      PrefixSize(Rates(g, lin), k);
      assert Rates(g, lin)[..k] == Rates(g, lin[..k]);
      RatesSum(g, lin[..k]);
      var s := g.SeqRate(lin[..k]).size as real;
      assert Diagram(d, s) >= Diagram(Rates(g, lin), s);
    }
    if Covers(g, hull, lin) {
      forall p: int, q: int | q > 0 ensures Peak(p, q, hull) >= Peak(p, q, d) {
        ChunkingPeak(g, p, q, lin);
        CoversPeak(g, p, q, hull, lin);
      }
      DiagramDuality(hull, d);
    }
  }

  /** The diagram of xs passes on or above the first k transactions' total. */
  ghost predicate CoversAt(g: Graph, xs: seq<FeeFrac>, lin: seq<nat>, k: nat)
    requires Positive(xs) && k <= |lin|
  {
    Diagram(xs, g.SeqRate(lin[..k]).size as real) >= g.SeqRate(lin[..k]).fee as real
  }

  ghost predicate Covers(g: Graph, xs: seq<FeeFrac>, lin: seq<nat>)
    requires Positive(xs)
  {
    forall k :: 0 <= k <= |lin| ==> CoversAt(g, xs, lin, k)
  }

  lemma {:induction false} PositiveRates(g: Graph, lin: seq<nat>)
    requires Sized(g, lin)
    ensures Positive(Rates(g, lin))
  {
    forall i | 0 <= i < |lin| ensures g.FeeRate(lin[i]).size > 0 {
      assert lin[i] in Elements(lin);
    }
  }

  lemma {:induction false} CoversPeak(g: Graph, p: int, q: int, hull: seq<FeeFrac>, lin: seq<nat>)
    requires q > 0 && Sized(g, lin) && Positive(hull) && Sum(hull).size == g.SeqRate(lin).size
    requires Covers(g, hull, lin)
    ensures Peak(p, q, hull) >= Peak(p, q, Rates(g, lin))
  {
    var k := PeakAttained(p, q, Rates(g, lin));
    var at := g.SeqRate(lin[..k]);
    assert Rates(g, lin)[..k] == Rates(g, lin[..k]);
    RatesSum(g, lin[..k]);
    PositiveRates(g, lin);
    PrefixSize(Rates(g, lin), k);
    RatesSum(g, lin);
    assert CoversAt(g, hull, lin, k);
    var s := at.size as real;
    DiagramBelowPeak(p, q, hull, s);
    RealValueOrder(p, q, Diagram(hull, s), at.fee as real, s);
    ValueShift(p, q, at, 0.0, s);
    OriginValue(p, q);
  }

  // ---- ChunkLinearization ----

  /** d has falling feerates, the total of lin, and the least concave diagram that passes above its running totals. */
  ghost predicate IsLeastMajorant(g: Graph, d: seq<FeeFrac>, lin: seq<nat>) {
    && Positive(d) && NonIncreasing(d) && Sum(d) == g.SeqRate(lin) && Covers(g, d, lin)
    && forall hull {:trigger Majorant(g, hull, lin)} :: Majorant(g, hull, lin) ==>
        NowhereBelow(hull, d, g.SeqRate(lin).size as real)
  }

  /** A concave diagram of the extent of lin that passes above its running totals. */
  ghost predicate Majorant(g: Graph, hull: seq<FeeFrac>, lin: seq<nat>) {
    Positive(hull) && NonIncreasing(hull) && Sum(hull).size == g.SeqRate(lin).size && Covers(g, hull, lin)
  }

  lemma {:induction false} ChunkRatesAreLeast(g: Graph, lin: seq<nat>)
    requires Sized(g, lin)
    ensures IsLeastMajorant(g, DiagramOf(g, lin), lin)
  {
    DiagramShape(g, lin);
    ChunkDiagramIsLeastConcaveMajorant(g, lin, DiagramOf(g, lin));
    forall hull | Majorant(g, hull, lin) ensures NowhereBelow(hull, DiagramOf(g, lin), g.SeqRate(lin).size as real) {
      ChunkDiagramIsLeastConcaveMajorant(g, lin, hull);
    }
  }

  /** One pass over a linearization finds the slopes of its diagram, steepest first. */
  method ChunkLinearization(g: Graph, linearization: seq<nat>) returns (ret: seq<FeeFrac>)
    ensures ret == ChunkRates(g, Chunking(g, linearization))
    ensures Sized(g, linearization) ==> IsLeastMajorant(g, ret, linearization)
  {
    ret := MergeChunks(g, linearization);
    if Sized(g, linearization) {
      ChunkRatesAreLeast(g, linearization);
    }
  }

  method MergeChunks(g: Graph, linearization: seq<nat>) returns (ret: seq<FeeFrac>)
    ensures ret == ChunkRates(g, Chunking(g, linearization))
  {
    ret := [];
    ghost var cs: seq<seq<nat>> := [];
    for n := 0 to |linearization|
      invariant cs == Chunking(g, linearization[..n])
      invariant ret == ChunkRates(g, cs)
    {
      var i := linearization[n];
      var newChunk := g.FeeRate(i);
      ghost var c := [i];
      assert linearization[..n + 1][..n] == linearization[..n];
      assert Chunking(g, linearization[..n + 1]) == Push(g, cs, c);
      while ret != [] && newChunk.Higher(ret[|ret| - 1])
        invariant ret == ChunkRates(g, cs)
        invariant newChunk == g.SeqRate(c)
        invariant Chunking(g, linearization[..n + 1]) == Push(g, cs, c)
        decreases |ret|
      {
        SeqRateConcat(g, cs[|cs| - 1], c);
        ChunkRatesInit(g, cs);
        PlusCommutes(newChunk, ret[|ret| - 1]);
        newChunk := newChunk.Plus(ret[|ret| - 1]);
        ret := ret[..|ret| - 1];
        cs, c := cs[..|cs| - 1], cs[|cs| - 1] + c;
      }
      assert cs != [] ==> ret[|ret| - 1] == g.SeqRate(cs[|cs| - 1]);
      assert Push(g, cs, c) == cs + [c];
      ChunkRatesAppend(g, cs, c);
      ret := ret + [newChunk];
      cs := cs + [c];
    }
    assert linearization[..|linearization|] == linearization;
  }
}
