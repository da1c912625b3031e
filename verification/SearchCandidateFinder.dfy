/** The candidate search run on a copy of the graph reordered by decreasing feerate. */
module SearchFinders {
  import opened FeeFracs
  import opened Sets
  import opened Graphs
  import opened DepGraphs
  import opened LinearizationChunkings
  import opened Searching
  import opened Radix

  // ---- sorting by feerate ----

  /** Higher feerate first, then smaller size, then lower index. */
  predicate Precedes(g: Graph, a: nat, b: nat) {
    g.FeeRate(a).Better(g.FeeRate(b)) || (!g.FeeRate(b).Better(g.FeeRate(a)) && a < b)
  }

  ghost predicate InFeerateOrder(g: Graph, s: seq<nat>) {
    forall i, j :: 0 <= i < j < |s| ==> Precedes(g, s[i], s[j])
  }

  lemma {:induction false} PrecedesTransitive(g: Graph, a: nat, b: nat, c: nat)
    requires g.PositiveSizes() && a in g.used && b in g.used && c in g.used
    requires Precedes(g, a, b) && Precedes(g, b, c)
    ensures Precedes(g, a, c)
  {
    var ra, rb, rc := g.FeeRate(a), g.FeeRate(b), g.FeeRate(c);
    NotBetterTransitive(rc, rb, ra);
    if !ra.Better(rc) {
      NotBetterTransitive(ra, rc, rb);
      NotBetterTransitive(rb, ra, rc);
    }
  }

  lemma {:induction false} PrecedesTotal(g: Graph, a: nat, b: nat)
    requires a != b
    ensures Precedes(g, a, b) || Precedes(g, b, a)
  {
  }

  /** s with x inserted where it belongs. */
  method InsertInOrder(g: Graph, s: seq<nat>, x: nat) returns (r: seq<nat>)
    requires g.PositiveSizes() && x in g.used && Elements(s) <= g.used && x !in s
    requires InFeerateOrder(g, s)
    ensures InFeerateOrder(g, r) && Elements(r) == Elements(s) + {x} && |r| == |s| + 1
  {
    var k := 0;
    while k < |s| && Precedes(g, s[k], x)
      invariant 0 <= k <= |s|
      invariant k > 0 ==> Precedes(g, s[k - 1], x)
    {
      k := k + 1;
    }
    r := s[..k] + [x] + s[k..];
    InsertedInOrder(g, s, x, k);
  }

  lemma {:induction false} InsertedInOrder(g: Graph, s: seq<nat>, x: nat, k: nat)
    requires g.PositiveSizes() && x in g.used && Elements(s) <= g.used && x !in s
    requires InFeerateOrder(g, s) && k <= |s|
    requires k > 0 ==> Precedes(g, s[k - 1], x)
    requires k < |s| ==> !Precedes(g, s[k], x)
    ensures InFeerateOrder(g, s[..k] + [x] + s[k..])
    ensures Elements(s[..k] + [x] + s[k..]) == Elements(s) + {x}
  {
    var r := s[..k] + [x] + s[k..];
    InsertedElements(s, x, k);
    forall i | 0 <= i < k ensures Precedes(g, s[i], x) {
      if i < k - 1 {
        assert s[i] in Elements(s) && s[k - 1] in Elements(s);
        PrecedesTransitive(g, s[i], s[k - 1], x);
      }
    }
    forall i | k <= i < |s| ensures Precedes(g, x, s[i]) {
      assert s[i] in Elements(s) && s[k] in Elements(s);
      PrecedesTotal(g, x, s[k]);
      if k < i {
        PrecedesTransitive(g, x, s[k], s[i]);
      }
    }
    forall i, j | 0 <= i < j < |r| ensures Precedes(g, r[i], r[j]) {
      assert r[i] == if i < k then s[i] else if i == k then x else s[i - 1];
      assert r[j] == if j < k then s[j] else if j == k then x else s[j - 1];
    }
  }

  lemma {:induction false} InsertedElements(s: seq<nat>, x: nat, k: nat)
    requires k <= |s|
    ensures Elements(s[..k] + [x] + s[k..]) == Elements(s) + {x}
  {
    assert s == s[..k] + s[k..];
    ElementsConcat(s[..k], s[k..]);
    ElementsConcat(s[..k] + [x], s[k..]);
    ElementsConcat(s[..k], [x]);
  }

  /** The used positions in order of decreasing feerate. */
  method SortByFeerate(g: Graph) returns (order: seq<nat>)
    requires g.PositiveSizes()
    ensures InFeerateOrder(g, order) && Elements(order) == g.used && |order| == |g.used|
  {
    order := [];
    var rest := g.used;
    while rest != {}
      invariant rest <= g.used && InFeerateOrder(g, order)
      invariant Elements(order) == g.used - rest && |order| + |rest| == |g.used|
      decreases rest
    {
      var x := First(rest);
      assert x !in Elements(order);
      order := InsertInOrder(g, order, x);
      rest := rest - {x};
    }
  }

  // ---- the two mappings ----

  /** order lists the used positions of g, and mapping gives the index in it of each. */
  ghost predicate Inverse(g: Graph, order: seq<nat>, mapping: seq<nat>) {
    && |mapping| == |g.entries| && Elements(order) == g.used
    && (forall i :: i in g.used ==> i < |mapping| && mapping[i] < |order| && order[mapping[i]] == i)
    && (forall k :: 0 <= k < |order| ==> order[k] in g.used && mapping[order[k]] == k)
  }

  method InvertOrder(g: Graph, order: seq<nat>) returns (mapping: seq<nat>)
    requires g.Consistent() && Elements(order) == g.used && Distinct(order)
    ensures Inverse(g, order, mapping)
  {
    mapping := seq(|g.entries|, _ => 0);
    assert forall k :: 0 <= k < |order| ==> order[k] in Elements(order);
    for n := 0 to |order|
      invariant |mapping| == |g.entries|
      invariant forall k :: 0 <= k < n ==> mapping[order[k]] == k
    {
      mapping := mapping[order[n] := n];
    }
    forall i | i in g.used ensures mapping[i] < |order| && order[mapping[i]] == i {
      var k :| 0 <= k < |order| && order[k] == i;
    }
  }

  lemma {:induction false} OrderDistinct(g: Graph, order: seq<nat>)
    requires InFeerateOrder(g, order)
    ensures Distinct(order)
  {
    forall i, j | 0 <= i < j < |order| ensures order[i] != order[j] {
      assert Precedes(g, order[i], order[j]);
    }
  }

  lemma {:induction false} InverseIsMapping(g: Graph, order: seq<nat>, mapping: seq<nat>)
    requires Inverse(g, order, mapping)
    ensures IsMapping(g, mapping, |order|)
  {
    forall i, j | i in g.used && j in g.used ensures !Clash(mapping, i, j) {
      assert order[mapping[i]] == i && order[mapping[j]] == j;
    }
    if |order| > 0 {
      assert order[|order| - 1] in g.used;
    }
  }

  // ---- what the reordering preserves ----

  /** h is g in feerate order. */
  ghost predicate Reordered(g: Graph, h: Graph, order: seq<nat>, mapping: seq<nat>) {
    && g.Valid() && h.Valid() && SortedByFeerate(h)
    && Inverse(g, order, mapping) && IsMapping(g, mapping, |order|) && Isomorphic(g, h, mapping)
  }

  lemma {:induction false} SortedIsValid(g: Graph, h: Graph, order: seq<nat>, mapping: seq<nat>)
    requires g.Valid() && h.Consistent() && InFeerateOrder(g, order)
    requires Inverse(g, order, mapping) && IsMapping(g, mapping, |order|) && Isomorphic(g, h, mapping)
    ensures Reordered(g, h, order, mapping)
  {
    forall p | p in h.used ensures p < |order| && h.FeeRate(p) == g.FeeRate(order[p]) && order[p] in g.used {
      var i :| i in g.used && mapping[i] == p;
    }
    forall i, j | i in h.used && j in h.Ancestors(i) && i in h.Ancestors(j) ensures i == j {
      assert mapping[order[i]] == i && mapping[order[j]] == j;
      assert SameRelation(g, h, mapping, order[i], order[j]) && SameRelation(g, h, mapping, order[j], order[i]);
      assert order[j] in g.Ancestors(order[i]) && order[i] in g.Ancestors(order[j]);
    }
    forall i, j | i in h.used && j in h.used && i < j ensures h.FeeRate(i).NotLower(h.FeeRate(j)) {
      assert Precedes(g, order[i], order[j]);
    }
  }

  lemma {:induction false} ImageRoundTrip(g: Graph, h: Graph, order: seq<nat>, mapping: seq<nat>, s: set<nat>,
                                          x: set<nat>)
    requires Reordered(g, h, order, mapping) && s <= g.used && x <= h.used
    ensures Image(mapping, s) <= h.used && Image(order, Image(mapping, s)) == s
    ensures (forall p :: p in x ==> p < |order|) && Image(order, x) <= g.used && Image(mapping, Image(order, x)) == x
  {
    forall p | p in x ensures p < |order| && mapping[order[p]] == p && order[p] in g.used {
      var i :| i in g.used && mapping[i] == p;
    }
    assert Image(order, Image(mapping, s)) == s by {
      forall i | i in s ensures i in Image(order, Image(mapping, s)) {
        assert mapping[i] in Image(mapping, s) && order[mapping[i]] == i;
      }
    }
    assert Image(mapping, Image(order, x)) == x by {
      forall p | p in x ensures p in Image(mapping, Image(order, x)) {
        assert order[p] in Image(order, x) && mapping[order[p]] == p;
      }
    }
  }

  lemma {:induction false} ImageRate(g: Graph, h: Graph, order: seq<nat>, mapping: seq<nat>, s: set<nat>)
    requires Reordered(g, h, order, mapping) && s <= g.used
    ensures h.SetRate(Image(mapping, s)) == g.SetRate(s)
    decreases s
  {
    if s == {} {
      SetRateEmpty(g);
      SetRateEmpty(h);
      assert Image(mapping, s) == {};
    } else {
      var i :| i in s;
      ImageRate(g, h, order, mapping, s - {i});
      ImageWithout(g, order, mapping, s, i);
      SetRateRemove(g, s, i);
      SetRateRemove(h, Image(mapping, s), mapping[i]);
    }
  }

  lemma {:induction false} ImageWithout(g: Graph, order: seq<nat>, mapping: seq<nat>, s: set<nat>, i: nat)
    requires Inverse(g, order, mapping) && s <= g.used && i in s
    ensures mapping[i] in Image(mapping, s) && Image(mapping, s - {i}) == Image(mapping, s) - {mapping[i]}
  {
    forall j | j in s - {i} ensures mapping[j] != mapping[i] {
      assert order[mapping[j]] == j && order[mapping[i]] == i;
    }
  }

  lemma {:induction false} ImageTopological(g: Graph, h: Graph, order: seq<nat>, mapping: seq<nat>, s: set<nat>,
                                            todo: set<nat>)
    requires Reordered(g, h, order, mapping) && s <= g.used && todo <= g.used
    ensures g.Topological(s, todo) <==> h.Topological(Image(mapping, s), Image(mapping, todo))
  {
    if g.Topological(s, todo) {
      forall p, r | p in Image(mapping, s) && r in h.Ancestors(p) && r in Image(mapping, todo)
        ensures r in Image(mapping, s)
      {
        var i :| i in s && mapping[i] == p;
        var j :| j in todo && mapping[j] == r;
        assert SameRelation(g, h, mapping, i, j);
      }
    }
    if h.Topological(Image(mapping, s), Image(mapping, todo)) {
      forall i | i in s ensures i in todo {
        assert mapping[i] in Image(mapping, todo);
        var j :| j in todo && mapping[j] == mapping[i];
        assert order[mapping[i]] == i && order[mapping[j]] == j;
      }
      forall i, j | i in s && j in g.Ancestors(i) && j in todo ensures j in s {
        assert SameRelation(g, h, mapping, i, j);
        var k :| k in s && mapping[k] == mapping[j];
        assert order[mapping[k]] == k && order[mapping[j]] == j;
      }
    }
  }

  lemma {:induction false} ImageBest(g: Graph, h: Graph, order: seq<nat>, mapping: seq<nat>, todo: set<nat>,
                                     best: SetInfo)
    requires Reordered(g, h, order, mapping) && todo <= g.used && best.transactions <= g.used
    ensures ValidBest(g, todo, best)
       <==> ValidBest(h, Image(mapping, todo), SetInfo(Image(mapping, best.transactions), best.feerate))
  {
    var s := best.transactions;
    ImageRate(g, h, order, mapping, s);
    ImageTopological(g, h, order, mapping, s, todo);
    if s != {} {
      var i :| i in s;
      assert mapping[i] in Image(mapping, s);
    } else {
      assert Image(mapping, s) == {};
    }
  }

  lemma {:induction false} ImageHighest(g: Graph, h: Graph, order: seq<nat>, mapping: seq<nat>, todo: set<nat>,
                                        best: SetInfo)
    requires Reordered(g, h, order, mapping) && todo <= g.used && ValidBest(g, todo, best)
    requires HighestFeerate(h, Image(mapping, todo), Image(mapping, best.transactions))
    ensures HighestFeerate(g, todo, best.transactions)
  {
    ImageRate(g, h, order, mapping, best.transactions);
    forall x | x != {} && g.Topological(x, todo) ensures g.SetRate(best.transactions).NotLower(g.SetRate(x)) {
      ImageRate(g, h, order, mapping, x);
      ImageTopological(g, h, order, mapping, x, todo);
      var i :| i in x;
      assert mapping[i] in Image(mapping, x);
    }
  }

  class SearchCandidateFinder {
    /** The graph to be linearized. */
    ghost const g: Graph
    /** The original position of each sorted position, and the other way around. */
    var sortedToOriginal: seq<nat>
    var originalToSorted: seq<nat>
    /** The graph with transactions in decreasing feerate order. */
    var sortedDepgraph: Graph
    /** Which transactions are left, in sorted positions. */
    var todo: set<nat>

    ghost predicate Valid()
      reads this
    {
      && Reordered(g, sortedDepgraph, sortedToOriginal, originalToSorted)
      && todo <= sortedDepgraph.used
      && (forall p :: p in todo ==> p < |sortedToOriginal|)
    }

    /** Which transactions are left, in original positions. */
    ghost function Remaining(): set<nat>
      requires Valid()
      reads this
    {
      Image(sortedToOriginal, todo)
    }

    constructor (g: Graph)
      requires g.Valid()
      ensures Valid() && this.g == g && Remaining() == g.used
    {
      this.g := g;
      var order := SortByFeerate(g);
      OrderDistinct(g, order);
      var mapping := InvertOrder(g, order);
      InverseIsMapping(g, order, mapping);
      var sorted := new DepGraph.Remap(g, mapping, |order|, |order|);
      var h := sorted.Value();
      ClosureConsistent(h, sorted.node, sorted.edges, sorted.nodes);
      SortedIsValid(g, h, order, mapping);
      ImageRoundTrip(g, h, order, mapping, g.used, h.used);
      sortedToOriginal, originalToSorted := order, mapping;
      sortedDepgraph := h;
      todo := h.used;
    }

    method MarkDone(done: set<nat>)
      requires Valid() && done <= Remaining()
      modifies this`todo
      ensures Valid() && Remaining() == old(Remaining()) - done
    {
      ghost var before := todo;
      ImageRoundTrip(g, sortedDepgraph, sortedToOriginal, originalToSorted, done, todo);
      todo := todo - Image(originalToSorted, done);
      DoneRemoved(g, sortedToOriginal, originalToSorted, before, done);
    }

    /** Search what remains for a set of highest feerate. */
    method FindCandidateSet(maxIterations: nat, best: SetInfo) returns (r: SetInfo, iterations: nat)
      requires Valid() && Remaining() != {}
      requires best == SetInfo({}, Zero()) || ValidBest(g, Remaining(), best)
      ensures ValidBest(g, Remaining(), r)
      ensures !best.feerate.IsEmpty() ==> Improved(best.feerate, r.feerate)
      ensures iterations <= maxIterations && iterations <= Pow2(|Remaining()| - 1)
      ensures iterations < maxIterations ==> HighestFeerate(g, Remaining(), r.transactions)
    {
      ghost var h, order, mapping := sortedDepgraph, sortedToOriginal, originalToSorted;
      var found;
      found, iterations := SearchSorted(maxIterations, best);
      ImageSize(g, order, mapping, todo);
      ImageRoundTrip(g, h, order, mapping, {}, found.transactions);
      r := SetInfo(Image(sortedToOriginal, found.transactions), found.feerate);
      ImageBest(g, h, order, mapping, Remaining(), r);
      if iterations < maxIterations {
        ImageHighest(g, h, order, mapping, Remaining(), r);
      }
    }

    /** The search in sorted positions. */
    method SearchSorted(maxIterations: nat, best: SetInfo) returns (found: SetInfo, iterations: nat)
      requires Valid() && Remaining() != {}
      requires best == SetInfo({}, Zero()) || ValidBest(g, Remaining(), best)
      ensures ValidBest(sortedDepgraph, todo, found) && Image(originalToSorted, Remaining()) == todo
      ensures !best.feerate.IsEmpty() ==> Improved(best.feerate, found.feerate)
      ensures iterations <= maxIterations && iterations <= Pow2(|todo| - 1) && todo != {}
      ensures iterations < maxIterations ==> HighestFeerate(sortedDepgraph, todo, found.transactions)
    {
      ghost var h, order, mapping := sortedDepgraph, sortedToOriginal, originalToSorted;
      ImageRoundTrip(g, h, order, mapping, best.transactions, todo);
      ImageBest(g, h, order, mapping, Remaining(), best);
      assert todo != {};
      var known := SetInfo(Image(originalToSorted, best.transactions), best.feerate);
      found, iterations := FindCandidate(sortedDepgraph, todo, maxIterations, known);
    }
  }

  lemma {:induction false} ImageSize(g: Graph, order: seq<nat>, mapping: seq<nat>, s: set<nat>)
    requires Inverse(g, order, mapping) && forall p :: p in s ==> p < |order|
    ensures |Image(order, s)| == |s|
  {
    if s != {} {
      var p :| p in s;
      var rest := s - {p};
      ImageSize(g, order, mapping, rest);
      forall r | r in rest ensures order[r] != order[p] {
        assert mapping[order[r]] == r && mapping[order[p]] == p;
      }
      assert Image(order, s) == Image(order, rest) + {order[p]};
    }
  }

  lemma {:induction false} DoneRemoved(g: Graph, order: seq<nat>, mapping: seq<nat>, todo: set<nat>, done: set<nat>)
    requires Inverse(g, order, mapping) && (forall p :: p in todo ==> p < |order|) && done <= g.used
    ensures Image(order, todo - Image(mapping, done)) == Image(order, todo) - done
  {
    forall p | p in todo ensures p in Image(mapping, done) <==> order[p] in done {
      if p in Image(mapping, done) {
        var i :| i in done && mapping[i] == p;
        assert order[mapping[i]] == i;
      }
      if order[p] in done {
        assert mapping[order[p]] == p;
      }
    }
  }
}
