/** Why one pass suffices on trees: no order of a group's transactions starts with something better than the group. */
module PostTrees {
  import opened FeeFracs
  import opened Sets
  import opened Graphs
  import opened Diagrams
  import opened Chunkings
  import opened PostGroups
  import opened PostPasses

  // ---- tree shapes ----

  /** c depends on p, with nothing in between. */
  ghost predicate ChildOf(g: Graph, p: nat, c: nat) {
    && c in g.used && p != c && p in g.Ancestors(c)
    && forall x {:trigger Between(g, p, x, c)} :: !Between(g, p, x, c)
  }

  ghost predicate Between(g: Graph, p: nat, x: nat, c: nat) {
    x != p && x != c && x in g.Ancestors(c) && p in g.Ancestors(x)
  }

  ghost predicate OneChild(g: Graph) {
    forall p, c, d {:trigger ChildOf(g, p, c), ChildOf(g, p, d)} :: ChildOf(g, p, c) && ChildOf(g, p, d) ==> c == d
  }

  lemma {:induction false} ChildToward(g: Graph, p: nat, a: nat) returns (c: nat)
    requires g.Consistent() && g.Acyclic() && a in g.used && p in g.Ancestors(a) && p != a
    ensures ChildOf(g, p, c) && c in g.Ancestors(a)
    decreases g.Ancestors(a)
  {
    if x :| Between(g, p, x, a) {
      forall y | y in g.Ancestors(x) ensures y in g.Ancestors(a) {
      }
      assert a !in g.Ancestors(x);
      c := ChildToward(g, p, x);
    } else {
      c := a;
      assert a in g.Ancestors(a);
    }
  }

  /** With at most one child each, the descendants of a transaction form a chain. */
  lemma {:induction false} DescendantsChain(g: Graph, p: nat, a: nat, b: nat)
    requires g.Consistent() && g.Acyclic() && OneChild(g)
    requires a in g.used && b in g.used && p in g.Ancestors(a) && p in g.Ancestors(b)
    ensures a in g.Ancestors(b) || b in g.Ancestors(a)
    decreases g.used - g.Ancestors(p)
  {
    if p != a && p != b {
      var c := ChildToward(g, p, a);
      var d := ChildToward(g, p, b);
      assert c == d;
      assert c in g.Ancestors(c) && c !in g.Ancestors(p);
      forall x | x in g.Ancestors(p) ensures x in g.Ancestors(c) {
      }
      DescendantsChain(g, c, a, b);
    }
  }

  // ---- sets without a better start ----

  /** No topologically valid start of s has a feerate above r. */
  ghost predicate NoneAbove(g: Graph, s: set<nat>, r: FeeFrac) {
    forall x: set<nat> {:trigger g.Topological(x, s)} :: g.Topological(x, s) ==> Value(r.fee, r.size, g.SetRate(x)) <= 0
  }

  lemma {:induction false} NoneAboveUnion(g: Graph, a: set<nat>, b: set<nat>, r: FeeFrac)
    requires NoneAbove(g, a, r) && NoneAbove(g, b, r) && a !! b
    ensures NoneAbove(g, a + b, r)
  {
    forall x: set<nat> | g.Topological(x, a + b) ensures Value(r.fee, r.size, g.SetRate(x)) <= 0 {
      assert g.Topological(x * a, a) && g.Topological(x * b, b);
      assert x * a + x * b == x;
      SetRateUnion(g, x * a, x * b);
      ValuePlus(r.fee, r.size, g.SetRate(x * a), g.SetRate(x * b));
    }
  }

  lemma {:induction false} NoneAboveHigher(g: Graph, s: set<nat>, r: FeeFrac, r': FeeFrac)
    requires NoneAbove(g, s, r) && r'.NotLower(r) && r.size > 0 && r'.size > 0 && g.PositiveSizes() && s <= g.used
    requires g.Consistent()
    ensures NoneAbove(g, s, r')
  {
    forall x: set<nat> | g.Topological(x, s) ensures Value(r'.fee, r'.size, g.SetRate(x)) <= 0 {
      if x == {} {
        SetRateEmpty(g);
      } else {
        SetRateSize(g, x);
        HigherIsValue(g.SetRate(x), r);
        HigherIsValue(g.SetRate(x), r');
        NotLowerTransitive(r', r, g.SetRate(x));
      }
    }
  }

  ghost function Final(c: seq<nat>): nat
    requires c != []
  {
    c[|c| - 1]
  }

  /** The last transaction of c depends on all of c, and no start of c is better than c. */
  ghost predicate Rooted(g: Graph, c: seq<nat>) {
    && c != [] && (forall x :: x in Elements(c) ==> x in g.Ancestors(Final(c)))
    && NoneAbove(g, Elements(c), g.SeqRate(c))
  }

  /** Without its last transaction, no start of group k is better than the group before it. */
  ghost predicate RestBelow(g: Graph, gs: seq<seq<nat>>, k: nat)
    requires 0 < k < |gs| && gs[k] != []
  {
    NoneAbove(g, Elements(gs[k]) - {Final(gs[k])}, g.SeqRate(gs[k - 1]))
  }

  ghost predicate Trees(g: Graph, gs: seq<seq<nat>>, k: nat) {
    && (forall i :: 0 <= i < |gs| ==> Rooted(g, gs[i]))
    && (0 < k < |gs| ==> RestBelow(g, gs, k))
  }

  // ---- merging and swapping keep the trees ----

  /** A group that depends on a rooted group before it depends on all of it. */
  lemma {:induction false} DependsOnAll(g: Graph, p: seq<nat>, c: seq<nat>)
    requires g.Consistent() && g.Acyclic() && OneChild(g) && Rooted(g, p) && Rooted(g, c)
    requires Elements(p) <= g.used && Elements(c) <= g.used && NoneBefore(g, Elements(p), Elements(c))
    requires DepsOf(g, c) * Elements(p) != {}
    ensures forall x :: x in Elements(p) ==> x in g.Ancestors(Final(c))
  {
    var y :| y in DepsOf(g, c) * Elements(p);
    var i :| i in c && y in g.Ancestors(i);
    var s, t := Final(p), Final(c);
    assert i in Elements(c) && s in Elements(p) && t in Elements(c);
    assert y in g.Ancestors(t) && y in g.Ancestors(s);
    DescendantsChain(g, y, s, t);
    assert t !in g.Ancestors(s);
  }

  lemma {:induction false} MergeRooted(g: Graph, p: seq<nat>, c: seq<nat>)
    requires g.Consistent() && g.Acyclic() && OneChild(g) && Rooted(g, p) && Rooted(g, c)
    requires Sized(g, p) && Sized(g, c) && NoneBefore(g, Elements(p), Elements(c)) && Distinct(p + c)
    requires DepsOf(g, c) * Elements(p) != {} && g.SeqRate(c).Higher(g.SeqRate(p))
    requires NoneAbove(g, Elements(c) - {Final(c)}, g.SeqRate(p))
    ensures Rooted(g, p + c) && Final(p + c) == Final(c)
    ensures NoneAbove(g, Elements(p + c) - {Final(c)}, g.SeqRate(p))
  {
    var m, t := p + c, Final(c);
    DependsOnAll(g, p, c);
    ElementsConcat(p, c);
    DistinctConcat(p, c);
    assert t in Elements(c);
    NoneAboveUnion(g, Elements(p), Elements(c) - {t}, g.SeqRate(p));
    assert Elements(p) + (Elements(c) - {t}) == Elements(m) - {t};
    SeqRateConcat(g, p, c);
    SeqRateSize(g, p);
    SeqRateSize(g, c);
    Mediant(g.SeqRate(c), g.SeqRate(p));
    PlusCommutes(g.SeqRate(p), g.SeqRate(c));
    var r := g.SeqRate(m);
    NoneAboveHigher(g, Elements(m) - {t}, g.SeqRate(p), r);
    WholeOrNone(g, m, t, r);
  }

  lemma {:induction false} WholeOrNone(g: Graph, m: seq<nat>, t: nat, r: FeeFrac)
    requires Distinct(m) && r == g.SeqRate(m) && NoneAbove(g, Elements(m) - {t}, r)
    requires forall x :: x in Elements(m) ==> x in g.Ancestors(t)
    ensures NoneAbove(g, Elements(m), r)
  {
    forall x: set<nat> | g.Topological(x, Elements(m)) ensures Value(r.fee, r.size, g.SetRate(x)) <= 0 {
      if t in x {
        assert x == Elements(m);
        SeqRateIsSetRate(g, m);
        HigherIsValue(r, r);
      } else {
        assert g.Topological(x, Elements(m) - {t});
      }
    }
  }

  lemma {:induction false} PairFacts(g: Graph, gs: seq<seq<nat>>, k: nat)
    requires 0 < k < |gs| && Grouped(g, gs, k)
    ensures Sized(g, gs[k - 1]) && Sized(g, gs[k]) && Distinct(gs[k - 1] + gs[k])
    ensures NoneBefore(g, Elements(gs[k - 1]), Elements(gs[k]))
    ensures g.SeqRate(gs[k - 1]).size > 0
  {
    PairSized(g, gs, k);
    AroundPair(gs, k);
    var x, m, y := Flatten(gs[..k - 1]), gs[k - 1] + gs[k], Flatten(gs[k + 1..]);
    DistinctConcat(x + m, y);
    DistinctConcat(x, m);
    InOrderConcat(g, x + m, y);
    InOrderConcat(g, x, m);
    InOrderConcat(g, gs[k - 1], gs[k]);
  }

  /** What is below group k - 1 is below group k - 2. */
  lemma {:induction false} RaiseBound(g: Graph, gs: seq<seq<nat>>, k: nat, s: set<nat>)
    requires 1 < k < |gs| && Grouped(g, gs, k) && s <= g.used && NoneAbove(g, s, g.SeqRate(gs[k - 1]))
    ensures NoneAbove(g, s, g.SeqRate(gs[k - 2]))
  {
    PairSized(g, gs, k);
    RatesPositive(g, gs);
    var rs := ChunkRates(g, gs);
    assert rs[k - 2] == g.SeqRate(gs[k - 2]) && rs[k - 1] == g.SeqRate(gs[k - 1]);
    assert Falls(rs, k - 1);
    NoneAboveHigher(g, s, g.SeqRate(gs[k - 1]), g.SeqRate(gs[k - 2]));
  }

  lemma {:induction false} MergeTrees(g: Graph, gs: seq<seq<nat>>, k: nat)
    requires 0 < k < |gs| && Grouped(g, gs, k) && OneChild(g) && Trees(g, gs, k)
    requires g.SeqRate(gs[k]).Higher(g.SeqRate(gs[k - 1])) && DepsOf(g, gs[k]) * Elements(gs[k - 1]) != {}
    ensures Trees(g, MergeAt(gs, k), k - 1)
  {
    var p, c, gs' := gs[k - 1], gs[k], MergeAt(gs, k);
    PairFacts(g, gs, k);
    assert Rooted(g, p) && Rooted(g, c);
    MergeRooted(g, p, c);
    forall i | 0 <= i < |gs'| ensures Rooted(g, gs'[i]) {
      MergeIndex(gs, k, i);
    }
    MergeIndex(gs, k, k - 1);
    if k > 1 {
      MergeIndex(gs, k, k - 2);
      ElementsConcat(p, c);
      RaiseBound(g, gs, k, Elements(p + c) - {Final(c)});
    }
  }

  lemma {:induction false} SwapTrees(g: Graph, gs: seq<seq<nat>>, k: nat)
    requires 0 < k < |gs| && Grouped(g, gs, k) && Trees(g, gs, k)
    ensures Trees(g, SwapAt(gs, k), k - 1)
  {
    var gs' := SwapAt(gs, k);
    PairSized(g, gs, k);
    assert Rooted(g, gs[k]);
    forall i | 0 <= i < |gs'| ensures Rooted(g, gs'[i]) {
      SwapIndex(gs, k, i);
    }
    SwapIndex(gs, k, k - 1);
    if k > 1 {
      SwapIndex(gs, k, k - 2);
      RaiseBound(g, gs, k, Elements(gs[k]) - {Final(gs[k])});
    }
  }

  lemma {:induction false} SettledTrees(g: Graph, gs: seq<seq<nat>>, k: nat)
    requires k < |gs| && Grouped(g, gs, k) && OneChild(g) && Trees(g, gs, k)
    ensures Trees(g, Settled(g, gs, k), |Settled(g, gs, k)|)
    decreases k
  {
    if k == 0 || !g.SeqRate(gs[k]).Higher(g.SeqRate(gs[k - 1])) {
    } else if DepsOf(g, gs[k]) * Elements(gs[k - 1]) != {} {
      MergeGrouped(g, gs, k);
      MergeTrees(g, gs, k);
      SettledTrees(g, MergeAt(gs, k), k - 1);
    } else {
      SwapGrouped(g, gs, k);
      SwapTrees(g, gs, k);
      SettledTrees(g, SwapAt(gs, k), k - 1);
    }
  }

  lemma {:induction false} AppendTrees(g: Graph, gs: seq<seq<nat>>, idx: nat)
    requires g.Consistent() && idx in g.used && Trees(g, gs, |gs|)
    ensures Trees(g, gs + [[idx]], |gs|)
  {
    var c, gs' := [idx], gs + [[idx]];
    assert Elements(c) == {idx};
    forall x: set<nat> | g.Topological(x, {}) ensures x == {} {
    }
    SetRateEmpty(g);
    assert NoneAbove(g, {}, g.SeqRate(c));
    assert {idx} - {idx} == {};
    WholeOrNone(g, c, idx, g.SeqRate(c));
    assert Rooted(g, c);
    forall i | 0 <= i < |gs'| ensures Rooted(g, gs'[i]) {
      if i < |gs| {
        assert gs'[i] == gs[i];
      }
    }
    if |gs| > 0 {
      assert NoneAbove(g, {}, g.SeqRate(gs'[|gs| - 1]));
    }
  }

  lemma {:induction false} PassTrees(g: Graph, lin: seq<nat>)
    requires Ordered(g, lin) && OneChild(g)
    ensures Trees(g, Pass(g, lin), |Pass(g, lin)|)
  {
    if lin != [] {
      var n, idx := |lin| - 1, lin[|lin| - 1];
      var init, gs := lin[..n], Pass(g, lin[..n]);
      OrderedPrefix(g, lin, n);
      PassTrees(g, init);
      PassGrouped(g, init);
      assert lin == init + [idx];
      AppendPass(g, gs, init, idx);
      assert idx in Elements(lin);
      AppendTrees(g, gs, idx);
      SettledTrees(g, gs + [[idx]], |gs|);
    }
  }

  // ---- sorted groups without better starts are optimal ----

  /** A start of s that is no better than the whole is worth no more than the whole, or nothing. */
  lemma {:induction false} StartValue(g: Graph, p: int, q: int, c: seq<nat>, x: set<nat>)
    requires q > 0 && g.Consistent() && Sized(g, c) && Distinct(c) && c != []
    requires NoneAbove(g, Elements(c), g.SeqRate(c)) && g.Topological(x, Elements(c))
    ensures Value(p, q, g.SetRate(x)) <= Max(0, Value(p, q, g.SeqRate(c)))
  {
    if x == {} {
      SetRateEmpty(g);
    } else {
      SeqRateIsSetRate(g, c);
      SetRateSize(g, x);
      SetRateMonotone(g, x, Elements(c));
      HigherIsValue(g.SetRate(x), g.SeqRate(c));
      PartValue(p, q, g.SetRate(x), g.SeqRate(c));
    }
  }

  lemma {:induction false} StartBelowPeak(g: Graph, p: int, q: int, gs: seq<seq<nat>>, x: set<nat>)
    requires q > 0 && g.Consistent() && Sized(g, Flatten(gs)) && Distinct(Flatten(gs))
    requires forall i :: 0 <= i < |gs| ==> Rooted(g, gs[i])
    requires NonIncreasing(ChunkRates(g, gs)) && Positive(ChunkRates(g, gs))
    requires g.Topological(x, Elements(Flatten(gs)))
    ensures Value(p, q, g.SetRate(x)) <= Peak(p, q, ChunkRates(g, gs))
  {
    if gs == [] {
      assert x == {};
      SetRateEmpty(g);
    } else {
      var c, rest := gs[0], gs[1..];
      var rs, u, v := ChunkRates(g, gs), x * Elements(c), x * Elements(Flatten(rest));
      ElementsConcat(c, Flatten(rest));
      DistinctConcat(c, Flatten(rest));
      NonIncreasingTail(rs);
      assert rs[1..] == ChunkRates(g, rest);
      forall i | 0 <= i < |rest| ensures Rooted(g, rest[i]) {
        assert rest[i] == gs[i + 1];
      }
      assert g.Topological(u, Elements(c)) && g.Topological(v, Elements(Flatten(rest)));
      StartBelowPeak(g, p, q, rest, v);
      assert Rooted(g, gs[0]);
      StartValue(g, p, q, c, u);
      assert u + v == x;
      SetRateUnion(g, u, v);
      ValuePlus(p, q, g.SetRate(u), g.SetRate(v));
      assert rs[0] == g.SeqRate(c);
      if Value(p, q, rs[0]) <= 0 {
        AllLossesAfterFirst(p, q, rs);
      }
    }
  }

  /** With single children only, nothing beats the order a pass from the front gives. */
  lemma {:induction false} PassOptimal(g: Graph, lin: seq<nat>, other: seq<nat>)
    requires Ordered(g, lin) && OneChild(g) && g.IsLinearization(Elements(lin), other)
    ensures Outprices(Rates(g, Flatten(Pass(g, lin))), Rates(g, other))
  {
    var gs := Pass(g, lin);
    PassGrouped(g, lin);
    PassTrees(g, lin);
    RatesPositive(g, gs);
    var rs := ChunkRates(g, gs);
    assert NonIncreasing(rs);
    forall i | 0 <= i < |gs| ensures Tight(g, gs[i]) {
      assert GoodGroup(g, gs[i]);
    }
    forall p: int, q: int | q > 0 ensures Peak(p, q, Rates(g, Flatten(gs))) >= Peak(p, q, Rates(g, other)) {
      var n := PeakAttained(p, q, Rates(g, other));
      assert Rates(g, other)[..n] == Rates(g, other[..n]);
      RatesSum(g, other[..n]);
      SeqRateIsSetRate(g, other[..n]);
      PrefixTopological(g, Elements(lin), other, n);
      StartBelowPeak(g, p, q, gs, Elements(other[..n]));
      ChunkPeak(g, p, q, gs);
    }
  }
}
