/** The contents of a dependency graph: per position a feerate and the sets of all ancestors and all
    descendants, each including the position itself. The algorithms read a graph through this value;
    class DepGraph is the object that edits it. */
module Graphs {
  import opened FeeFracs
  import opened Sets

  datatype Entry = Entry(feerate: FeeFrac, ancestors: set<nat>, descendants: set<nat>)

  datatype Graph = Graph(entries: seq<Entry>, used: set<nat>) {

    function FeeRate(i: nat): FeeFrac {
      if i < |entries| then entries[i].feerate else Zero()
    }

    function Ancestors(i: nat): set<nat> {
      if i < |entries| then entries[i].ancestors else {}
    }

    function Descendants(i: nat): set<nat> {
      if i < |entries| then entries[i].descendants else {}
    }

    /** Ancestor and descendant sets describe one reflexive, transitive relation on the used positions. */
    ghost predicate Consistent() {
      && (forall i :: i in used ==> i < |entries| && i in Ancestors(i))
      && (forall i, j {:trigger j in Ancestors(i)} :: i in used && j in Ancestors(i) ==> j in used)
      && (forall i, j {:trigger j in Descendants(i)} :: i in used && j in Descendants(i) ==> j in used)
      && (forall i, j {:trigger i in Descendants(j)} ::
            i in used && j in used ==> (j in Ancestors(i) <==> i in Descendants(j)))
      && (forall i, j, k {:trigger j in Ancestors(i), k in Ancestors(j)} ::
            i in used && j in Ancestors(i) && k in Ancestors(j) ==> k in Ancestors(i))
    }

    ghost predicate Acyclic() {
      forall i, j {:trigger j in Ancestors(i), i in Ancestors(j)} ::
        i in used && j in Ancestors(i) && i in Ancestors(j) ==> i == j
    }

    ghost predicate PositiveSizes() {
      forall i :: i in used ==> FeeRate(i).size > 0
    }

    /** What the linearization algorithms expect of their input. */
    ghost predicate Valid() {
      Consistent() && Acyclic() && PositiveSizes()
    }

    /** Total fee and size of a set. */
    function SetRate(elems: set<nat>): FeeFrac {
      SumBelow(elems, |entries|)
    }

    /** Total fee and size of the members of a set below n. */
    function SumBelow(elems: set<nat>, n: nat): FeeFrac {
      if n == 0 then Zero()
      else if n - 1 in elems then SumBelow(elems, n - 1).Plus(FeeRate(n - 1))
      else SumBelow(elems, n - 1)
    }

    /** Total fee and size of a sequence. */
    function SeqRate(s: seq<nat>): FeeFrac {
      if s == [] then Zero()
      else if |s| == 1 then FeeRate(s[0])
      else FeeRate(s[0]).Plus(SeqRate(s[1..]))
    }

    /** part is a subset of todo that contains every todo-ancestor of its members. */
    ghost predicate Topological(part: set<nat>, todo: set<nat>) {
      && part <= todo
      && forall i, j {:trigger j in Ancestors(i)} :: i in part && j in Ancestors(i) && j in todo ==> j in part
    }

    /** lin lists todo, every element after its ancestors. */
    ghost predicate IsLinearization(todo: set<nat>, lin: seq<nat>) {
      && Distinct(lin)
      && Elements(lin) == todo
      && InOrder(lin)
    }

    ghost predicate InOrder(lin: seq<nat>) {
      forall i, j :: 0 <= i < j < |lin| ==> lin[j] !in Ancestors(lin[i])
    }
  }

  // ---- sums ----

  lemma {:induction false} SumBelowUnion(g: Graph, a: set<nat>, b: set<nat>, n: nat)
    requires a !! b
    ensures g.SumBelow(a + b, n) == g.SumBelow(a, n).Plus(g.SumBelow(b, n))
  {
    if n > 0 {
      SumBelowUnion(g, a, b, n - 1);
    }
  }

  lemma {:induction false} SumBelowNone(g: Graph, s: set<nat>, n: nat)
    requires forall i :: i in s ==> i >= n
    ensures g.SumBelow(s, n) == Zero()
  {
    if n > 0 {
      SumBelowNone(g, s, n - 1);
    }
  }

  lemma {:induction false} SumBelowOne(g: Graph, x: nat, n: nat)
    ensures g.SumBelow({x}, n) == if x < n then g.FeeRate(x) else Zero()
  {
    if x >= n {
      SumBelowNone(g, {x}, n);
    } else if x == n - 1 {
      SumBelowNone(g, {x}, n - 1);
      PlusZero(g.FeeRate(x));
    } else {
      SumBelowOne(g, x, n - 1);
    }
  }

  lemma {:induction false} SetRateSingleton(g: Graph, x: nat)
    ensures g.SetRate({x}) == g.FeeRate(x)
  {
    SumBelowOne(g, x, |g.entries|);
  }

  lemma {:induction false} SetRateEmpty(g: Graph)
    ensures g.SetRate({}) == Zero()
  {
    SumBelowNone(g, {}, |g.entries|);
  }

  lemma {:induction false} SetRateUnion(g: Graph, a: set<nat>, b: set<nat>)
    requires a !! b
    ensures g.SetRate(a + b) == g.SetRate(a).Plus(g.SetRate(b))
  {
    SumBelowUnion(g, a, b, |g.entries|);
  }

  lemma {:induction false} SetRateRemove(g: Graph, s: set<nat>, x: nat)
    requires x in s
    ensures g.SetRate(s) == g.FeeRate(x).Plus(g.SetRate(s - {x}))
  {
    SetRateUnion(g, {x}, s - {x});
    SetRateSingleton(g, x);
    assert {x} + (s - {x}) == s;
  }

  lemma {:induction false} SetRateSplit(g: Graph, whole: set<nat>, part: set<nat>)
    ensures g.SetRate(whole) == g.SetRate(whole * part).Plus(g.SetRate(whole - part))
  {
    assert whole == whole * part + (whole - part);
    SetRateUnion(g, whole * part, whole - part);
  }

  lemma {:induction false} SetRateSize(g: Graph, s: set<nat>)
    requires g.PositiveSizes() && s <= g.used
    ensures s == {} ==> g.SetRate(s) == Zero()
    ensures s != {} ==> g.SetRate(s).size > 0
    decreases s
  {
    if s == {} {
      SetRateEmpty(g);
    } else {
      var x :| x in s;
      SetRateSize(g, s - {x});
      SetRateRemove(g, s, x);
    }
  }

  lemma {:induction false} SetRateMonotone(g: Graph, part: set<nat>, whole: set<nat>)
    requires g.PositiveSizes() && part <= whole <= g.used
    ensures g.SetRate(part).size <= g.SetRate(whole).size
    ensures part != whole ==> g.SetRate(part).size < g.SetRate(whole).size
  {
    SetRateSplit(g, whole, part);
    assert whole * part == part;
    SetRateSize(g, whole - part);
    assert part + (whole - part) == whole;
  }

  lemma {:induction false} SeqRateSingleton(g: Graph, s: seq<nat>)
    requires |s| == 1
    ensures g.SeqRate(s) == g.FeeRate(s[0]) && Elements(s) == {s[0]}
  {
  }

  lemma {:induction false} SeqRateHead(g: Graph, s: seq<nat>)
    requires s != []
    ensures g.SeqRate(s) == g.FeeRate(s[0]).Plus(g.SeqRate(s[1..]))
  {
    if |s| == 1 {
      var rest := s[1..];
      assert g.SeqRate(rest) == Zero();
      PlusZero(g.FeeRate(s[0]));
    }
  }

  lemma {:induction false} SeqRateConcat(g: Graph, a: seq<nat>, b: seq<nat>)
    ensures g.SeqRate(a + b) == g.SeqRate(a).Plus(g.SeqRate(b))
  {
    if a == [] {
      assert a + b == b;
      PlusZero(g.SeqRate(b));
    } else {
      assert (a + b)[1..] == a[1..] + b;
      SeqRateConcat(g, a[1..], b);
      SeqRateHead(g, a);
      SeqRateHead(g, a + b);
      PlusAssociates(g.FeeRate(a[0]), g.SeqRate(a[1..]), g.SeqRate(b));
    }
  }

  lemma {:induction false} SeqRateIsSetRate(g: Graph, s: seq<nat>)
    requires Distinct(s)
    ensures g.SeqRate(s) == g.SetRate(Elements(s))
  {
    if s == [] {
      assert Elements(s) == {};
      SetRateEmpty(g);
    } else {
      DistinctTail(s);
      SeqRateIsSetRate(g, s[1..]);
      SeqRateHead(g, s);
      SetRateRemove(g, Elements(s), s[0]);
    }
  }

  lemma {:induction false} SeqRateSize(g: Graph, s: seq<nat>)
    requires g.PositiveSizes() && Elements(s) <= g.used
    ensures s == [] ==> g.SeqRate(s) == Zero()
    ensures s != [] ==> g.SeqRate(s).size > 0
  {
    if s != [] {
      assert s[0] in Elements(s);
      assert Elements(s[1..]) <= Elements(s);
      SeqRateSize(g, s[1..]);
      SeqRateHead(g, s);
    }
  }

  // ---- topological sets ----

  lemma {:induction false} PrefixTopological(g: Graph, todo: set<nat>, lin: seq<nat>, k: nat)
    requires g.Consistent() && todo <= g.used
    requires g.IsLinearization(todo, lin) && k <= |lin|
    ensures g.Topological(Elements(lin[..k]), todo)
  {
    forall i, x | i in Elements(lin[..k]) && x in g.Ancestors(i) * todo
      ensures x in Elements(lin[..k])
    {
      var a :| 0 <= a < k && lin[a] == i;
      assert x in Elements(lin);
      var b :| 0 <= b < |lin| && lin[b] == x;
      assert b <= a;
      assert lin[..k][b] == x;
    }
  }

  lemma {:induction false} TopologicalMeet(g: Graph, a: set<nat>, b: set<nat>, todo: set<nat>)
    requires g.Topological(a, todo) && g.Topological(b, todo)
    ensures g.Topological(a * b, todo)
    ensures g.Topological(a + b, todo)
  {
  }

  /** Taking a topological set away leaves a sequence in which the rest is still linearized. */
  lemma {:induction false} FilterLinearization(g: Graph, todo: set<nat>, lin: seq<nat>, keep: set<nat>)
    requires g.IsLinearization(todo, lin)
    ensures g.IsLinearization(todo * keep, Filter(lin, keep))
  {
    FilterDistinct(lin, keep);
    FilterOrder(g, lin, keep);
  }

  lemma {:induction false} FilterOrder(g: Graph, lin: seq<nat>, keep: set<nat>)
    requires g.InOrder(lin)
    ensures g.InOrder(Filter(lin, keep))
  {
    if lin != [] {
      FilterOrder(g, lin[1..], keep);
      var r, rest := Filter(lin, keep), Filter(lin[1..], keep);
      if lin[0] in keep {
        assert r == [lin[0]] + rest;
        forall j | 0 < j < |r| ensures r[j] !in g.Ancestors(r[0]) {
          assert r[j] == rest[j - 1] && rest[j - 1] in Elements(rest);
          assert r[j] in Elements(lin[1..]);
          var k :| 0 <= k < |lin[1..]| && lin[1..][k] == r[j];
          assert lin[k + 1] == r[j];
        }
        forall i, j | 0 < i < j < |r| ensures r[j] !in g.Ancestors(r[i]) {
          assert r[j] == rest[j - 1] && r[i] == rest[i - 1];
        }
      }
    }
  }

  /** A topological set followed by a linearization of what remains linearizes the whole. */
  lemma {:induction false} ConcatLinearization(g: Graph, todo: set<nat>, part: set<nat>, a: seq<nat>, b: seq<nat>)
    requires g.Topological(part, todo)
    requires g.IsLinearization(part, a)
    requires g.IsLinearization(todo - part, b)
    ensures g.IsLinearization(todo, a + b)
  {
    DistinctConcat(a, b);
    ElementsConcat(a, b);
    var lin := a + b;
    forall i, j | 0 <= i < j < |lin| ensures lin[j] !in g.Ancestors(lin[i]) {
      if i < |a| <= j {
        assert a[i] in Elements(a) && b[j - |a|] in Elements(b);
      }
    }
  }
}
