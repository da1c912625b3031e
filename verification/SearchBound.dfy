/** How many families a search can have to look at: no more than a connected set has nonempty topological subsets. */
module SearchBounds {
  import opened Sets
  import opened Graphs
  import opened Components
  import opened Radix

  // ---- sets of sets ----

  lemma {:induction false} FewerByOne<T>(a: set<T>, b: set<T>, x: T)
    requires a <= b && x in b && x !in a
    ensures |a| + 1 <= |b|
  {
    Subset(a, b - {x});
  }

  /** Taking v out of sets that all have it loses none of them. */
  lemma {:induction false} TakeOutSize(b: set<set<nat>>, v: nat)
    requires forall s :: s in b ==> v in s
    ensures |set s | s in b :: s - {v}| == |b|
    decreases |b|
  {
    var out := set s | s in b :: s - {v};
    if b != {} {
      var x :| x in b;
      var rest := b - {x};
      var outRest := set s | s in rest :: s - {v};
      TakeOutSize(rest, v);
      forall s | s in rest ensures s - {v} != x - {v} {
        assert s == (s - {v}) + {v} && x == (x - {v}) + {v};
      }
      assert x - {v} !in outRest;
      assert out == outRest + {x - {v}};
    }
  }

  // ---- topological subsets ----

  ghost function Downsets(g: Graph, x: set<nat>): set<set<nat>> {
    set s | s <= x && g.Topological(s, x)
  }

  /** Those of one more transaction, without it and with it. */
  ghost function WithoutIt(g: Graph, d: set<nat>, v: nat): set<set<nat>> {
    set s | s in Downsets(g, d + {v}) && v !in s
  }

  ghost function WithIt(g: Graph, d: set<nat>, v: nat): set<set<nat>> {
    set s | s in Downsets(g, d + {v}) && v in s
  }

  lemma {:induction false} WithoutItStill(g: Graph, d: set<nat>, v: nat)
    requires v !in d
    ensures WithoutIt(g, d, v) <= Downsets(g, d)
  {
    forall s | s in WithoutIt(g, d, v) ensures s in Downsets(g, d) {
      assert s <= d;
    }
  }

  lemma {:induction false} WithItStill(g: Graph, d: set<nat>, v: nat)
    requires v !in d
    ensures (set s | s in WithIt(g, d, v) :: s - {v}) <= Downsets(g, d)
  {
    forall s | s in WithIt(g, d, v) ensures s - {v} in Downsets(g, d) {
      var x := s - {v};
      assert x <= d;
      forall i, j | i in x && j in g.Ancestors(i) && j in d ensures j in x {
        assert j in d + {v};
      }
    }
  }

  /** A transaction that is related to another one does not double the number of topological subsets. */
  lemma {:induction false} OneRelated(g: Graph, d: set<nat>, v: nat, u: nat)
    requires g.Consistent() && d + {v} <= g.used && v !in d && u in d && u in Neighbours(g, v)
    ensures |Downsets(g, d + {v})| + 1 <= 2 * |Downsets(g, d)|
  {
    var a, b, all := WithoutIt(g, d, v), WithIt(g, d, v), Downsets(g, d);
    var c := set s | s in b :: s - {v};
    WithoutItStill(g, d, v);
    WithItStill(g, d, v);
    TakeOutSize(b, v);
    assert Downsets(g, d + {v}) == a + b && a !! b;
    Subset(a, all);
    Subset(c, all);
    if u in g.Ancestors(v) {
      assert {} in all;
      forall s | s in b ensures s - {v} != {} {
        assert u in s;
        assert u in s - {v};
      }
      FewerByOne(c, all, {});
    } else {
      assert v in g.Ancestors(u);
      assert d in all;
      assert d !in a;
      FewerByOne(a, all, d);
    }
  }

  /** A connected set that is not all of d has a member outside that is related to one inside. */
  lemma {:induction false} NextRelated(g: Graph, c: set<nat>, d: set<nat>) returns (v: nat, u: nat)
    requires g.Consistent() && c <= g.used && Connected(g, c) && d != {} && d < c
    ensures v in c - d && u in d && u in Neighbours(g, v)
  {
    assert !ClosedIn(g, c, d);
    u :| u in d && !(Neighbours(g, u) * c <= d);
    v :| v in Neighbours(g, u) * c && v !in d;
  }

  lemma {:induction false} DownsetsGrow(g: Graph, c: set<nat>, d: set<nat>)
    requires g.Consistent() && c <= g.used && Connected(g, c) && d != {} && d <= c
    requires |Downsets(g, d)| <= Pow2(|d| - 1) + 1
    ensures |Downsets(g, c)| <= Pow2(|c| - 1) + 1
    decreases c - d
  {
    if d != c {
      var v, u := NextRelated(g, c, d);
      OneRelated(g, d, v, u);
      assert |d + {v}| == |d| + 1;
      assert Pow2(|d|) == 2 * Pow2(|d| - 1);
      DownsetsGrow(g, c, d + {v});
    }
  }

  /** A connected set of n has at most 2^(n-1) topological subsets that are not empty. */
  lemma {:induction false} FewDownsets(g: Graph, c: set<nat>)
    requires g.Consistent() && c <= g.used && Connected(g, c) && c != {}
    ensures |Downsets(g, c)| <= Pow2(|c| - 1) + 1
  {
    var x :| x in c;
    forall s | s in Downsets(g, {x}) ensures s in {{}, {x}} {
      assert s == {} || s == {x};
    }
    Subset(Downsets(g, {x}), {{}, {x}});
    assert Pow2(|{x}| - 1) == 1;
    DownsetsGrow(g, c, {x});
  }

  // ---- families ----

  /** The topological sets between inc and inc + und. */
  ghost function Family(g: Graph, todo: set<nat>, inc: set<nat>, und: set<nat>): set<set<nat>> {
    set c | c <= inc + und && inc <= c && g.Topological(c, todo)
  }

  lemma {:induction false} FamilySize(g: Graph, todo: set<nat>, inc: set<nat>, und: set<nat>)
    requires g.Topological(inc, todo)
    ensures |Family(g, todo, inc, und)| >= 1
  {
    Subset({inc}, Family(g, todo, inc, und));
  }

  /** Including some of what is undecided leaves a part of a family. */
  lemma {:induction false} FamilyPart(g: Graph, todo: set<nat>, inc: set<nat>, und: set<nat>, inc': set<nat>,
                                      und': set<nat>)
    requires inc <= inc' && inc' + und' <= inc + und
    ensures |Family(g, todo, inc', und')| <= |Family(g, todo, inc, und)|
  {
    Subset(Family(g, todo, inc', und'), Family(g, todo, inc, und));
  }

  /** The two halves of a split are different parts. */
  lemma {:induction false} FamilySplit(g: Graph, todo: set<nat>, inc: set<nat>, und: set<nat>, inc': set<nat>,
                                       und': set<nat>, und'': set<nat>, t: nat)
    requires inc <= inc' && inc' + und' <= inc + und && t in inc' && und'' <= und && t !in inc + und''
    ensures |Family(g, todo, inc', und')| + |Family(g, todo, inc, und'')| <= |Family(g, todo, inc, und)|
  {
    var a, b := Family(g, todo, inc', und'), Family(g, todo, inc, und'');
    assert a !! b;
    Subset(a + b, Family(g, todo, inc, und));
  }

  /** A component as a whole is undecided at first. */
  lemma {:induction false} ComponentFamily(g: Graph, todo: set<nat>, c: set<nat>)
    requires g.Consistent() && todo <= g.used && c != {} && Connected(g, c) && g.Topological(c, todo)
    ensures |Family(g, todo, {}, c)| <= Pow2(|c| - 1) + 1
  {
    FewDownsets(g, c);
    forall s | s in Family(g, todo, {}, c) ensures s in Downsets(g, c) {
      assert s <= c;
      forall i, j | i in s && j in g.Ancestors(i) && j in c ensures j in s {
        assert j in todo;
      }
    }
    Subset(Family(g, todo, {}, c), Downsets(g, c));
  }

  /** Two parts need no more than the whole. */
  lemma {:induction false} PowParts(a: nat, b: nat)
    requires a > 0
    ensures Pow2(a - 1) + (if b > 0 then Pow2(b - 1) else 0) <= Pow2(a + b - 1)
  {
    if b > 0 {
      PowGrows(2, a - 1, a + b - 2);
      PowGrows(2, b - 1, a + b - 2);
      assert Pow2(a + b - 1) == 2 * Pow2(a + b - 2);
    }
  }
}
