/** Editing a dependency graph that stores only the transitive closure of its dependencies. */
module DepGraphs {
  import opened FeeFracs
  import opened Sets
  import opened Graphs

  // ---- reachability along edges ----

  ghost predicate IsPath(edges: set<(nat, nat)>, path: seq<nat>) {
    path != [] && forall k :: 0 < k < |path| ==> (path[k - 1], path[k]) in edges
  }

  ghost predicate Joins(edges: set<(nat, nat)>, path: seq<nat>, a: nat, b: nat) {
    IsPath(edges, path) && path[0] == a && path[|path| - 1] == b
  }

  /** b can be reached from a by following edges. */
  ghost predicate Reaches(edges: set<(nat, nat)>, a: nat, b: nat) {
    exists path :: Joins(edges, path, a, b)
  }

  lemma {:induction false} ReachesSelf(edges: set<(nat, nat)>, a: nat)
    ensures Reaches(edges, a, a)
  {
    assert Joins(edges, [a], a, a);
  }

  lemma {:induction false} ReachesTransitive(edges: set<(nat, nat)>, a: nat, b: nat, c: nat)
    requires Reaches(edges, a, b) && Reaches(edges, b, c)
    ensures Reaches(edges, a, c)
  {
    var p :| Joins(edges, p, a, b);
    var q :| Joins(edges, q, b, c);
    var r := p + q[1..];
    forall k | 0 < k < |r| ensures (r[k - 1], r[k]) in edges {
      if k < |p| {
        assert (p[k - 1], p[k]) in edges;
      } else {
        var j := k - |p| + 1;
        assert (q[j - 1], q[j]) in edges;
        assert r[k - 1] == q[j - 1];
      }
    }
    assert Joins(edges, r, a, c);
  }

  lemma {:induction false} ReachesEdge(edges: set<(nat, nat)>, a: nat, b: nat)
    requires (a, b) in edges
    ensures Reaches(edges, a, b)
  {
    assert Joins(edges, [a, b], a, b);
  }

  lemma {:induction false} ReachesMore(edges: set<(nat, nat)>, edges': set<(nat, nat)>, a: nat, b: nat)
    requires edges <= edges' && Reaches(edges, a, b)
    ensures Reaches(edges', a, b)
  {
    var p :| Joins(edges, p, a, b);
    assert Joins(edges', p, a, b);
  }

  ghost function EdgesInto(sources: set<nat>, target: nat): set<(nat, nat)> {
    set x | x in sources :: (x, target)
  }

  /** With new edges into one target, a path uses them at most once in effect. */
  lemma {:induction false} PathThroughNewEdges(edges: set<(nat, nat)>, sources: set<nat>, target: nat, path: seq<nat>,
                                               a: nat, b: nat)
    requires Joins(edges + EdgesInto(sources, target), path, a, b)
    ensures Reaches(edges, a, b) || (Reaches(edges, target, b) && exists x :: x in sources && Reaches(edges, a, x))
    decreases |path|
  {
    if |path| == 1 {
      ReachesSelf(edges, a);
    } else {
      var rest := path[1..];
      var a' := rest[0];
      assert Joins(edges + EdgesInto(sources, target), rest, a', b) by {
        forall k | 0 < k < |rest| ensures (rest[k - 1], rest[k]) in edges + EdgesInto(sources, target) {
          assert (path[k], path[k + 1]) in edges + EdgesInto(sources, target);
        }
      }
      PathThroughNewEdges(edges, sources, target, rest, a', b);
      assert (path[0], path[1]) in edges + EdgesInto(sources, target);
      if (a, a') in edges {
        ReachesEdge(edges, a, a');
        if Reaches(edges, a', b) {
          ReachesTransitive(edges, a, a', b);
        } else {
          var x :| x in sources && Reaches(edges, a', x);
          ReachesTransitive(edges, a, a', x);
        }
      } else {
        assert a in sources && a' == target;
        ReachesSelf(edges, a);
      }
    }
  }

  lemma {:induction false} ReachesWithNewEdges(edges: set<(nat, nat)>, sources: set<nat>, target: nat, a: nat, b: nat)
    ensures Reaches(edges + EdgesInto(sources, target), a, b) <==>
            Reaches(edges, a, b) || (Reaches(edges, target, b) && exists x :: x in sources && Reaches(edges, a, x))
  {
    var edges' := edges + EdgesInto(sources, target);
    if Reaches(edges', a, b) {
      var p :| Joins(edges', p, a, b);
      PathThroughNewEdges(edges, sources, target, p, a, b);
    }
    if Reaches(edges, a, b) {
      ReachesMore(edges, edges', a, b);
    }
    if Reaches(edges, target, b) && exists x :: x in sources && Reaches(edges, a, x) {
      var x :| x in sources && Reaches(edges, a, x);
      ReachesMore(edges, edges', a, x);
      ReachesMore(edges, edges', target, b);
      ReachesEdge(edges', x, target);
      ReachesTransitive(edges', a, x, target);
      ReachesTransitive(edges', a, target, b);
    }
  }

  /** Nothing but x itself reaches, or is reached from, a node without edges. */
  lemma {:induction false} ReachesIsolated(edges: set<(nat, nat)>, x: nat, a: nat, b: nat)
    requires forall u, v :: (u, v) in edges ==> u != x && v != x
    requires a == x || b == x
    ensures Reaches(edges, a, b) <==> a == b
  {
    if Reaches(edges, a, b) {
      var p :| Joins(edges, p, a, b);
      if |p| > 1 {
        assert (p[0], p[1]) in edges;
        assert (p[|p| - 2], p[|p| - 1]) in edges;
      }
    }
    if a == b {
      ReachesSelf(edges, a);
    }
  }

  // ---- reduced parents ----

  /** The parents of i that are not ancestors of another proper ancestor of i. */
  ghost function DirectParents(g: Graph, i: nat): set<nat> {
    set r | r in g.Ancestors(i) - {i} && !Shadowed(g, g.Ancestors(i) - {i}, r)
  }

  /** r is an ancestor of some other member of s. */
  ghost predicate Shadowed(g: Graph, s: set<nat>, r: nat) {
    exists x :: x in s && x != r && r in g.Ancestors(x)
  }

  ghost function Unshadowed(g: Graph, all: set<nat>, seen: set<nat>): set<nat> {
    set r | r in all && !Shadowed(g, seen, r)
  }

  /** The reduced parents of i in an acyclic graph. */
  method GetReducedParents(g: Graph, i: nat) returns (parents: set<nat>)
    requires g.Consistent() && g.Acyclic() && i in g.used
    ensures parents == DirectParents(g, i)
  {
    var all := g.Ancestors(i) - {i};
    parents := all;
    var rest := all;
    assert Unshadowed(g, all, {}) == all;
    while rest != {}
      invariant rest <= all
      invariant parents == Unshadowed(g, all, all - rest)
      decreases rest
    {
      var parent := First(rest);
      ghost var seen := all - rest;
      if parent in parents {
        ShadowNext(g, all, seen, parent);
        parents := parents - g.Ancestors(parent);
        parents := parents + {parent};
      } else {
        ShadowedCovers(g, i, all, seen, parent);
      }
      rest := rest - {parent};
      assert all - rest == seen + {parent};
    }
    assert all - {} == all;
  }

  lemma {:induction false} ShadowNext(g: Graph, all: set<nat>, seen: set<nat>, parent: nat)
    requires parent in all && !Shadowed(g, seen, parent)
    ensures Unshadowed(g, all, seen + {parent}) == Unshadowed(g, all, seen) - g.Ancestors(parent) + {parent}
  {
    forall r | r in all
      ensures Shadowed(g, seen + {parent}, r) <==> Shadowed(g, seen, r) || (r != parent && r in g.Ancestors(parent))
    {
      if Shadowed(g, seen, r) {
        var x :| x in seen && x != r && r in g.Ancestors(x);
        assert x in seen + {parent};
      }
    }
  }

  /** What a shadowed parent would remove is already removed by what shadows it. */
  lemma {:induction false} ShadowedCovers(g: Graph, i: nat, all: set<nat>, seen: set<nat>, parent: nat)
    requires g.Consistent() && g.Acyclic() && i in g.used && all == g.Ancestors(i) - {i}
    requires seen <= all && parent in all && Shadowed(g, seen, parent)
    ensures Unshadowed(g, all, seen + {parent}) == Unshadowed(g, all, seen)
  {
    var y :| y in seen && y != parent && parent in g.Ancestors(y);
    forall r | r in all ensures Shadowed(g, seen + {parent}, r) <==> Shadowed(g, seen, r) {
      if r != parent && r in g.Ancestors(parent) {
        assert r in g.Ancestors(y) && y != r;
      }
      if Shadowed(g, seen, r) {
        var x :| x in seen && x != r && r in g.Ancestors(x);
        assert x in seen + {parent};
      }
    }
  }

  /** Every proper ancestor of i is an ancestor of a reduced parent of i. */
  lemma {:induction false} ReducedParentAbove(g: Graph, i: nat, x: nat) returns (r: nat)
    requires g.Consistent() && g.Acyclic() && i in g.used && x in g.Ancestors(i) - {i}
    ensures r in DirectParents(g, i) && x in g.Ancestors(r)
    decreases |g.Ancestors(i) - g.Ancestors(x)|
  {
    var all := g.Ancestors(i) - {i};
    if Shadowed(g, all, x) {
      var y :| y in all && y != x && x in g.Ancestors(y);
      assert y in g.Ancestors(i) - g.Ancestors(x) && y !in g.Ancestors(i) - g.Ancestors(y);
      assert g.Ancestors(i) - g.Ancestors(y) <= g.Ancestors(i) - g.Ancestors(x) - {y};
      FewerLeft(g.Ancestors(i) - g.Ancestors(y), g.Ancestors(i) - g.Ancestors(x), y);
      r := ReducedParentAbove(g, i, y);
    } else {
      r := x;
    }
  }

  lemma {:induction false} FewerLeft(a: set<nat>, b: set<nat>, y: nat)
    requires a <= b - {y} && y in b
    ensures |a| < |b|
  {
    var c := b - {y};
    assert c == a + (c - a);
  }

  /** Ancestors regenerated from a set of parents. */
  ghost function Regenerated(g: Graph, i: nat, parents: set<nat>): set<nat> {
    {i} + set r, x | r in parents && x in g.Ancestors(r) :: x
  }

  /** The reduced parents regenerate all ancestors, and no smaller subset of them does. */
  lemma {:induction false} ReducedParentsMinimal(g: Graph, i: nat, parents: set<nat>)
    requires g.Consistent() && g.Acyclic() && i in g.used && parents <= DirectParents(g, i)
    ensures Regenerated(g, i, parents) == g.Ancestors(i) <==> parents == DirectParents(g, i)
  {
    var all := DirectParents(g, i);
    forall x | x in g.Ancestors(i) ensures x in Regenerated(g, i, all) {
      if x != i {
        var r := ReducedParentAbove(g, i, x);
      }
    }
    assert Regenerated(g, i, all) == g.Ancestors(i);
    if parents != all {
      var r :| r in all && r !in parents;
      assert r !in Regenerated(g, i, parents);
    }
  }

  // ---- the stored sets are reachability ----

  /** Every used position stands for a node; its stored sets are the used positions that reach it
      and that it reaches. Nodes of removed transactions keep their edges. */
  ghost predicate Closure(g: Graph, node: map<nat, nat>, edges: set<(nat, nat)>, nodes: nat) {
    && (forall i :: i in g.used ==> i < |g.entries| && i in node && node[i] < nodes)
    && (forall u, v :: (u, v) in edges ==> u < nodes && v < nodes)
    && (forall i :: i in g.used ==> g.Ancestors(i) <= g.used && g.Descendants(i) <= g.used)
    && (forall i, j {:trigger Linked(g, node, edges, i, j)} :: i in g.used && j in g.used ==>
        Linked(g, node, edges, i, j))
  }

  /** Position j is stored among the ancestors of i, and i among the descendants of j, exactly when
      the node of j reaches the node of i. */
  ghost predicate Linked(g: Graph, node: map<nat, nat>, edges: set<(nat, nat)>, i: nat, j: nat)
    requires i in node && j in node
  {
    && (j in g.Ancestors(i) <==> Reaches(edges, node[j], node[i]))
    && (i in g.Descendants(j) <==> Reaches(edges, node[j], node[i]))
  }

  lemma {:induction false} ClosureConsistent(g: Graph, node: map<nat, nat>, edges: set<(nat, nat)>, nodes: nat)
    requires Closure(g, node, edges, nodes)
    ensures g.Consistent()
  {
    forall i | i in g.used ensures i in g.Ancestors(i) {
      ReachesSelf(edges, node[i]);
      assert Linked(g, node, edges, i, i);
    }
    forall i, j | i in g.used && j in g.used ensures j in g.Ancestors(i) <==> i in g.Descendants(j) {
      assert Linked(g, node, edges, i, j);
    }
    forall i, j, k | i in g.used && j in g.Ancestors(i) && k in g.Ancestors(j) ensures k in g.Ancestors(i) {
      assert Linked(g, node, edges, i, j) && Linked(g, node, edges, j, k) && Linked(g, node, edges, i, k);
      ReachesTransitive(edges, node[k], node[j], node[i]);
    }
  }

  ghost function AncestorsOf(g: Graph, s: set<nat>): set<nat> {
    set p, x | p in s && x in g.Ancestors(p) :: x
  }

  /** What AddDependencies makes of a graph. */
  ghost predicate Extended(g: Graph, g': Graph, parAnc: set<nat>, child: nat) {
    && g'.used == g.used && |g'.entries| == |g.entries|
    && forall i :: 0 <= i < |g.entries| ==>
         g'.entries[i] == Entry(g.entries[i].feerate,
                                g.entries[i].ancestors + (if i in g.Descendants(child) then parAnc else {}),
                                g.entries[i].descendants + (if i in parAnc then g.Descendants(child) else {}))
  }

  /** Reachability with the new dependencies, in terms of the stored sets. */
  lemma {:induction false} ReachesExtended(g: Graph, node: map<nat, nat>, edges: set<(nat, nat)>, nodes: nat,
                        parents: set<nat>, child: nat, parAnc: set<nat>, i: nat, j: nat)
    requires Closure(g, node, edges, nodes) && g.Consistent()
    requires child in g.used && parents <= g.used && i in g.used && j in g.used
    requires parAnc == AncestorsOf(g, parents - g.Ancestors(child)) - g.Ancestors(child)
    ensures Reaches(edges + EdgesInto(set p | p in parents :: node[p], node[child]), node[j], node[i])
       <==> j in g.Ancestors(i) || (i in g.Descendants(child) && j in parAnc)
  {
    var sources := set p | p in parents :: node[p];
    ReachesWithNewEdges(edges, sources, node[child], node[j], node[i]);
    assert Linked(g, node, edges, i, j) && Linked(g, node, edges, i, child);
    if i in g.Descendants(child) && j in parAnc {
      var p :| p in parents - g.Ancestors(child) && j in g.Ancestors(p);
      assert Linked(g, node, edges, p, j);
      assert node[p] in sources && Reaches(edges, node[j], node[p]);
    }
    if i in g.Descendants(child) && exists x :: x in sources && Reaches(edges, node[j], x) {
      var x :| x in sources && Reaches(edges, node[j], x);
      var p :| p in parents && node[p] == x;
      assert Linked(g, node, edges, p, j);
      assert j in g.Ancestors(p);
      assert child in g.Ancestors(i);
      if j !in g.Ancestors(child) {
        assert p in parents - g.Ancestors(child);
        assert j in parAnc;
      }
    }
  }

  lemma {:induction false} LinkedExtended(g: Graph, g': Graph, node: map<nat, nat>, edges: set<(nat, nat)>, nodes: nat,
                       parents: set<nat>, child: nat, parAnc: set<nat>, i: nat, j: nat)
    requires Closure(g, node, edges, nodes) && g.Consistent()
    requires child in g.used && parents <= g.used && i in g.used && j in g.used
    requires parAnc == AncestorsOf(g, parents - g.Ancestors(child)) - g.Ancestors(child)
    requires Extended(g, g', parAnc, child)
    ensures Linked(g', node, edges + EdgesInto(set p | p in parents :: node[p], node[child]), i, j)
  {
    ReachesExtended(g, node, edges, nodes, parents, child, parAnc, i, j);
    assert i in g.Descendants(j) <==> j in g.Ancestors(i);
    assert g'.entries[i].ancestors == g.entries[i].ancestors + (if i in g.Descendants(child) then parAnc else {});
    assert g'.entries[j].descendants == g.entries[j].descendants + (if j in parAnc then g.Descendants(child) else {});
  }

  lemma {:induction false} ExtendedClosure(g: Graph, g': Graph, node: map<nat, nat>, edges: set<(nat, nat)>, nodes: nat,
                        parents: set<nat>, child: nat, parAnc: set<nat>)
    requires Closure(g, node, edges, nodes) && g.Consistent()
    requires child in g.used && parents <= g.used
    requires parAnc == AncestorsOf(g, parents - g.Ancestors(child)) - g.Ancestors(child)
    requires Extended(g, g', parAnc, child)
    ensures Closure(g', node, edges + EdgesInto(set p | p in parents :: node[p], node[child]), nodes)
  {
    var edges' := edges + EdgesInto(set p | p in parents :: node[p], node[child]);
    forall i, j | i in g.used && j in g.used ensures Linked(g', node, edges', i, j) {
      LinkedExtended(g, g', node, edges, nodes, parents, child, parAnc, i, j);
    }
    ExtendedWithin(g, g', parAnc, child);
  }

  lemma {:induction false} ExtendedWithin(g: Graph, g': Graph, parAnc: set<nat>, child: nat)
    requires g.Consistent() && child in g.used && parAnc <= g.used && Extended(g, g', parAnc, child)
    ensures forall i :: i in g.used ==> g'.Ancestors(i) <= g.used && g'.Descendants(i) <= g.used
  {
    forall i, x | i in g.used && x in g'.Ancestors(i) ensures x in g.used {
      assert x in g.Ancestors(i) || x in parAnc;
    }
    forall i, x | i in g.used && x in g'.Descendants(i) ensures x in g.used {
      assert x in g.Descendants(i) || x in g.Descendants(child);
    }
  }

  lemma {:induction false} RemovedClosure(g: Graph, g': Graph, node: map<nat, nat>, edges: set<(nat, nat)>, nodes: nat)
    requires Closure(g, node, edges, nodes)
    requires g'.used <= g.used && forall i :: i in g'.used ==> i < |g'.entries|
    requires forall i :: i in g'.used ==>
      g'.Ancestors(i) == g.Ancestors(i) * g'.used && g'.Descendants(i) == g.Descendants(i) * g'.used
    ensures Closure(g', node, edges, nodes)
  {
    forall i, j | i in g'.used && j in g'.used ensures Linked(g', node, edges, i, j) {
      assert Linked(g, node, edges, i, j);
    }
  }

  lemma {:induction false} AddedClosure(g: Graph, g': Graph, node: map<nat, nat>, edges: set<(nat, nat)>, nodes: nat,
                                        x: nat)
    requires Closure(g, node, edges, nodes)
    requires x !in g.used && g'.used == g.used + {x} && x < |g'.entries|
    requires g'.Ancestors(x) == {x} && g'.Descendants(x) == {x}
    requires forall i :: i in g.used ==>
      i < |g'.entries| && g'.Ancestors(i) == g.Ancestors(i) && g'.Descendants(i) == g.Descendants(i)
    ensures Closure(g', node[x := nodes], edges, nodes + 1)
  {
    var node' := node[x := nodes];
    forall i, j | i in g'.used && j in g'.used ensures Linked(g', node', edges, i, j) {
      if i == x || j == x {
        ReachesIsolated(edges, nodes, node'[j], node'[i]);
      } else {
        assert Linked(g, node, edges, i, j);
      }
    }
  }

  /** To each position in at, add descendants. */
  method AddDescendants(entries: seq<Entry>, at: set<nat>, descendants: set<nat>) returns (r: seq<Entry>)
    requires forall i :: i in at ==> i < |entries|
    ensures |r| == |entries|
    ensures forall i :: 0 <= i < |r| ==>
      r[i] == if i in at then entries[i].(descendants := entries[i].descendants + descendants) else entries[i]
  {
    r := entries;
    var rest := at;
    while rest != {}
      invariant rest <= at && |r| == |entries|
      invariant forall i :: 0 <= i < |r| ==>
        r[i] == if i in at && i !in rest then entries[i].(descendants := entries[i].descendants + descendants)
            else entries[i]
      decreases rest
    {
      var i := First(rest);
      r := r[i := r[i].(descendants := r[i].descendants + descendants)];
      rest := rest - {i};
    }
  }

  /** To each position in at, add ancestors. */
  method AddAncestors(entries: seq<Entry>, at: set<nat>, ancestors: set<nat>) returns (r: seq<Entry>)
    requires forall i :: i in at ==> i < |entries|
    ensures |r| == |entries|
    ensures forall i :: 0 <= i < |r| ==>
      r[i] == if i in at then entries[i].(ancestors := entries[i].ancestors + ancestors) else entries[i]
  {
    r := entries;
    var rest := at;
    while rest != {}
      invariant rest <= at && |r| == |entries|
      invariant forall i :: 0 <= i < |r| ==>
        r[i] == if i in at && i !in rest then entries[i].(ancestors := entries[i].ancestors + ancestors) else entries[i]
      decreases rest
    {
      var i := First(rest);
      r := r[i := r[i].(ancestors := r[i].ancestors + ancestors)];
      rest := rest - {i};
    }
  }

  /** What the child gains by depending on the parents. */
  method NewAncestors(g: Graph, parents: set<nat>, child: nat) returns (parAnc: set<nat>)
    ensures parAnc == AncestorsOf(g, parents - g.Ancestors(child)) - g.Ancestors(child)
  {
    parAnc := {};
    var rest := parents - g.Ancestors(child);
    ghost var seen: set<nat> := {};
    while rest != {}
      invariant seen + rest == parents - g.Ancestors(child)
      invariant parAnc == AncestorsOf(g, seen)
      decreases rest
    {
      var par := First(rest);
      AncestorsOfNext(g, seen, par);
      parAnc := parAnc + g.Ancestors(par);
      rest, seen := rest - {par}, seen + {par};
    }
    assert seen == parents - g.Ancestors(child);
    parAnc := parAnc - g.Ancestors(child);
  }

  /** Give parAnc the descendants of child, and the descendants of child the ancestors parAnc. */
  method ExtendEntries(g: Graph, parAnc: set<nat>, child: nat) returns (entries: seq<Entry>)
    requires g.Consistent() && child in g.used && parAnc <= g.used
    ensures Extended(g, Graph(entries, g.used), parAnc, child) && SameRates(g.used, g, Graph(entries, g.used))
  {
    entries := g.entries;
    if parAnc != {} {
      var chlDes := entries[child].descendants;
      entries := AddDescendants(entries, parAnc, chlDes);
      entries := AddAncestors(entries, chlDes, parAnc);
    }
  }

  /** The entries after adding parents to a child. */
  method DependentEntries(entries: seq<Entry>, used: set<nat>, parents: set<nat>, child: nat, ghost capacity: nat,
                          ghost node: map<nat, nat>, ghost edges: set<(nat, nat)>, ghost nodes: nat)
    returns (r: seq<Entry>)
    requires Closure(Graph(entries, used), node, edges, nodes) && Fits(Graph(entries, used), capacity)
    requires child in used && parents <= used
    ensures Closure(Graph(r, used), node, edges + EdgesInto(set p | p in parents :: node[p], node[child]), nodes)
    ensures Fits(Graph(r, used), capacity) && SameRates(used, Graph(entries, used), Graph(r, used))
  {
    var g := Graph(entries, used);
    ClosureConsistent(g, node, edges, nodes);
    var parAnc := NewAncestors(g, parents, child);
    r := ExtendEntries(g, parAnc, child);
    ExtendedClosure(g, Graph(r, used), node, edges, nodes, parents, child, parAnc);
  }

  /** Use the lowest free position, whose entry gets no relatives but itself. */
  method PlaceTransaction(g: Graph, capacity: nat, feefrac: FeeFrac) returns (newIdx: nat, entries: seq<Entry>)
    requires Fits(g, capacity) && (forall i :: i in g.used ==> i < |g.entries|)
    requires exists i :: 0 <= i < capacity && i !in g.used
    ensures newIdx < capacity && newIdx !in g.used && forall i :: 0 <= i < newIdx ==> i in g.used
    ensures newIdx < |entries| && entries[newIdx] == Entry(feefrac, {newIdx}, {newIdx})
    ensures Fits(Graph(entries, g.used + {newIdx}), capacity)
    ensures forall i :: i in g.used ==> i < |entries| && entries[i] == g.entries[i]
    ensures SameRates(g.used, g, Graph(entries, g.used + {newIdx}))
  {
    var available := Fill(capacity) - g.used;
    assert available != {} by {
      var i :| 0 <= i < capacity && i !in g.used;
      assert i in available;
    }
    newIdx := First(available);
    assert |g.entries| < capacity ==> |g.entries| in available;
    forall i: nat | i < newIdx ensures i in g.used {
      assert i !in available;
    }
    var entry := Entry(feefrac, {newIdx}, {newIdx});
    entries := if newIdx == |g.entries| then g.entries + [entry] else g.entries[newIdx := entry];
  }

  lemma {:induction false} AncestorsOfNext(g: Graph, s: set<nat>, x: nat)
    ensures AncestorsOf(g, s + {x}) == AncestorsOf(g, s) + g.Ancestors(x)
  {
  }

  ghost predicate SameRates(s: set<nat>, g: Graph, g': Graph) {
    forall i :: i in s ==> g.FeeRate(i) == g'.FeeRate(i)
  }

  ghost predicate Fits(g: Graph, capacity: nat) {
    && (forall i :: i in g.used ==> i < capacity)
    && (g.entries != [] ==> |g.entries| - 1 in g.used)
  }

  // ---- remapping ----

  function Image(mapping: seq<nat>, s: set<nat>): set<nat>
    requires forall i :: i in s ==> i < |mapping|
  {
    set i | i in s :: mapping[i]
  }

  /** Different positions are mapped to one. */
  ghost predicate Clash(mapping: seq<nat>, i: nat, j: nat) {
    i < |mapping| && j < |mapping| && i != j && mapping[i] == mapping[j]
  }

  /** mapping gives every used position of g its own new position, the last of them posRange - 1. */
  ghost predicate IsMapping(g: Graph, mapping: seq<nat>, posRange: nat) {
    && |mapping| == |g.entries|
    && (forall i :: i in g.used ==> i < |mapping| && mapping[i] < posRange)
    && (forall i, j {:trigger Clash(mapping, i, j)} :: i in g.used && j in g.used ==> !Clash(mapping, i, j))
    && (posRange > 0 ==> exists i :: i in g.used && mapping[i] == posRange - 1)
  }

  /** h is g with every position i renamed mapping[i]. */
  ghost predicate Isomorphic(g: Graph, h: Graph, mapping: seq<nat>)
    requires forall i :: i in g.used ==> i < |mapping|
  {
    && h.used == Image(mapping, g.used)
    && (forall i :: i in g.used ==> h.FeeRate(mapping[i]) == g.FeeRate(i))
    && (forall i, j {:trigger SameRelation(g, h, mapping, i, j)} :: i in g.used && j in g.used ==>
          SameRelation(g, h, mapping, i, j))
  }

  /** j is an ancestor of i exactly if its image is one of the image of i. */
  ghost predicate SameRelation(g: Graph, h: Graph, mapping: seq<nat>, i: nat, j: nat) {
    i < |mapping| && j < |mapping| && (mapping[j] in h.Ancestors(mapping[i]) <==> j in g.Ancestors(i))
  }

  method PlaceMapped(g: Graph, mapping: seq<nat>, posRange: nat) returns (entries: seq<Entry>)
    requires IsMapping(g, mapping, posRange)
    ensures |entries| == posRange
    ensures forall i :: i in g.used ==> entries[mapping[i]] == Entry(g.FeeRate(i), {mapping[i]}, {mapping[i]})
  {
    entries := seq(posRange, _ => Entry(Zero(), {}, {}));
    var rest := g.used;
    while rest != {}
      invariant rest <= g.used && |entries| == posRange
      invariant forall i :: i in g.used && i !in rest ==>
        entries[mapping[i]] == Entry(g.FeeRate(i), {mapping[i]}, {mapping[i]})
      decreases rest
    {
      var i := First(rest);
      entries := entries[mapping[i] := Entry(g.FeeRate(i), {mapping[i]}, {mapping[i]})];
      rest := rest - {i};
      forall k | k in g.used && k !in rest
        ensures entries[mapping[k]] == Entry(g.FeeRate(k), {mapping[k]}, {mapping[k]})
      {
        assert !Clash(mapping, i, k);
      }
    }
  }

  lemma {:induction false} PlacedClosure(g: Graph, mapping: seq<nat>, posRange: nat, entries: seq<Entry>,
                                         node: map<nat, nat>)
    requires g.Consistent() && IsMapping(g, mapping, posRange) && |entries| == posRange
    requires forall i :: i in g.used ==> entries[mapping[i]] == Entry(g.FeeRate(i), {mapping[i]}, {mapping[i]})
    requires forall p :: p in Image(mapping, g.used) ==> p in node && node[p] == p
    ensures Closure(Graph(entries, Image(mapping, g.used)), node, {}, posRange)
  {
    var h := Graph(entries, Image(mapping, g.used));
    forall i, j | i in h.used && j in h.used ensures Linked(h, node, {}, i, j) {
      ReachesIsolated({}, i, j, i);
    }
  }

  ghost function ParentEdges(g: Graph, mapping: seq<nat>, done: set<nat>): set<(nat, nat)> {
    set i, r | i in done && r in DirectParents(g, i) && i < |mapping| && r < |mapping| :: (mapping[r], mapping[i])
  }

  lemma {:induction false} NoParentEdges(g: Graph, mapping: seq<nat>)
    ensures ParentEdges(g, mapping, {}) == {}
  {
  }

  lemma {:induction false} DirectParentsWithin(g: Graph, i: nat)
    requires g.Consistent() && i in g.used
    ensures DirectParents(g, i) <= g.Ancestors(i) - {i} && DirectParents(g, i) <= g.used
  {
  }

  lemma {:induction false} ParentEdgesNext(g: Graph, mapping: seq<nat>, done: set<nat>, i: nat, node: map<nat, nat>)
    requires g.Consistent() && (forall x :: x in g.used ==> x < |mapping|) && i in g.used && done <= g.used
    requires forall p :: p in Image(mapping, g.used) ==> p in node && node[p] == p
    ensures DirectParents(g, i) <= g.used && Image(mapping, DirectParents(g, i)) <= Image(mapping, g.used)
    ensures ParentEdges(g, mapping, done + {i})
         == ParentEdges(g, mapping, done)
            + EdgesInto(set p | p in Image(mapping, DirectParents(g, i)) :: node[p], node[mapping[i]])
  {
    DirectParentsWithin(g, i);
    var parents := Image(mapping, DirectParents(g, i));
    SameNodes(parents, node);
    assert mapping[i] in Image(mapping, g.used);
    MoreParentEdges(g, mapping, done, i);
  }

  lemma {:induction false} SameNodes(s: set<nat>, node: map<nat, nat>)
    requires forall p :: p in s ==> p in node && node[p] == p
    ensures (set p | p in s :: node[p]) == s
  {
  }

  lemma {:induction false} MoreParentEdges(g: Graph, mapping: seq<nat>, done: set<nat>, i: nat)
    requires i < |mapping| && forall r :: r in DirectParents(g, i) ==> r < |mapping|
    ensures ParentEdges(g, mapping, done + {i})
         == ParentEdges(g, mapping, done) + EdgesInto(Image(mapping, DirectParents(g, i)), mapping[i])
  {
    var a, b := ParentEdges(g, mapping, done + {i}), EdgesInto(Image(mapping, DirectParents(g, i)), mapping[i]);
    forall e | e in b ensures e in a {
      var r :| r in DirectParents(g, i) && e == (mapping[r], mapping[i]);
    }
  }

  /** An ancestor reaches its descendant through reduced parents. */
  lemma {:induction false} AncestorReaches(g: Graph, mapping: seq<nat>, i: nat, j: nat)
    requires g.Consistent() && g.Acyclic() && (forall x :: x in g.used ==> x < |mapping|)
    requires i in g.used && j in g.Ancestors(i)
    ensures Reaches(ParentEdges(g, mapping, g.used), mapping[j], mapping[i])
    decreases |g.Ancestors(i)|
  {
    var edges := ParentEdges(g, mapping, g.used);
    if i == j {
      ReachesSelf(edges, mapping[i]);
    } else {
      var r := ReducedParentAbove(g, i, j);
      assert i !in g.Ancestors(r);
      FewerLeft(g.Ancestors(r), g.Ancestors(i), i);
      AncestorReaches(g, mapping, r, j);
      assert (mapping[r], mapping[i]) in edges;
      ReachesEdge(edges, mapping[r], mapping[i]);
      ReachesTransitive(edges, mapping[j], mapping[r], mapping[i]);
    }
  }

  lemma {:induction false} PathIsAncestor(g: Graph, mapping: seq<nat>, posRange: nat, path: seq<nat>, i: nat, j: nat)
    requires g.Consistent() && IsMapping(g, mapping, posRange)
    requires i in g.used && j in g.used && Joins(ParentEdges(g, mapping, g.used), path, mapping[j], mapping[i])
    ensures j in g.Ancestors(i)
    decreases |path|
  {
    var edges := ParentEdges(g, mapping, g.used);
    if |path| == 1 {
      assert !Clash(mapping, i, j);
    } else {
      assert (path[0], path[1]) in edges;
      var k, r :| k in g.used && r in DirectParents(g, k) && r < |mapping|
          && (path[0], path[1]) == (mapping[r], mapping[k]);
      DirectParentsWithin(g, k);
      assert !Clash(mapping, r, j);
      assert r == j && j in g.Ancestors(k);
      var rest := path[1..];
      assert Joins(edges, rest, mapping[k], mapping[i]) by {
        forall n | 0 < n < |rest| ensures (rest[n - 1], rest[n]) in edges {
          assert (path[n], path[n + 1]) in edges;
        }
      }
      PathIsAncestor(g, mapping, posRange, rest, i, k);
    }
  }

  lemma {:induction false} RemappedIsomorphic(g: Graph, h: Graph, mapping: seq<nat>, posRange: nat, node: map<nat, nat>,
                           edges: set<(nat, nat)>, nodes: nat, placed: seq<Entry>)
    requires g.Consistent() && g.Acyclic() && IsMapping(g, mapping, posRange) && |placed| == posRange
    requires h.used == Image(mapping, g.used) && Closure(h, node, edges, nodes)
    requires forall p :: p in h.used ==> p in node && node[p] == p
    requires edges == ParentEdges(g, mapping, g.used)
    requires SameRates(h.used, Graph(placed, h.used), h)
    requires forall i :: i in g.used ==> placed[mapping[i]] == Entry(g.FeeRate(i), {mapping[i]}, {mapping[i]})
    ensures Isomorphic(g, h, mapping)
  {
    forall i | i in g.used ensures h.FeeRate(mapping[i]) == g.FeeRate(i) {
      assert mapping[i] in h.used;
      assert Graph(placed, h.used).FeeRate(mapping[i]) == h.FeeRate(mapping[i]);
    }
    forall i, j | i in g.used && j in g.used
      ensures mapping[j] in h.Ancestors(mapping[i]) <==> j in g.Ancestors(i)
    {
      assert Linked(h, node, edges, mapping[i], mapping[j]);
      if j in g.Ancestors(i) {
        AncestorReaches(g, mapping, i, j);
      }
      if Reaches(edges, mapping[j], mapping[i]) {
        var path :| Joins(edges, path, mapping[j], mapping[i]);
        PathIsAncestor(g, mapping, posRange, path, i, j);
      }
    }
  }

  // ---- the class ----

  class DepGraph {
    var entries: seq<Entry>
    var used: set<nat>
    /** How many positions the set type can hold. */
    const capacity: nat

    /** The node each position stands for, and all dependencies ever added between nodes. */
    ghost var node: map<nat, nat>
    ghost var edges: set<(nat, nat)>
    ghost var nodes: nat

    ghost predicate Valid()
      reads this
    {
      && Fits(Graph(entries, used), capacity)
      && Closure(Graph(entries, used), node, edges, nodes)
    }

    function Value(): Graph
      reads this
    {
      Graph(entries, used)
    }

    constructor (capacity: nat)
      ensures Valid() && Value() == Graph([], {}) && this.capacity == capacity && edges == {}
    {
      this.capacity := capacity;
      entries, used := [], {};
      node, edges, nodes := map[], {}, 0;
    }

    /** Rebuild source with position i moved to mapping[i]. */
    constructor Remap(source: Graph, mapping: seq<nat>, posRange: nat, capacity: nat)
      requires source.Consistent() && source.Acyclic() && IsMapping(source, mapping, posRange)
      requires posRange <= capacity
      ensures Valid() && this.capacity == capacity
      ensures Isomorphic(source, Value(), mapping)
    {
      this.capacity := capacity;
      var entries' := PlaceMapped(source, mapping, posRange);
      entries, used := entries', Image(mapping, source.used);
      node := map p | p in Image(mapping, source.used) :: p;
      edges, nodes := {}, posRange;
      new;
      PlacedClosure(source, mapping, posRange, entries, node);
      AddMappedParents(source, mapping);
      RemappedIsomorphic(source, Value(), mapping, posRange, node, edges, nodes, entries');
    }

    /** Give every copied transaction the images of its reduced parents: enough to make all of its ancestors again. */
    method AddMappedParents(source: Graph, mapping: seq<nat>)
      requires source.Consistent() && source.Acyclic() && forall i :: i in source.used ==> i < |mapping|
      requires Valid() && used == Image(mapping, source.used) && edges == {}
      requires forall p :: p in used ==> p in node && node[p] == p
      modifies this`entries, this`edges
      ensures Valid()
      ensures SameRates(used, old(Value()), Value())
      ensures edges == ParentEdges(source, mapping, source.used)
    {
      var rest := source.used;
      ghost var seen: set<nat> := {};
      NoParentEdges(source, mapping);
      while rest != {}
        invariant seen + rest == source.used
        invariant Valid()
        invariant SameRates(used, old(Value()), Value())
        invariant edges == ParentEdges(source, mapping, seen)
        decreases rest
      {
        var i := First(rest);
        AddParentsOf(source, mapping, i, seen);
        rest, seen := rest - {i}, seen + {i};
      }
      assert seen == source.used;
    }

    method AddParentsOf(source: Graph, mapping: seq<nat>, i: nat, ghost seen: set<nat>)
      requires source.Consistent() && source.Acyclic() && forall i :: i in source.used ==> i < |mapping|
      requires Valid() && used == Image(mapping, source.used) && i in source.used && seen <= source.used
      requires forall p :: p in used ==> p in node && node[p] == p
      requires edges == ParentEdges(source, mapping, seen)
      modifies this`entries, this`edges
      ensures Valid()
      ensures SameRates(used, old(Value()), Value())
      ensures edges == ParentEdges(source, mapping, seen + {i})
    {
      var parents := GetReducedParents(source, i);
      ParentEdgesNext(source, mapping, seen, i, node);
      AddDependencies(Image(mapping, parents), mapping[i]);
    }

    /** Use the lowest free position for another node of the relation, without edges. */
    method AddTransaction(feefrac: FeeFrac) returns (newIdx: nat)
      requires Valid() && exists i :: 0 <= i < capacity && i !in used
      modifies this`entries, this`used, this`node, this`nodes
      ensures Valid()
      ensures newIdx !in old(used) && used == old(used) + {newIdx}
      ensures forall i :: 0 <= i < newIdx ==> i in old(used)
      ensures newIdx < capacity
      ensures Value().FeeRate(newIdx) == feefrac && SameRates(old(used), old(Value()), Value())
      ensures node == old(node)[newIdx := old(nodes)]
    {
      ghost var g := Value();
      var entries';
      newIdx, entries' := PlaceTransaction(Value(), capacity, feefrac);
      AddedClosure(g, Graph(entries', used + {newIdx}), node, edges, nodes, newIdx);
      entries, used := entries', used + {newIdx};
      node, nodes := node[newIdx := nodes], nodes + 1;
    }

    /** Remove positions; what depended through them still depends on what they depended on. */
    method RemoveTransactions(del: set<nat>)
      requires Valid()
      modifies this`entries, this`used
      ensures Valid()
      ensures used == old(used) - del
      ensures SameRates(used, old(Value()), Value())
    {
      ghost var g := Value();
      used := used - del;
      while entries != [] && |entries| - 1 !in used
        invariant used == old(used) - del
        invariant entries <= g.entries && forall i :: i in used ==> i < |entries|
        decreases |entries|
      {
        entries := entries[..|entries| - 1];
      }
      entries := seq(|entries|, i requires 0 <= i < |entries| reads this =>
        Entry(entries[i].feerate, entries[i].ancestors * used, entries[i].descendants * used));
      RemovedClosure(g, Value(), node, edges, nodes);
    }

    /** Add parents to a child. */
    method AddDependencies(parents: set<nat>, child: nat)
      requires Valid() && child in used && parents <= used
      modifies this`entries, this`edges
      ensures Valid()
      ensures SameRates(used, old(Value()), Value())
      ensures edges == old(edges) + EdgesInto(set p | p in parents :: node[p], node[child])
    {
      entries := DependentEntries(entries, used, parents, child, capacity, node, edges, nodes);
      edges := edges + EdgesInto(set p | p in parents :: node[p], node[child]);
    }
  }
}
