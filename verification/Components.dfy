/** Connected components of subsets of a dependency graph. */
module Components {
  import opened Sets
  import opened Graphs

  function Neighbours(g: Graph, i: nat): set<nat> {
    g.Descendants(i) + g.Ancestors(i)
  }

  /** s contains the todo-neighbours of all its members. */
  ghost predicate ClosedIn(g: Graph, todo: set<nat>, s: set<nat>) {
    s <= todo && forall i :: i in s ==> Neighbours(g, i) * todo <= s
  }

  /** subset does not fall apart into parts without dependencies between them. */
  ghost predicate Connected(g: Graph, subset: set<nat>) {
    forall s :: s != {} && ClosedIn(g, subset, s) ==> s == subset
  }

  ghost function NeighboursOf(g: Graph, s: set<nat>): set<nat> {
    set i, x | i in s && x in Neighbours(g, i) :: x
  }

  lemma {:induction false} NeighboursOfNext(g: Graph, s: set<nat>, i: nat)
    ensures NeighboursOf(g, s + {i}) == NeighboursOf(g, s) + Neighbours(g, i)
  {
  }

  /** ret with everything related to a member of add. */
  method AddNeighbours(g: Graph, ret: set<nat>, add: set<nat>) returns (r: set<nat>)
    ensures r == ret + NeighboursOf(g, add)
  {
    r := ret;
    var rest := add;
    ghost var seen: set<nat> := {};
    while rest != {}
      invariant seen + rest == add
      invariant r == ret + NeighboursOf(g, seen)
      decreases rest
    {
      var i := First(rest);
      NeighboursOfNext(g, seen, i);
      r := r + g.Descendants(i);
      r := r + g.Ancestors(i);
      rest, seen := rest - {i}, seen + {i};
    }
    assert seen == add;
  }

  /** The connected component of the first member of todo: the least closed set that contains it. */
  method FindConnectedComponent(g: Graph, todo: set<nat>) returns (ret: set<nat>)
    requires g.Consistent() && todo <= g.used
    ensures ClosedIn(g, todo, ret)
    ensures todo != {} ==> First(todo) in ret
    ensures forall s :: ClosedIn(g, todo, s) && todo != {} && First(todo) in s ==> ret <= s
  {
    if todo == {} {
      return todo;
    }
    var first := First(todo);
    var toAdd := {first};
    ret := {};
    while true
      invariant ret <= todo && toAdd <= todo && first in ret + toAdd
      invariant ret == {} || toAdd <= ret
      invariant forall i :: i in ret - toAdd ==> Neighbours(g, i) * todo <= ret
      invariant forall s :: ClosedIn(g, todo, s) && first in s ==> ret + toAdd <= s
      decreases todo - ret
    {
      var old' := ret;
      var grown := AddNeighbours(g, ret, toAdd);
      ret := grown * todo;
      GrowStep(g, todo, first, old', toAdd, ret);
      toAdd := ret - old';
      if toAdd == {} {
        break;
      }
    }
  }

  lemma {:induction false} NeighboursOfCovers(g: Graph, s: set<nat>)
    requires g.Consistent() && s <= g.used
    ensures s <= NeighboursOf(g, s)
    ensures forall i :: i in s ==> Neighbours(g, i) <= NeighboursOf(g, s)
  {
    forall i | i in s ensures i in NeighboursOf(g, s) {
      assert i in Neighbours(g, i);
    }
  }

  lemma {:induction false} GrowStep(g: Graph, todo: set<nat>, first: nat, ret: set<nat>, toAdd: set<nat>,
                                    ret': set<nat>)
    requires g.Consistent() && todo <= g.used
    requires ret <= todo && toAdd <= todo && first in ret + toAdd
    requires forall i :: i in ret - toAdd ==> Neighbours(g, i) * todo <= ret
    requires forall s :: ClosedIn(g, todo, s) && first in s ==> ret + toAdd <= s
    requires ret' == (ret + NeighboursOf(g, toAdd)) * todo
    ensures ret <= ret' && first in ret'
    ensures forall i :: i in ret ==> Neighbours(g, i) * todo <= ret'
    ensures forall s :: ClosedIn(g, todo, s) && first in s ==> ret' <= s
  {
    NeighboursOfCovers(g, toAdd);
    forall i | i in ret ensures Neighbours(g, i) * todo <= ret' {
      if i in toAdd {
        assert Neighbours(g, i) <= NeighboursOf(g, toAdd);
      }
    }
    forall s | ClosedIn(g, todo, s) && first in s ensures ret' <= s {
      forall x | x in ret' ensures x in s {
        if x !in ret {
          var i :| i in toAdd && x in Neighbours(g, i);
          assert x in Neighbours(g, i) * todo;
        }
      }
    }
  }

  method IsConnected(g: Graph, subset: set<nat>) returns (connected: bool)
    requires g.Consistent() && subset <= g.used
    ensures connected <==> Connected(g, subset)
  {
    var component := FindConnectedComponent(g, subset);
    connected := component == subset;
    if connected {
      forall s | s != {} && ClosedIn(g, subset, s) ensures s == subset {
        ComplementClosed(g, subset, s);
      }
    }
  }

  lemma {:induction false} ComplementClosed(g: Graph, todo: set<nat>, s: set<nat>)
    requires g.Consistent() && todo <= g.used && ClosedIn(g, todo, s)
    ensures ClosedIn(g, todo, todo - s)
  {
    forall i, x | i in todo - s && x in Neighbours(g, i) * todo ensures x in todo - s {
      assert i in Neighbours(g, x) * todo;
    }
  }

  /** Two connected sets with a dependency between them form a connected set. */
  lemma {:induction false} JoinConnected(g: Graph, a: set<nat>, b: set<nat>, x: nat, y: nat)
    requires g.Consistent() && a <= g.used && b <= g.used
    requires Connected(g, a) && Connected(g, b)
    requires x in a && y in b && y in Neighbours(g, x)
    ensures Connected(g, a + b)
  {
    forall s | s != {} && ClosedIn(g, a + b, s) ensures s == a + b {
      ClosedPart(g, a + b, s, a);
      ClosedPart(g, a + b, s, b);
      assert s == s * a + s * b;
      assert x in Neighbours(g, y);
      assert x in s ==> y in s;
      assert y in s ==> x in s;
      assert s * a != {} ==> s * a == a;
      assert s * b != {} ==> s * b == b;
    }
  }

  lemma {:induction false} ClosedPart(g: Graph, todo: set<nat>, s: set<nat>, part: set<nat>)
    requires ClosedIn(g, todo, s) && part <= todo
    ensures ClosedIn(g, part, s * part)
  {
  }
}
