/** The best remaining ancestor set, with ancestor-set feerates kept up to date incrementally. */
module AncestorFinders {
  import opened FeeFracs
  import opened Sets
  import opened Graphs
  import opened LinearizationChunkings

  ghost predicate AncestorRates(g: Graph, rates: seq<FeeFrac>, at: set<nat>, todo: set<nat>) {
    && (forall i :: i in at ==> i < |rates|)
    && (forall i {:trigger rates[i]} :: i in at ==> rates[i] == g.SetRate(g.Ancestors(i) * todo))
  }

  /** Ancestor-set feerates of all used positions, each starting from that of its first ancestor. */
  method AllAncestorRates(g: Graph) returns (rates: seq<FeeFrac>)
    requires g.Valid()
    ensures |rates| == |g.entries| && AncestorRates(g, rates, g.used, g.used)
  {
    rates := seq(|g.entries|, _ => Zero());
    var rest := g.used;
    while rest != {}
      invariant rest <= g.used && |rates| == |g.entries|
      invariant AncestorRates(g, rates, g.used - rest, g.used)
      decreases rest
    {
      var i := First(rest);
      var rate := AncestorRate(g, rates, i, g.used - rest);
      rates := rates[i := rate];
      rest := rest - {i};
    }
  }

  /** The ancestor-set feerate of i, given those of all lower positions. */
  method AncestorRate(g: Graph, rates: seq<FeeFrac>, i: nat, ghost seen: set<nat>) returns (ancFeerate: FeeFrac)
    requires g.Valid() && i in g.used && |rates| == |g.entries|
    requires forall j :: j in g.used && j < i ==> j in seen
    requires AncestorRates(g, rates, seen, g.used)
    ensures ancFeerate == g.SetRate(g.Ancestors(i) * g.used)
  {
    var ancToAdd := g.Ancestors(i);
    ancFeerate := Zero();
    assert i in ancToAdd;
    var first := First(ancToAdd);
    FirstAncestorReused(g, i, first);
    if first < i {
      ancFeerate := rates[first];
      ancToAdd := ancToAdd - g.Ancestors(first);
    }
    // The ancestors to add include i itself.
    assert i in ancToAdd;
    ancFeerate := ancFeerate.Plus(g.SetRate(ancToAdd));
  }

  lemma {:induction false} FirstAncestorReused(g: Graph, i: nat, first: nat)
    requires g.Valid() && i in g.used && first in g.Ancestors(i)
    ensures g.Ancestors(i) * g.used == g.Ancestors(i) && g.Ancestors(first) * g.used == g.Ancestors(first)
    ensures g.SetRate(g.Ancestors(i))
         == g.SetRate(g.Ancestors(first)).Plus(g.SetRate(g.Ancestors(i) - g.Ancestors(first)))
    ensures g.SetRate(g.Ancestors(i)) == Zero().Plus(g.SetRate(g.Ancestors(i)))
    ensures first != i ==> i in g.Ancestors(i) - g.Ancestors(first)
  {
    SetRateSplit(g, g.Ancestors(i), g.Ancestors(first));
    assert g.Ancestors(i) * g.Ancestors(first) == g.Ancestors(first);
    PlusZero(g.SetRate(g.Ancestors(i)));
  }

  /** rates with transaction i's feerate taken off at every position in at. */
  method Subtract(g: Graph, rates: seq<FeeFrac>, at: set<nat>, i: nat) returns (r: seq<FeeFrac>)
    requires forall j :: j in at ==> j < |rates|
    ensures |r| == |rates|
    ensures forall j :: 0 <= j < |r| ==> r[j] == if j in at then rates[j].Minus(g.FeeRate(i)) else rates[j]
  {
    r := rates;
    var feerate := g.FeeRate(i);
    var rest := at;
    while rest != {}
      invariant rest <= at && |r| == |rates|
      invariant forall j :: 0 <= j < |r| ==> r[j] == if j in at && j !in rest then rates[j].Minus(feerate) else rates[j]
      decreases rest
    {
      var j := First(rest);
      r := r[j := r[j].Minus(feerate)];
      rest := rest - {j};
    }
  }

  lemma {:induction false} SubtractOne(g: Graph, j: nat, remaining: set<nat>, i: nat)
    requires i in remaining
    ensures i !in g.Ancestors(j) ==> g.Ancestors(j) * (remaining - {i}) == g.Ancestors(j) * remaining
    ensures i in g.Ancestors(j) ==>
      g.SetRate(g.Ancestors(j) * (remaining - {i})) == g.SetRate(g.Ancestors(j) * remaining).Minus(g.FeeRate(i))
  {
    if i in g.Ancestors(j) {
      SetRateRemove(g, g.Ancestors(j) * remaining, i);
      assert g.Ancestors(j) * remaining - {i} == g.Ancestors(j) * (remaining - {i});
      PlusMinus(g.FeeRate(i), g.SetRate(g.Ancestors(j) * (remaining - {i})));
    }
  }

  lemma {:induction false} PlusMinus(a: FeeFrac, b: FeeFrac)
    ensures a.Plus(b).Minus(a) == b
  {
  }

  /** Take select off the ancestor-set feerates of what remains. */
  method TakeOff(g: Graph, rates: seq<FeeFrac>, todo: set<nat>, select: set<nat>) returns (r: seq<FeeFrac>)
    requires g.Valid() && todo <= g.used && select <= todo && |rates| == |g.entries|
    requires AncestorRates(g, rates, todo, todo)
    ensures |r| == |g.entries| && AncestorRates(g, r, todo - select, todo - select)
  {
    r := rates;
    var left := todo - select;
    var rest := select;
    ghost var remaining := todo;
    while rest != {}
      invariant rest <= select && |r| == |g.entries| && remaining == left + rest
      invariant AncestorRates(g, r, left, remaining)
      decreases rest
    {
      var i := First(rest);
      var r' := Subtract(g, r, g.Descendants(i) * left, i);
      SubtractedRates(g, r, r', left, remaining, i);
      r := r';
      rest, remaining := rest - {i}, remaining - {i};
    }
    assert remaining == left;
  }

  lemma {:induction false} SubtractedRates(g: Graph, r: seq<FeeFrac>, r': seq<FeeFrac>, left: set<nat>,
                                           remaining: set<nat>, i: nat)
    requires g.Consistent() && i in remaining && remaining <= g.used && left <= remaining
    requires |r| == |r'| && AncestorRates(g, r, left, remaining)
    requires forall j :: 0 <= j < |r| ==>
      r'[j] == if j in g.Descendants(i) * left then r[j].Minus(g.FeeRate(i)) else r[j]
    ensures AncestorRates(g, r', left, remaining - {i})
  {
    forall j | j in left ensures r'[j] == g.SetRate(g.Ancestors(j) * (remaining - {i})) {
      SubtractOne(g, j, remaining, i);
      assert i in g.Ancestors(j) <==> j in g.Descendants(i);
      assert r[j] == g.SetRate(g.Ancestors(j) * remaining);
    }
  }

  class AncestorCandidateFinder {
    const g: Graph
    /** What has not been taken yet. */
    var todo: set<nat>
    /** Feerates of the remaining ancestor sets, kept for the positions in todo. */
    var ancestorSetFeerates: seq<FeeFrac>

    ghost predicate Valid()
      reads this
    {
      && g.Valid() && todo <= g.used
      && |ancestorSetFeerates| == |g.entries|
      && AncestorRates(g, ancestorSetFeerates, todo, todo)
    }

    constructor (g: Graph)
      requires g.Valid()
      ensures Valid() && this.g == g && todo == g.used
    {
      this.g := g;
      todo := g.used;
      var rates := AllAncestorRates(g);
      ancestorSetFeerates := rates;
    }

    method MarkDone(select: set<nat>)
      requires Valid() && select <= todo
      modifies this
      ensures Valid() && todo == old(todo) - select
    {
      var rates := TakeOff(g, ancestorSetFeerates, todo, select);
      todo := todo - select;
      ancestorSetFeerates := rates;
    }

    predicate AllDone()
      reads this
    {
      todo == {}
    }

    function NumRemaining(): nat
      reads this
    {
      |todo|
    }

    /** What is left of the ancestors of some transaction, so that no other does better. */
    method FindCandidateSet() returns (r: SetInfo)
      requires Valid() && !AllDone()
      ensures r.Describes(g)
      ensures exists i :: i in todo && r.transactions == g.Ancestors(i) * todo
      ensures forall i :: i in todo ==> !g.SetRate(g.Ancestors(i) * todo).Better(r.feerate)
    {
      var best := First(todo);
      var rest := todo;
      while rest != {}
        invariant rest <= todo && best in todo
        invariant forall i :: i in todo && i !in rest ==> !ancestorSetFeerates[i].Better(ancestorSetFeerates[best])
        decreases rest
      {
        var i := First(rest);
        if ancestorSetFeerates[i].Better(ancestorSetFeerates[best]) {
          BetterBest(i, best, todo - rest);
          best := i;
        }
        rest := rest - {i};
      }
      r := SetInfo(g.Ancestors(best) * todo, ancestorSetFeerates[best]);
    }

    lemma BetterBest(i: nat, best: nat, seen: set<nat>)
      requires Valid() && i in todo && best in todo && seen <= todo
      requires ancestorSetFeerates[i].Better(ancestorSetFeerates[best])
      requires forall k :: k in seen && k in todo ==> !ancestorSetFeerates[k].Better(ancestorSetFeerates[best])
      ensures forall k :: k in seen && k in todo ==> !ancestorSetFeerates[k].Better(ancestorSetFeerates[i])
      ensures !ancestorSetFeerates[i].Better(ancestorSetFeerates[i])
    {
      forall k | k in todo ensures ancestorSetFeerates[k].size > 0 {
        assert k in g.Ancestors(k) * todo;
        SetRateSize(g, g.Ancestors(k) * todo);
      }
      forall k | k in seen ensures !ancestorSetFeerates[k].Better(ancestorSetFeerates[i]) {
        NotBetterTransitive(ancestorSetFeerates[k], ancestorSetFeerates[best], ancestorSetFeerates[i]);
      }
    }
  }

  /** A remaining ancestor set is a topological subset of what remains. */
  lemma {:induction false} AncestorSetTopological(g: Graph, todo: set<nat>, i: nat)
    requires g.Consistent() && todo <= g.used && i in todo
    ensures g.Topological(g.Ancestors(i) * todo, todo) && i in g.Ancestors(i) * todo
  {
  }
}
