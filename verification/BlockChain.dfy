/** The active chain as an array by height, forks, and locators. */
module BlockChains {
  import opened BlockIndexes
  import opened Radix

  /** vChain is the chain of all ancestors of its last block. */
  ghost predicate IsChain(bs: seq<Block>, vChain: seq<int>)
    requires Shape(bs)
  {
    vChain == [] || (0 <= vChain[|vChain| - 1] < |bs| && ChainOf(bs, vChain, vChain[|vChain| - 1]))
  }

  ghost predicate ChainOf(bs: seq<Block>, vChain: seq<int>, tip: nat)
    requires Shape(bs) && tip < |bs|
  {
    && |vChain| == bs[tip].height + 1
    && forall h {:trigger vChain[h]} :: 0 <= h < |vChain| ==> vChain[h] == Ancestor(bs, tip, h)
  }

  /** a is b or an ancestor of b. */
  ghost predicate IsAncestor(bs: seq<Block>, a: nat, b: nat)
    requires Shape(bs) && a < |bs| && b < |bs|
  {
    bs[a].height <= bs[b].height && Ancestor(bs, b, bs[a].height) == a
  }

  lemma {:induction false} AncestorStep(bs: seq<Block>, i: nat, h: nat)
    requires Shape(bs) && i < |bs| && h < bs[i].height
    ensures 0 <= bs[i].prev < i && bs[bs[i].prev].height == bs[i].height - 1
    ensures Ancestor(bs, bs[i].prev, h) == Ancestor(bs, i, h)
  {
    assert ShapeAt(bs, i);
  }

  /** Blocks that agree at some height agree below. */
  lemma {:induction false} AgreeBelow(bs: seq<Block>, a: nat, b: nat, h: nat, h': nat)
    requires Shape(bs) && a < |bs| && b < |bs| && h' <= h <= bs[a].height && h <= bs[b].height
    requires Ancestor(bs, a, h) == Ancestor(bs, b, h)
    ensures Ancestor(bs, a, h') == Ancestor(bs, b, h')
  {
    AncestorTwice(bs, a, h, h');
    AncestorTwice(bs, b, h, h');
  }

  /** From above index on the chain is set; up to index it is as it was before, or empty. */
  ghost predicate Setting(bs: seq<Block>, before: seq<int>, v: seq<int>, block: nat, index: int)
    requires Shape(bs) && block < |bs|
  {
    && |v| == bs[block].height + 1 && -1 <= index < |bs|
    && (index != -1 ==> bs[index].height < |v| && index == Ancestor(bs, block, bs[index].height))
    && (forall h {:trigger v[h]} :: (if index == -1 then 0 else bs[index].height + 1) <= h < |v| ==>
          v[h] == Ancestor(bs, block, h))
    && (index != -1 ==>
          forall h {:trigger v[h]} :: 0 <= h <= bs[index].height ==> v[h] == if h < |before| then before[h] else -1)
  }

  lemma {:induction false} SettingNext(bs: seq<Block>, before: seq<int>, v: seq<int>, block: nat, index: nat)
    requires Shape(bs) && block < |bs| && Setting(bs, before, v, block, index)
    ensures -1 <= bs[index].prev < index
    ensures Setting(bs, before, v[bs[index].height := index], block, bs[index].prev)
  {
    var h := bs[index].height;
    assert ShapeAt(bs, index);
    if h > 0 {
      AncestorTwice(bs, block, h, h - 1);
      AncestorStep(bs, index, h - 1);
      assert Ancestor(bs, bs[index].prev, h - 1) == bs[index].prev;
    }
  }

  class Chain {
    var vChain: seq<int>

    constructor ()
      ensures vChain == []
    {
      vChain := [];
    }

    function Height(): int
      reads this
    {
      |vChain| - 1
    }

    /** The block at a height of this chain, or -1. */
    function At(height: int): int
      reads this
    {
      if height < 0 || height >= |vChain| then -1 else vChain[height]
    }

    predicate Contains(bs: seq<Block>, index: nat)
      requires index < |bs|
      reads this
    {
      At(bs[index].height) == index
    }

    /** Make the chain that of a given tip; blocks that are already in place are not visited again. */
    method SetTip(bs: seq<Block>, block: nat)
      requires Shape(bs) && block < |bs| && IsChain(bs, vChain)
      modifies this
      ensures ChainOf(bs, vChain, block)
    {
      ghost var before := vChain;
      var n := bs[block].height + 1;
      vChain := if |vChain| >= n then vChain[..n] else vChain + seq(n - |vChain|, i => -1);
      var index: int := block;
      while index != -1 && vChain[bs[index].height] != index
        invariant Setting(bs, before, vChain, block, index)
        decreases index
      {
        SettingNext(bs, before, vChain, block, index);
        vChain := vChain[bs[index].height := index];
        index := bs[index].prev;
      }
      if index != -1 {
        InPlaceBelow(bs, before, block, index);
      }
    }

    /** The last block of this chain that is index or an ancestor of it; -1 if there is none. */
    method FindFork(bs: seq<Block>, index: int) returns (r: int)
      requires ValidTree(bs) && IsChain(bs, vChain) && -1 <= index < |bs|
      ensures r == -1 <==> index == -1 || vChain == []
      ensures r != -1 ==> 0 <= r < |bs| && Contains(bs, r) && IsAncestor(bs, r, index)
      ensures r != -1 ==>
        forall x :: 0 <= x < |bs| && Contains(bs, x) && IsAncestor(bs, x, index) ==> bs[x].height <= bs[r].height
    {
      if index == -1 {
        return -1;
      }
      r := index;
      if bs[index].height > Height() {
        ghost var steps;
        r, steps := GetAncestor(bs, index, Height());
      }
      if r == -1 {
        return;
      }
      AncestorIs(bs, index, if bs[index].height > Height() then Height() else bs[index].height);
      while r != -1 && !Contains(bs, r)
        invariant -1 <= r < |bs|
        invariant (r != -1 ==> bs[r].height <= bs[index].height && r == Ancestor(bs, index, bs[r].height))
        invariant r != -1 && vChain != []
        invariant forall x :: 0 <= x < |bs| && Contains(bs, x) && IsAncestor(bs, x, index) ==>
          bs[x].height <= bs[r].height
        decreases r
      {
        NotGenesis(bs, vChain, r);
        var h := bs[r].height;
        AncestorStep(bs, r, h - 1);
        AncestorTwice(bs, index, h, h - 1);
        r := bs[r].prev;
      }
    }
  }

  /** A block that is in place in a chain has all its ancestors in place. */
  lemma {:induction false} InPlaceBelow(bs: seq<Block>, vChain: seq<int>, block: nat, index: nat)
    requires Shape(bs) && IsChain(bs, vChain) && block < |bs| && index < |bs| && bs[index].height <= bs[block].height
    requires index == Ancestor(bs, block, bs[index].height)
    requires bs[index].height < |vChain| && vChain[bs[index].height] == index
    ensures forall h {:trigger vChain[h]} :: 0 <= h <= bs[index].height ==> vChain[h] == Ancestor(bs, block, h)
  {
    var tip := vChain[|vChain| - 1];
    forall h | 0 <= h <= bs[index].height ensures vChain[h] == Ancestor(bs, block, h) {
      AgreeBelow(bs, tip, block, bs[index].height, h);
    }
  }

  /** The genesis block is in every chain. */
  lemma {:induction false} NotGenesis(bs: seq<Block>, vChain: seq<int>, r: nat)
    requires Shape(bs) && IsChain(bs, vChain) && vChain != [] && r < |bs|
    requires bs[r].height >= |vChain| || vChain[bs[r].height] != r
    ensures bs[r].height > 0
  {
    var tip := vChain[|vChain| - 1];
    AncestorIs(bs, tip, 0);
    OnlyGenesis(bs, Ancestor(bs, tip, 0));
    if bs[r].height == 0 {
      OnlyGenesis(bs, r);
    }
  }

  lemma {:induction false} OnlyGenesis(bs: seq<Block>, i: nat)
    requires Shape(bs) && i < |bs| && bs[i].height == 0
    ensures i == 0
  {
    assert ShapeAt(bs, i);
  }

  /** The highest block that both are or descend from. */
  method LastCommonAncestor(bs: seq<Block>, a: nat, b: nat) returns (r: nat)
    requires ValidTree(bs) && a < |bs| && b < |bs|
    ensures r < |bs| && IsAncestor(bs, r, a) && IsAncestor(bs, r, b)
    ensures forall x :: 0 <= x < |bs| && IsAncestor(bs, x, a) && IsAncestor(bs, x, b) ==> bs[x].height <= bs[r].height
  {
    var pa: int, pb: int := a, b;
    if bs[a].height > bs[b].height {
      ghost var steps;
      pa, steps := GetAncestor(bs, a, bs[b].height);
    } else if bs[b].height > bs[a].height {
      ghost var steps;
      pb, steps := GetAncestor(bs, b, bs[a].height);
    }
    ghost var h: nat := if bs[a].height < bs[b].height then bs[a].height else bs[b].height;
    AncestorIs(bs, a, h);
    AncestorIs(bs, b, h);
    while pa != pb && pa != -1 && pb != -1
      invariant h <= bs[a].height && h <= bs[b].height
      invariant 0 <= pa < |bs| && 0 <= pb < |bs| && pa == Ancestor(bs, a, h) && pb == Ancestor(bs, b, h)
      invariant forall x :: 0 <= x < |bs| && IsAncestor(bs, x, a) && IsAncestor(bs, x, b) ==> bs[x].height <= h
      decreases h
    {
      AncestorIs(bs, a, h);
      AncestorIs(bs, b, h);
      if h == 0 {
        OnlyGenesis(bs, pa);
        OnlyGenesis(bs, pb);
      }
      AncestorStep(bs, pa, h - 1);
      AncestorStep(bs, pb, h - 1);
      AncestorTwice(bs, a, h, h - 1);
      AncestorTwice(bs, b, h, h - 1);
      pa, pb := bs[pa].prev, bs[pb].prev;
      h := h - 1;
    }
    AncestorIs(bs, a, h);
    r := pa;
  }

  // ---- locators ----

  /** How far the i-th entry of a locator is below the one before, unless that is too near to genesis. */
  ghost function Gap(i: nat): nat {
    if i <= 11 then 1 else Pow(2, i - 11)
  }

  /** Strictly descending heights on the way from index to genesis, first one by one and then at distances that
      double. */
  ghost predicate IsLocator(bs: seq<Block>, index: nat, have: seq<nat>)
    requires Shape(bs) && index < |bs|
  {
    && have != [] && have[0] == index
    && (forall i :: 0 <= i < |have| ==> have[i] < |bs| && IsAncestor(bs, have[i], index))
    && forall i {:trigger Descends(bs, have, i)} :: 0 < i < |have| ==> Descends(bs, have, i)
  }

  ghost predicate Descends(bs: seq<Block>, have: seq<nat>, i: nat)
    requires 0 < i < |have|
  {
    && have[i] < |bs| && have[i - 1] < |bs| && bs[have[i]].height < bs[have[i - 1]].height
    && Spaced(bs[have[i - 1]].height, bs[have[i]].height, i)
  }

  ghost predicate Spaced(above: nat, below: nat, i: nat) {
    below == if above > Gap(i) then above - Gap(i) else 0
  }

  /** The hashes of index and of ancestors at growing distances, down to genesis. */
  method LocatorEntries(bs: seq<Block>, start: int) returns (have: seq<nat>)
    requires ValidTree(bs) && -1 <= start < |bs|
    ensures start == -1 ==> have == []
    ensures start != -1 ==> IsLocator(bs, start, have) && bs[have[|have| - 1]].height == 0
    ensures start != -1 && |have| > 12 ==> Pow(2, |have| - 12) < bs[start].height
  {
    have := [];
    if start == -1 {
      return;
    }
    var step := 1;
    var index: nat := start;
    ghost var top := bs[start].height;
    AncestorIs(bs, start, top);
    while true
      invariant index < |bs| && IsAncestor(bs, index, start)
      invariant have == [] ==> index == start
      invariant have != [] ==> IsLocator(bs, start, have) && bs[index].height < bs[have[|have| - 1]].height
      invariant have != [] ==> Spaced(bs[have[|have| - 1]].height, bs[index].height, |have|)
      invariant step == if |have| <= 10 then 1 else Pow(2, |have| - 10)
      invariant step >= 1
      invariant |have| <= 11 && bs[index].height > 0 ==> top - bs[index].height >= |have|
      invariant |have| >= 11 && bs[index].height > 0 ==> top - bs[index].height >= Pow(2, |have| - 10) + 9
      invariant |have| >= 12 ==> top >= Pow(2, |have| - 11) + 9
      decreases bs[index].height
    {
      have := AppendEntry(bs, start, have, index);
      if bs[index].height == 0 {
        break;
      }
      var height := if bs[index].height - step > 0 then bs[index].height - step else 0;
      var next, _ := GetAncestor(bs, index, height);
      AncestorIs(bs, index, height);
      AncestorTwice(bs, start, bs[index].height, height);
      index := next;
      if |have| > 10 {
        step := step * 2;
      }
    }
  }

  method AppendEntry(bs: seq<Block>, ghost start: nat, have: seq<nat>, index: nat) returns (have': seq<nat>)
    requires Shape(bs) && start < |bs| && index < |bs| && IsAncestor(bs, index, start)
    requires have == [] ==> index == start
    requires have != [] ==> IsLocator(bs, start, have) && bs[index].height < bs[have[|have| - 1]].height
    requires have != [] ==> Spaced(bs[have[|have| - 1]].height, bs[index].height, |have|)
    ensures have' == have + [index] && IsLocator(bs, start, have')
  {
    have' := have + [index];
    forall i | 0 < i < |have'| ensures Descends(bs, have', i) {
      if i < |have| {
        assert Descends(bs, have, i);
      }
    }
  }
}
