/** The tree of known blocks with its skip pointers. */
module BlockIndexes {
  import opened Radix
  import opened SkipHeights

  /** A block refers to others by position; -1 is no block. */
  datatype Block = Block(prev: int, skip: int, height: nat)

  /** A tree that grows from one genesis block, parents before children. */
  ghost predicate Shape(bs: seq<Block>) {
    forall i {:trigger ShapeAt(bs, i)} :: 0 <= i < |bs| ==> ShapeAt(bs, i)
  }

  ghost predicate ShapeAt(bs: seq<Block>, i: nat)
    requires i < |bs|
  {
    if i == 0 then bs[i].prev == -1 && bs[i].height == 0
    else 0 <= bs[i].prev < i && bs[i].height == bs[bs[i].prev].height + 1
  }

  /** The ancestor of block i at height h, found by walking from parent to parent. */
  ghost function Ancestor(bs: seq<Block>, i: nat, h: nat): nat
    requires Shape(bs) && i < |bs| && h <= bs[i].height
    decreases i
  {
    if h == bs[i].height then i else assert ShapeAt(bs, i); Ancestor(bs, bs[i].prev, h)
  }

  /** Skip pointers lead to the ancestor at the skip height. */
  ghost predicate Skips(bs: seq<Block>)
    requires Shape(bs)
  {
    forall i {:trigger SkipAt(bs, i)} :: 0 <= i < |bs| ==> SkipAt(bs, i)
  }

  ghost predicate SkipAt(bs: seq<Block>, i: nat)
    requires Shape(bs) && i < |bs|
  {
    bs[i].skip == -1 || (bs[i].height > 0 && SkipHeight(bs[i].height) < bs[i].height
                         && bs[i].skip == Ancestor(bs, i, SkipHeight(bs[i].height)))
  }

  ghost predicate ValidTree(bs: seq<Block>) {
    Shape(bs) && Skips(bs)
  }

  lemma {:induction false} AncestorIs(bs: seq<Block>, i: nat, h: nat)
    requires Shape(bs) && i < |bs| && h <= bs[i].height
    ensures Ancestor(bs, i, h) <= i && bs[Ancestor(bs, i, h)].height == h
    decreases i
  {
    if h < bs[i].height {
      assert ShapeAt(bs, i);
      AncestorIs(bs, bs[i].prev, h);
    }
  }

  /** An ancestor of an ancestor is an ancestor. */
  lemma {:induction false} AncestorTwice(bs: seq<Block>, i: nat, h: nat, h': nat)
    requires Shape(bs) && i < |bs| && h' <= h <= bs[i].height
    ensures Ancestor(bs, i, h) < |bs| && h' <= bs[Ancestor(bs, i, h)].height
    ensures Ancestor(bs, Ancestor(bs, i, h), h') == Ancestor(bs, i, h')
    decreases i
  {
    AncestorIs(bs, i, h);
    if h < bs[i].height {
      assert ShapeAt(bs, i);
      AncestorTwice(bs, bs[i].prev, h, h');
    }
  }

  /** Every block but the first has its skip pointer. */
  ghost predicate Built(bs: seq<Block>) {
    forall i {:trigger bs[i]} :: 0 < i < |bs| ==> bs[i].skip != -1
  }

  // ---- going back ----

  /** Find an ancestor with the help of the skip pointers: the same one as by walking, but in few steps. */
  method GetAncestor(bs: seq<Block>, index: nat, height: int) returns (r: int, ghost steps: nat)
    requires ValidTree(bs) && index < |bs|
    ensures Built(bs) ==> steps <= BitLength(bs[index].height) * BitLength(bs[index].height)
    ensures height < 0 || height > bs[index].height ==> r == -1
    ensures 0 <= height <= bs[index].height ==> r == Ancestor(bs, index, height)
  {
    if height > bs[index].height || height < 0 {
      return -1, 0;
    }
    steps := 0;
    FewSteps(bs[index].height, height);
    var walk: nat := index;
    var heightWalk: nat := bs[index].height;
    while heightWalk > height
      invariant walk < |bs| && height <= heightWalk == bs[walk].height
      invariant Ancestor(bs, walk, height) == Ancestor(bs, index, height)
      invariant Built(bs) ==> steps + Steps(heightWalk, height) == Steps(bs[index].height, height)
      decreases heightWalk
    {
      SkipHeightBelow(heightWalk);
      assert SkipAt(bs, walk) && ShapeAt(bs, walk);
      var heightSkip := SkipHeight(heightWalk);
      var heightSkipPrev := SkipHeight(heightWalk - 1);
      if bs[walk].skip != -1
         && (heightSkip == height
             || (heightSkip > height && !(heightSkipPrev < heightSkip - 2 && heightSkipPrev >= height))) {
        AncestorIs(bs, walk, heightSkip);
        AncestorTwice(bs, walk, heightSkip, height);
        walk := bs[walk].skip;
        heightWalk := heightSkip;
      } else {
        walk := bs[walk].prev;
        heightWalk := heightWalk - 1;
      }
      steps := steps + 1;
    }
    r := walk;
  }

  // ---- growing the tree ----

  lemma {:induction false} AncestorAppend(bs: seq<Block>, b: Block, i: nat, h: nat)
    requires Shape(bs) && Shape(bs + [b]) && i < |bs| && h <= bs[i].height
    ensures Ancestor(bs + [b], i, h) == Ancestor(bs, i, h)
    decreases i
  {
    if h < bs[i].height {
      assert ShapeAt(bs, i);
      AncestorAppend(bs, b, bs[i].prev, h);
    }
  }

  class BlockTree {
    var blocks: seq<Block>

    ghost predicate Valid()
      reads this
    {
      ValidTree(blocks) && Built(blocks)
    }

    constructor ()
      ensures Valid() && blocks == []
    {
      blocks := [];
    }

    /** Add a block on top of a known one (or as genesis), and build its skip pointer. */
    method AddBlock(prev: int) returns (index: nat)
      requires Valid() && (if blocks == [] then prev == -1 else 0 <= prev < |blocks|)
      modifies this
      ensures Valid() && index == old(|blocks|) && |blocks| == index + 1 && blocks[..index] == old(blocks)
      ensures blocks[index].prev == prev
      ensures blocks[index].height == if prev == -1 then 0 else old(blocks)[prev].height + 1
      ensures prev != -1 ==> SkipHeight(blocks[index].height) < blocks[index].height
                             && blocks[index].skip == Ancestor(blocks, index, SkipHeight(blocks[index].height))
    {
      index := |blocks|;
      ghost var before := blocks;
      var height := if prev == -1 then 0 else blocks[prev].height + 1;
      var skip := -1;
      if prev != -1 {
        SkipHeightBelow(height);
        ghost var steps;
        skip, steps := GetAncestor(blocks, prev, SkipHeight(height));
      }
      var b := Block(prev, skip, height);
      AppendValid(before, b);
      blocks := blocks + [b];
    }
  }

  lemma {:induction false} AppendValid(bs: seq<Block>, b: Block)
    requires ValidTree(bs)
    requires if bs == [] then b == Block(-1, -1, 0)
             else 0 <= b.prev < |bs| && b.height == bs[b.prev].height + 1 && SkipHeight(b.height) < b.height
                  && b.skip == Ancestor(bs, b.prev, SkipHeight(b.height))
    ensures ValidTree(bs + [b])
    ensures bs != [] ==> b.skip == Ancestor(bs + [b], |bs|, SkipHeight(b.height))
  {
    var bs' := bs + [b];
    forall i | 0 <= i < |bs'| ensures ShapeAt(bs', i) {
      if i < |bs| {
        assert ShapeAt(bs, i);
      }
    }
    if bs != [] {
      AncestorAppend(bs, b, b.prev, SkipHeight(b.height));
    }
    forall i | 0 <= i < |bs'| ensures SkipAt(bs', i) {
      if i < |bs| {
        assert SkipAt(bs, i);
        if bs[i].skip != -1 {
          AncestorAppend(bs, b, i, SkipHeight(bs[i].height));
        }
      }
    }
  }
}
