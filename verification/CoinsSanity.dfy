/** The executable check of a coins cache's internal consistency. */
module CoinsSanity {
  import opened CoinsCaches

  /** The keys with a flag among the given ones. */
  ghost function FlaggedKeys(c: Cache, keys: set<Outpoint>): set<Outpoint> {
    set k | k in keys && k in c.coins && c.coins[k].Flagged()
  }

  function PrevOf(c: Cache, at: Link): Link {
    match at
    case Sentinel => c.tail
    case To(k) => if k in c.coins then c.coins[k].prev else Null
    case Null => Null
  }

  function NextOf(c: Cache, at: Link): Link {
    match at
    case Sentinel => c.head
    case To(k) => if k in c.coins then c.coins[k].next else Null
    case Null => Null
  }

  /** First pass: legal flags everywhere, the memory in use, and the number of flagged entries. */
  method CheckEntries(c: Cache) returns (ok: bool, usage: int, flagged: nat)
    ensures ok <==> forall k :: k in c.coins ==> LegalFlags(c.coins[k])
    ensures usage == UsageOf(c.coins) && flagged == |FlaggedKeys(c, c.coins.Keys)|
  {
    ok, usage, flagged := true, 0, 0;
    var rest := c.coins.Keys;
    assert c.coins - rest == map[];
    while rest != {}
      invariant rest <= c.coins.Keys
      invariant ok <==> forall k :: k in c.coins && k !in rest ==> LegalFlags(c.coins[k])
      invariant usage == UsageOf(c.coins - rest) && flagged == |FlaggedKeys(c, c.coins.Keys - rest)|
      decreases |rest|
    {
      var k :| k in rest;
      var e := c.coins[k];
      EntryChecked(c, rest, k);
      if !LegalFlags(e) {
        ok := false;
      }
      usage := usage + e.coin.Usage();
      if e.isDirty || e.isFresh {
        flagged := flagged + 1;
      }
      rest := rest - {k};
    }
    assert c.coins - {} == c.coins && c.coins.Keys - {} == c.coins.Keys;
  }

  lemma {:induction false} EntryChecked(c: Cache, rest: set<Outpoint>, k: Outpoint)
    requires k in rest && rest <= c.coins.Keys
    ensures UsageOf(c.coins - (rest - {k})) == UsageOf(c.coins - rest) + c.coins[k].coin.Usage()
    ensures |FlaggedKeys(c, c.coins.Keys - (rest - {k}))|
        == |FlaggedKeys(c, c.coins.Keys - rest)| + (if c.coins[k].Flagged() then 1 else 0)
  {
    var m := c.coins - (rest - {k});
    UsageRemove(m, k);
    assert m - {k} == c.coins - rest;
    var a, b := FlaggedKeys(c, c.coins.Keys - (rest - {k})), FlaggedKeys(c, c.coins.Keys - rest);
    assert a == if c.coins[k].Flagged() then b + {k} else b;
  }

  /** Second pass: walk the list, checking each link both ways, and count. */
  method CheckList(c: Cache, ghost ks: seq<Outpoint>) returns (ok: bool, linked: nat)
    requires Listed(c, ks)
    ensures ok && linked == |ks|
  {
    ok, linked := true, 0;
    var it := c.head;
    while it != Sentinel
      invariant linked <= |ks| && it == LinkAt(ks, linked) && ok
      decreases |ks| - linked
    {
      LinksBothWays(c, ks, linked);
      var k := it.key;
      if PrevOf(c, NextOf(c, it)) != it || NextOf(c, PrevOf(c, it)) != it || !c.coins[k].Flagged() {
        ok := false;
      }
      linked := linked + 1;
      it := NextOf(c, it);
    }
  }

  lemma {:induction false} LinksBothWays(c: Cache, ks: seq<Outpoint>, i: nat)
    requires Listed(c, ks) && i < |ks|
    ensures var it := To(ks[i]);
            && NextOf(c, it) == LinkAt(ks, i + 1) && PrevOf(c, NextOf(c, it)) == it && NextOf(c, PrevOf(c, it)) == it
            && ks[i] in c.coins && c.coins[ks[i]].Flagged()
  {
    assert InPlace(c.coins, ks, i);
    if i > 0 {
      assert InPlace(c.coins, ks, i - 1);
    }
    if i + 1 < |ks| {
      assert InPlace(c.coins, ks, i + 1);
    }
  }

  lemma {:induction false} ListHoldsFlagged(c: Cache, ks: seq<Outpoint>)
    requires Listed(c, ks)
    ensures |FlaggedKeys(c, c.coins.Keys)| == |ks|
  {
    var keys := KeySet(ks);
    forall k ensures k in keys <==> k in FlaggedKeys(c, c.coins.Keys) {
      if k in ks {
        var i :| 0 <= i < |ks| && ks[i] == k;
        assert InPlace(c.coins, ks, i);
      }
      if k in c.coins {
        ListedFlagged(c, ks, k);
      }
    }
    assert keys == FlaggedKeys(c, c.coins.Keys);
    KeyCount(ks);
  }

  ghost function KeySet(ks: seq<Outpoint>): set<Outpoint> {
    set k | k in ks
  }

  lemma {:induction false} KeyCount(ks: seq<Outpoint>)
    requires AllApart(ks)
    ensures |KeySet(ks)| == |ks|
  {
    if ks != [] {
      var init, last := ks[..|ks| - 1], ks[|ks| - 1];
      forall i, j | 0 <= i < |init| && 0 <= j < |init| && i != j ensures Apart(init, i, j) {
        assert Apart(ks, i, j);
      }
      KeyCount(init);
      assert last !in init by {
        forall i | 0 <= i < |init| ensures init[i] != last {
          assert Apart(ks, i, |ks| - 1);
        }
      }
      assert KeySet(ks) == KeySet(init) + {last};
    }
  }

  /** All assertions of the check hold for a valid cache with legal flags. */
  method SanityCheck(c: Cache, ghost ks: seq<Outpoint>) returns (ok: bool)
    requires ValidCache(c, ks) && forall k :: k in c.coins ==> LegalFlags(c.coins[k])
    ensures ok
  {
    var legal, usage, flagged := CheckEntries(c);
    var linksOk, linked := CheckList(c, ks);
    ListHoldsFlagged(c, ks);
    ok := legal && linksOk && linked == flagged && usage == c.usage;
  }
}
