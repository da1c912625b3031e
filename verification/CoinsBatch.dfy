/** Writing the flagged entries of a cache to the view below it. */
module CoinsBatches {
  import opened Options
  import opened CoinsCaches

  /** Write one dirty entry e of the child to the parent p, which lies above a view that has b. */
  method WriteEntry(p: Cache, k: Outpoint, e: Entry, ghost ks: seq<Outpoint>, ghost b: Option<Coin>)
    returns (p': Cache, threw: bool, ghost ks': seq<Outpoint>)
    requires ValidCache(p, ks) && OkAt(p, k, b) && e.isDirty && EntryOk(e, See(p, k, b))
    ensures !threw && ValidCache(p', ks') && Changed(p, p', k) && OkAt(p', k, b)
    ensures See(p', k, b) == AsView(e.coin)
  {
    p', threw, ks' := p, false, ks;
    if k !in p.coins {
      if !(e.isFresh && e.coin.Spent?) {
        p', ks' := PutDirty(p, k, e.coin, e.isFresh, ks);
      }
    } else {
      if e.isFresh && p.coins[k].coin.Unspent? {
        threw := true;
        return;
      }
      if p.coins[k].isFresh && e.coin.Spent? {
        p', ks' := Discard(p, k, ks);
      } else {
        // Marking the entry fresh would not be safe here: its spentness may still have to reach the view below.
        p', ks' := PutDirty(p, k, e.coin, false, ks);
      }
    }
  }

  // ---- what has been written, and what is left of the child ----

  /** Keys in done show in p what the child shows; the others what p0 did. */
  ghost predicate WrittenAt(child: Cache, p0: Cache, p: Cache, below: Outpoint -> Option<Coin>, done: seq<Outpoint>,
                            x: Outpoint) {
    && OkAt(p, x, below(x))
    && See(p, x, below(x)) == if x in done then See(child, x, See(p0, x, below(x))) else See(p0, x, below(x))
  }

  ghost predicate Written(child: Cache, p0: Cache, p: Cache, below: Outpoint -> Option<Coin>, done: seq<Outpoint>) {
    forall x {:trigger WrittenAt(child, p0, p, below, done, x)} :: WrittenAt(child, p0, p, below, done, x)
  }

  /** Spent entries in done are gone, the others there are clean; entries not in done are as before. */
  ghost predicate CleanedAt(child: Cache, c: Cache, done: seq<Outpoint>, x: Outpoint) {
    if x in done && x in child.coins then
      if child.coins[x].coin.Spent? then x !in c.coins
      else x in c.coins && c.coins[x].coin == child.coins[x].coin && !c.coins[x].Flagged()
    else SameFor(child, c, x)
  }

  ghost predicate Cleaned(child: Cache, c: Cache, done: seq<Outpoint>) {
    forall x {:trigger CleanedAt(child, c, done, x)} :: CleanedAt(child, c, done, x)
  }

  /** Every entry of the child agrees with what p shows below it. */
  ghost predicate Above(child: Cache, p: Cache, below: Outpoint -> Option<Coin>) {
    forall x {:trigger OkAt(child, x, See(p, x, below(x)))} :: OkAt(child, x, See(p, x, below(x)))
  }

  ghost predicate OkOver(p: Cache, below: Outpoint -> Option<Coin>) {
    forall x {:trigger OkAt(p, x, below(x))} :: OkAt(p, x, below(x))
  }

  lemma {:induction false} WrittenStart(child: Cache, p: Cache, below: Outpoint -> Option<Coin>)
    requires OkOver(p, below)
    ensures Written(child, p, p, below, [])
  {
    forall x ensures WrittenAt(child, p, p, below, [], x) {
      assert OkAt(p, x, below(x));
    }
  }

  /** Writing a dirty entry. */
  lemma {:induction false} WrittenStep(child: Cache, p0: Cache, p: Cache, p': Cache, below: Outpoint -> Option<Coin>,
                                       done: seq<Outpoint>, k: Outpoint)
    requires Written(child, p0, p, below, done) && k !in done && k in child.coins
    requires Changed(p, p', k) && OkAt(p', k, below(k)) && See(p', k, below(k)) == AsView(child.coins[k].coin)
    ensures Written(child, p0, p', below, done + [k])
  {
    forall x ensures WrittenAt(child, p0, p', below, done + [k], x) {
      assert WrittenAt(child, p0, p, below, done, x);
      if x != k {
        assert SameFor(p, p', x);
      }
    }
  }

  /** An entry that is fresh but not dirty is spent, and so is what lies below. */
  lemma {:induction false} WrittenSkip(child: Cache, p0: Cache, p: Cache, below: Outpoint -> Option<Coin>,
                                       done: seq<Outpoint>, k: Outpoint)
    requires Written(child, p0, p, below, done) && k !in done && k in child.coins && !child.coins[k].isDirty
    requires child.coins[k].isFresh
    requires EntryOk(child.coins[k], See(p0, k, below(k)))
    ensures Written(child, p0, p, below, done + [k])
  {
    forall x ensures WrittenAt(child, p0, p, below, done + [k], x) {
      assert WrittenAt(child, p0, p, below, done, x);
    }
  }

  /** When all flagged keys have been written, the parent shows what the child shows. */
  lemma {:induction false} WrittenAll(child: Cache, ks: seq<Outpoint>, p0: Cache, p: Cache,
                                      below: Outpoint -> Option<Coin>, x: Outpoint)
    requires Written(child, p0, p, below, ks) && Listed(child, ks) && Above(child, p0, below)
    ensures OkAt(p, x, below(x)) && See(p, x, below(x)) == See(child, x, See(p0, x, below(x)))
  {
    assert WrittenAt(child, p0, p, below, ks, x);
    if x in child.coins {
      ListedFlagged(child, ks, x);
      assert OkAt(child, x, See(p0, x, below(x)));
    }
  }

  /** Take the first key off the child's list: erase its entry if spent, clean it otherwise. */
  method EraseOrClean(c: Cache, k: Outpoint, ghost ks: seq<Outpoint>) returns (c': Cache)
    requires ks != [] && ks[0] == k && ValidCache(c, ks) && k in c.coins
    ensures ValidCache(c', ks[1..]) && Changed(c, c', k)
    ensures c.coins[k].coin.Spent? ==> k !in c'.coins
    ensures c.coins[k].coin.Unspent? ==> k in c'.coins && c'.coins[k].coin == c.coins[k].coin && !c'.coins[k].Flagged()
  {
    if c.coins[k].coin.Spent? {
      c' := Erase(c, k);
      EraseFirst(c, ks);
    } else {
      c' := SetClean(c, k);
      CleanFirst(c, ks);
    }
  }

  lemma {:induction false} WithoutFirst(ks: seq<Outpoint>)
    requires ks != []
    ensures Without(ks, 0) == ks[1..]
  {
  }

  lemma {:induction false} CleanFirst(c: Cache, ks: seq<Outpoint>)
    requires ks != [] && ValidCache(c, ks) && ks[0] in c.coins
    ensures var k, c' := ks[0], SetClean(c, ks[0]);
            ValidCache(c', ks[1..]) && Changed(c, c', k) && k in c'.coins && c'.coins[k].coin == c.coins[k].coin
                && !c'.coins[k].Flagged()
  {
    WithoutFirst(ks);
    SetCleanListed(c, ks, 0);
    UsageChange(c.coins, SetClean(c, ks[0]).coins, ks[0]);
  }

  lemma {:induction false} EraseFirst(c: Cache, ks: seq<Outpoint>)
    requires ks != [] && ValidCache(c, ks) && ks[0] in c.coins && c.coins[ks[0]].coin.Spent?
    ensures var k, c' := ks[0], Erase(c, ks[0]);
            ValidCache(c', ks[1..]) && Changed(c, c', k) && k !in c'.coins
  {
    var k, c1 := ks[0], SetClean(c, ks[0]);
    CleanFirst(c, ks);
    WithoutFirst(ks);
    WithoutSelf(ks, 0);
    DropUnlisted(c1, ks[1..], k);
    UsageChange(c1.coins, c1.coins - {k}, k);
  }

  lemma {:induction false} CleanedStep(child: Cache, c: Cache, c': Cache, done: seq<Outpoint>, k: Outpoint)
    requires Cleaned(child, c, done) && k !in done && k in child.coins && Changed(c, c', k)
    requires if child.coins[k].coin.Spent? then k !in c'.coins
             else k in c'.coins && c'.coins[k].coin == child.coins[k].coin && !c'.coins[k].Flagged()
    ensures Cleaned(child, c', done + [k])
  {
    forall x ensures CleanedAt(child, c', done + [k], x) {
      assert CleanedAt(child, c, done, x);
      if x != k {
        assert SameFor(c, c', x);
      }
    }
  }

  lemma {:induction false} StillFlagged(child: Cache, c: Cache, ks: seq<Outpoint>, i: nat)
    requires Listed(child, ks) && i < |ks| && Cleaned(child, c, ks[..i])
    ensures ks[i] !in ks[..i] && ks[i] in child.coins && child.coins[ks[i]].Flagged()
    ensures ks[i] in c.coins && c.coins[ks[i]].coin == child.coins[ks[i]].coin
    ensures c.coins[ks[i]].isDirty == child.coins[ks[i]].isDirty && c.coins[ks[i]].isFresh == child.coins[ks[i]].isFresh
  {
    assert InPlace(child.coins, ks, i);
    forall j | 0 <= j < i ensures ks[j] != ks[i] {
      assert Apart(ks, j, i);
    }
    assert CleanedAt(child, c, ks[..i], ks[i]);
  }

  /** The state of the loop over the child's list, at its i-th key. */
  ghost predicate Writing(child: Cache, ks: seq<Outpoint>, p0: Cache, below: Outpoint -> Option<Coin>, willErase: bool,
                          i: nat, c: Cache, p: Cache, pks: seq<Outpoint>) {
    && i <= |ks| && ValidCache(p, pks) && Written(child, p0, p, below, ks[..i])
    && if willErase then c == child else ValidCache(c, ks[i..]) && Cleaned(child, c, ks[..i])
  }

  /** Write one entry if it is dirty. */
  method WriteNext(ghost child: Cache, ghost ks: seq<Outpoint>, ghost p0: Cache, ghost below: Outpoint -> Option<Coin>,
                   ghost willErase: bool, ghost i: nat, c: Cache, p: Cache, ghost pks: seq<Outpoint>, k: Outpoint)
    returns (p': Cache, threw: bool, ghost pks': seq<Outpoint>)
    requires Listed(child, ks) && Above(child, p0, below) && Writing(child, ks, p0, below, willErase, i, c, p, pks)
    requires i < |ks| && k == ks[i] && k in c.coins
    ensures !threw && ValidCache(p', pks') && Written(child, p0, p', below, ks[..i + 1])
  {
    p', threw, pks' := p, false, pks;
    KeyFacts(child, ks, p0, below, willErase, i, c, p, pks);
    assert ks[..i + 1] == ks[..i] + [k];
    if c.coins[k].isDirty {
      p', threw, pks' := WriteEntry(p, k, c.coins[k], pks, below(k));
      WrittenStep(child, p0, p, p', below, ks[..i], k);
    } else {
      WrittenSkip(child, p0, p, below, ks[..i], k);
    }
  }

  lemma {:induction false} KeyFacts(child: Cache, ks: seq<Outpoint>, p0: Cache, below: Outpoint -> Option<Coin>,
                                    willErase: bool, i: nat, c: Cache, p: Cache, pks: seq<Outpoint>)
    requires Listed(child, ks) && Above(child, p0, below) && Writing(child, ks, p0, below, willErase, i, c, p, pks)
    requires i < |ks|
    ensures var k := ks[i];
            && k !in ks[..i] && k in child.coins && k in c.coins && child.coins[k].Flagged()
            && c.coins[k].coin == child.coins[k].coin && c.coins[k].isDirty == child.coins[k].isDirty
            && c.coins[k].isFresh == child.coins[k].isFresh
            && OkAt(p, k, below(k)) && EntryOk(child.coins[k], See(p0, k, below(k)))
            && EntryOk(c.coins[k], See(p, k, below(k)))
  {
    var k := ks[i];
    ListFacts(child, ks, willErase, i, c);
    assert WrittenAt(child, p0, p, below, ks[..i], k);
    assert OkAt(child, k, See(p0, k, below(k)));
  }

  lemma {:induction false} EndOfList(ks: seq<Outpoint>, i: nat)
    requires i <= |ks|
    ensures LinkAt(ks, i) == Sentinel <==> i == |ks|
  {
  }

  /** Step to the next key; if the child will not be erased, take the current one off its list. */
  method NextAndMaybeErase(ghost child: Cache, ghost ks: seq<Outpoint>, willErase: bool, ghost i: nat, c: Cache,
                           k: Outpoint)
    returns (c': Cache, it: Link)
    requires ValidCache(child, ks) && i < |ks| && k == ks[i] && k in c.coins
    requires if willErase then c == child else ValidCache(c, ks[i..]) && Cleaned(child, c, ks[..i])
    ensures it == LinkAt(ks, i + 1)
    ensures if willErase then c' == child else ValidCache(c', ks[i + 1..]) && Cleaned(child, c', ks[..i + 1])
  {
    c', it := c, c.coins[k].next;
    if willErase {
      assert InPlace(child.coins, ks, i);
    } else {
      StillFlagged(child, c, ks, i);
      assert InPlace(c.coins, ks[i..], 0);
      c' := EraseOrClean(c, k, ks[i..]);
      assert ks[i..][1..] == ks[i + 1..] && ks[..i + 1] == ks[..i] + [k];
      CleanedStep(child, c, c', ks[..i], k);
    }
  }

  /** Write all flagged entries of child to p. Afterwards p shows what the child shows; unless the child
      is about to be erased, its spent entries are gone and the others are clean. */
  method BatchWrite(p: Cache, child: Cache, willErase: bool, ghost pks: seq<Outpoint>, ghost ks: seq<Outpoint>,
                    ghost below: Outpoint -> Option<Coin>)
    returns (p': Cache, child': Cache, threw: bool, ghost pks': seq<Outpoint>)
    requires ValidCache(p, pks) && OkOver(p, below) && ValidCache(child, ks) && Above(child, p, below)
    ensures !threw && ValidCache(p', pks') && Written(child, p, p', below, ks)
    ensures if willErase then child' == child else ValidCache(child', []) && Cleaned(child, child', ks)
  {
    p', child', threw, pks' := p, child, false, pks;
    ghost var i := 0;
    WrittenStart(child, p, below);
    forall x ensures CleanedAt(child, child, [], x) {
    }
    assert ks[0..] == ks && ks[..0] == [];
    var it := child.head;
    EndOfList(ks, 0);
    while it != Sentinel
      invariant Writing(child, ks, p, below, willErase, i, child', p', pks') && it == LinkAt(ks, i) && !threw
      decreases |ks| - i
    {
      EndOfList(ks, i);
      var k := it.key;
      KeyFacts(child, ks, p, below, willErase, i, child', p', pks');
      p', threw, pks' := WriteNext(child, ks, p, below, willErase, i, child', p', pks', k);
      child', it := NextAndMaybeErase(child, ks, willErase, i, child', k);
      i := i + 1;
    }
    EndOfList(ks, i);
    assert ks[..i] == ks && ks[i..] == [];
  }

  // ---- the database at the bottom ----

  ghost function DbView(db: map<Outpoint, Coin>, x: Outpoint): Option<Coin> {
    if x in db then AsView(db[x]) else None
  }

  ghost predicate DbWrittenAt(child: Cache, db0: map<Outpoint, Coin>, db: map<Outpoint, Coin>, done: seq<Outpoint>,
                              x: Outpoint) {
    DbView(db, x) == if x in done then See(child, x, DbView(db0, x)) else DbView(db0, x)
  }

  ghost predicate DbWritten(child: Cache, db0: map<Outpoint, Coin>, db: map<Outpoint, Coin>, done: seq<Outpoint>) {
    forall x {:trigger DbWrittenAt(child, db0, db, done, x)} :: DbWrittenAt(child, db0, db, done, x)
  }

  ghost predicate AboveDb(child: Cache, db: map<Outpoint, Coin>) {
    forall x {:trigger OkAt(child, x, DbView(db, x))} :: OkAt(child, x, DbView(db, x))
  }

  function DbPut(db: map<Outpoint, Coin>, k: Outpoint, e: Entry): map<Outpoint, Coin> {
    if !e.isDirty then db else if e.coin.Spent? then db - {k} else db[k := e.coin]
  }

  lemma {:induction false} DbStep(child: Cache, ks: seq<Outpoint>, db0: map<Outpoint, Coin>, db: map<Outpoint, Coin>,
                                  i: nat, e: Entry)
    requires Listed(child, ks) && i < |ks| && AboveDb(child, db0) && DbWritten(child, db0, db, ks[..i])
    requires ks[i] !in ks[..i] && ks[i] in child.coins && child.coins[ks[i]].Flagged()
    requires e.coin == child.coins[ks[i]].coin && e.isDirty == child.coins[ks[i]].isDirty
    ensures DbWritten(child, db0, DbPut(db, ks[i], e), ks[..i + 1])
  {
    var k := ks[i];
    assert ks[..i + 1] == ks[..i] + [k];
    assert OkAt(child, k, DbView(db0, k));
    var db', done := DbPut(db, k, e), ks[..i + 1];
    forall x ensures DbWrittenAt(child, db0, db', done, x) {
      assert DbWrittenAt(child, db0, db, ks[..i], x);
    }
  }

  /** Write all flagged entries of child to the database. */
  method BatchWriteDb(db: map<Outpoint, Coin>, child: Cache, willErase: bool, ghost ks: seq<Outpoint>)
    returns (db': map<Outpoint, Coin>, child': Cache)
    requires ValidCache(child, ks) && AboveDb(child, db)
    ensures DbWritten(child, db, db', ks)
    ensures if willErase then child' == child else ValidCache(child', []) && Cleaned(child, child', ks)
  {
    db', child' := db, child;
    ghost var i := 0;
    forall x ensures CleanedAt(child, child, [], x) && DbWrittenAt(child, db, db, [], x) {
    }
    assert ks[0..] == ks && ks[..0] == [];
    var it := child.head;
    EndOfList(ks, 0);
    while it != Sentinel
      invariant 0 <= i <= |ks| && it == LinkAt(ks, i) && DbWritten(child, db, db', ks[..i])
      invariant if willErase then child' == child else ValidCache(child', ks[i..]) && Cleaned(child, child', ks[..i])
      decreases |ks| - i
    {
      EndOfList(ks, i);
      var k := it.key;
      ListFacts(child, ks, willErase, i, child');
      DbStep(child, ks, db, db', i, child'.coins[k]);
      db' := DbPut(db', k, child'.coins[k]);
      child', it := NextAndMaybeErase(child, ks, willErase, i, child', k);
      i := i + 1;
    }
    EndOfList(ks, i);
    assert ks[..i] == ks && ks[i..] == [];
  }

  lemma {:induction false} ListFacts(child: Cache, ks: seq<Outpoint>, willErase: bool, i: nat, c: Cache)
    requires Listed(child, ks) && i < |ks|
    requires if willErase then c == child else ValidCache(c, ks[i..]) && Cleaned(child, c, ks[..i])
    ensures var k := ks[i];
            && k !in ks[..i] && k in child.coins && k in c.coins && child.coins[k].Flagged()
            && c.coins[k].coin == child.coins[k].coin && c.coins[k].isDirty == child.coins[k].isDirty
            && c.coins[k].isFresh == child.coins[k].isFresh
  {
    if willErase {
      assert InPlace(child.coins, ks, i);
      forall j | 0 <= j < i ensures ks[j] != ks[i] {
        assert Apart(ks, j, i);
      }
    } else {
      StillFlagged(child, c, ks, i);
    }
  }
}
