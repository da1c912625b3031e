/** A stack of write-back caches over a database, and the plain map it stands for at every level. */
module CoinsViews {
  import opened Options
  import opened CoinsCaches
  import opened CoinsBatches
  import CoinsSanity

  /** The unspent coin at k, seen from the top of the given caches. */
  ghost function Lookup(db: map<Outpoint, Coin>, caches: seq<Cache>, k: Outpoint): Option<Coin> {
    if caches == [] then DbView(db, k)
    else See(caches[|caches| - 1], k, Lookup(db, caches[..|caches| - 1], k))
  }

  /** Every entry agrees with the view below it. */
  ghost predicate Coherent(db: map<Outpoint, Coin>, caches: seq<Cache>) {
    forall i, x {:trigger CoherentAt(db, caches, i, x)} :: 0 <= i < |caches| ==> CoherentAt(db, caches, i, x)
  }

  ghost predicate CoherentAt(db: map<Outpoint, Coin>, caches: seq<Cache>, i: nat, x: Outpoint)
    requires i < |caches|
  {
    OkAt(caches[i], x, Lookup(db, caches[..i], x))
  }

  /** Both stacks show the same at all levels up to n. */
  ghost predicate SameViews(db: map<Outpoint, Coin>, caches: seq<Cache>, db': map<Outpoint, Coin>, caches': seq<Cache>,
                            n: nat)
    requires n <= |caches| && n <= |caches'|
  {
    forall i, x {:trigger SameAt(db, caches, db', caches', i, x)} :: 0 <= i <= n ==>
        SameAt(db, caches, db', caches', i, x)
  }

  ghost predicate SameAt(db: map<Outpoint, Coin>, caches: seq<Cache>, db': map<Outpoint, Coin>, caches': seq<Cache>,
                         i: nat, x: Outpoint)
    requires i <= |caches| && i <= |caches'|
  {
    Lookup(db', caches'[..i], x) == Lookup(db, caches[..i], x)
  }

  lemma {:induction false} LookupUp(db: map<Outpoint, Coin>, caches: seq<Cache>, i: nat, x: Outpoint)
    requires i < |caches|
    ensures Lookup(db, caches[..i + 1], x) == See(caches[i], x, Lookup(db, caches[..i], x))
  {
    assert caches[..i + 1][..i] == caches[..i];
  }

  /** A level that shows the same over the same stays the same further up. */
  lemma {:induction false} LookupSame(db: map<Outpoint, Coin>, caches: seq<Cache>, caches': seq<Cache>, j: nat, i: nat,
                                      x: Outpoint)
    requires j <= i <= |caches| == |caches'| && Lookup(db, caches[..j], x) == Lookup(db, caches'[..j], x)
    requires forall m :: j <= m < |caches| ==> caches'[m] == caches[m]
    ensures Lookup(db, caches[..i], x) == Lookup(db, caches'[..i], x)
    decreases i
  {
    if j < i {
      LookupSame(db, caches, caches', j, i - 1, x);
      LookupUp(db, caches, i - 1, x);
      LookupUp(db, caches', i - 1, x);
    }
  }

  /** Every entry of c agrees with what lower shows. */
  ghost predicate OkAbove(c: Cache, db: map<Outpoint, Coin>, lower: seq<Cache>) {
    forall x {:trigger OkAt(c, x, Lookup(db, lower, x))} :: OkAt(c, x, Lookup(db, lower, x))
  }

  lemma {:induction false} CoherentLevel(db: map<Outpoint, Coin>, caches: seq<Cache>, i: nat)
    requires Coherent(db, caches) && i < |caches|
    ensures OkAbove(caches[i], db, caches[..i])
  {
    forall x ensures OkAt(caches[i], x, Lookup(db, caches[..i], x)) {
      assert CoherentAt(db, caches, i, x);
    }
  }

  /** Replacing level j by one that shows the same: no view changes, and coherence is kept. */
  lemma {:induction false} ReplaceLevel(db: map<Outpoint, Coin>, caches: seq<Cache>, j: nat, c: Cache)
    requires j < |caches| && Coherent(db, caches)
    requires OkAbove(c, db, caches[..j])
    requires forall x {:trigger Lookup(db, caches[..j], x)} ::
               See(c, x, Lookup(db, caches[..j], x)) == See(caches[j], x, Lookup(db, caches[..j], x))
    ensures Coherent(db, caches[j := c]) && SameViews(db, caches, db, caches[j := c], |caches|)
  {
    var caches' := caches[j := c];
    forall i, x | 0 <= i <= |caches| ensures SameAt(db, caches, db, caches', i, x) {
      assert OkAt(c, x, Lookup(db, caches[..j], x));
      SameBelow(db, caches, j, c, i, x);
    }
    forall i, x | 0 <= i < |caches'| ensures CoherentAt(db, caches', i, x) {
      assert OkAt(c, x, Lookup(db, caches[..j], x));
      SameBelow(db, caches, j, c, i, x);
      assert CoherentAt(db, caches, i, x);
    }
  }

  lemma {:induction false} SameBelow(db: map<Outpoint, Coin>, caches: seq<Cache>, j: nat, c: Cache, i: nat, x: Outpoint)
    requires j < |caches| && i <= |caches|
    requires i > j ==> See(c, x, Lookup(db, caches[..j], x)) == See(caches[j], x, Lookup(db, caches[..j], x))
    ensures Lookup(db, caches[j := c][..i], x) == Lookup(db, caches[..i], x)
  {
    var caches' := caches[j := c];
    assert caches'[..j] == caches[..j];
    if i <= j {
      assert caches'[..i] == caches[..i];
    } else {
      LookupUp(db, caches, j, x);
      LookupUp(db, caches', j, x);
      LookupSame(db, caches, caches', j + 1, i, x);
    }
  }

  /** Replacing the top by a coherent one: the levels below are not affected. */
  lemma {:induction false} ReplaceTop(db: map<Outpoint, Coin>, caches: seq<Cache>, c: Cache)
    requires caches != [] && Coherent(db, caches)
    requires OkAbove(c, db, caches[..|caches| - 1])
    ensures var caches' := caches[|caches| - 1 := c];
            && Coherent(db, caches') && SameViews(db, caches, db, caches', |caches| - 1)
            && forall x :: Lookup(db, caches', x) == See(c, x, Lookup(db, caches[..|caches| - 1], x))
  {
    var top := |caches| - 1;
    var caches' := caches[top := c];
    assert caches'[..top] == caches[..top];
    forall i, x | 0 <= i <= top ensures SameAt(db, caches, db, caches', i, x) {
      assert caches'[..i] == caches[..i];
    }
    forall i, x | 0 <= i < |caches'| ensures CoherentAt(db, caches', i, x) {
      assert caches'[..i] == caches[..i];
      assert CoherentAt(db, caches, i, x);
      assert OkAt(c, x, Lookup(db, caches[..top], x));
    }
  }

  /** One changed entry: everything else still agrees with what is below. */
  lemma {:induction false} ChangedOk(c: Cache, c': Cache, k: Outpoint, db: map<Outpoint, Coin>, lower: seq<Cache>)
    requires Changed(c, c', k) && OkAt(c', k, Lookup(db, lower, k))
    requires OkAbove(c, db, lower)
    ensures OkAbove(c', db, lower)
    ensures forall x :: x != k ==> See(c', x, Lookup(db, lower, x)) == See(c, x, Lookup(db, lower, x))
  {
    forall x ensures OkAt(c', x, Lookup(db, lower, x)) {
      assert OkAt(c, x, Lookup(db, lower, x));
      assert x != k ==> SameFor(c, c', x);
    }
    forall x | x != k ensures See(c', x, Lookup(db, lower, x)) == See(c, x, Lookup(db, lower, x)) {
      assert SameFor(c, c', x);
    }
  }

  class CoinsStack {
    var db: map<Outpoint, Coin>
    /** From the one right above the database to the top. */
    var caches: seq<Cache>
    /** The order of each cache's list. */
    ghost var lists: seq<seq<Outpoint>>

    ghost predicate Valid()
      reads this
    {
      && |lists| == |caches| && Coherent(db, caches)
      && forall i :: 0 <= i < |caches| ==> ValidCache(caches[i], lists[i])
    }

    /** What the top of the stack shows. */
    ghost function View(k: Outpoint): Option<Coin>
      reads this
    {
      Lookup(db, caches, k)
    }

    constructor (database: map<Outpoint, Coin>)
      ensures Valid() && db == database && caches == []
    {
      db, caches, lists := database, [], [];
    }

    /** The entry for k in cache i, fetched from below if need be. */
    method FetchCoin(i: nat, k: Outpoint) returns (found: bool)
      requires Valid() && i < |caches|
      modifies this
      ensures Valid() && db == old(db) && |caches| == old(|caches|)
      ensures SameViews(old(db), old(caches), db, caches, |caches|)
      ensures forall j :: i < j < |caches| ==> caches[j] == old(caches[j])
      ensures found <==> k in caches[i].coins
      ensures !found ==> Lookup(db, caches[..i + 1], k).None?
      decreases i
    {
      if k in caches[i].coins {
        SameSelf(db, caches);
        return true;
      }
      var coin := GetBelow(i, k);
      if coin.None? {
        LookupUp(db, caches, i, k);
        return false;
      }
      ghost var before, lower := caches, caches[..i];
      CoherentLevel(db, caches, i);
      var c: Cache;
      ghost var ks: seq<Outpoint>;
      c, ks := FetchInto(caches[i], k, coin.value, lists[i]);
      ChangedOk(caches[i], c, k, db, lower);
      ReplaceLevel(db, caches, i, c);
      caches, lists := caches[i := c], lists[i := ks];
      SameTwice(old(db), old(caches), before, caches);
      return true;
    }

    /** What the view below cache i has for k; the database may have a spent coin. */
    method GetBelow(i: nat, k: Outpoint) returns (coin: Option<Coin>)
      requires Valid() && i < |caches|
      modifies this
      ensures Valid() && db == old(db) && |caches| == old(|caches|)
      ensures SameViews(old(db), old(caches), db, caches, |caches|)
      ensures forall j :: i <= j < |caches| ==> caches[j] == old(caches[j])
      ensures Lookup(db, caches[..i], k) == if coin.None? then None else AsView(coin.value)
      decreases i, 0
    {
      if i == 0 {
        coin := if k in db then Some(db[k]) else None;
        SameSelf(db, caches);
      } else {
        var found := FetchCoin(i - 1, k);
        LookupUp(db, caches, i - 1, k);
        coin := if found && caches[i - 1].coins[k].coin.Unspent? then Some(caches[i - 1].coins[k].coin) else None;
      }
    }

    /** Read a coin; fetching it may fill caches, but changes nothing that any level shows. */
    method GetCoin(k: Outpoint) returns (r: Option<Coin>)
      requires Valid() && caches != []
      modifies this
      ensures Valid() && db == old(db) && |caches| == old(|caches|)
      ensures r == old(View(k)) && SameViews(old(db), old(caches), db, caches, |caches|)
    {
      var top := |caches| - 1;
      var found := FetchCoin(top, k);
      ViewIsTop(old(db), old(caches), db, caches, k);
      LookupUp(db, caches, top, k);
      r := if found && caches[top].coins[k].coin.Unspent? then Some(caches[top].coins[k].coin) else None;
    }

    /** Add a coin at the top. A caller that rules out overwriting must know that there is no such coin. */
    method AddCoin(k: Outpoint, coin: Coin, possibleOverwrite: bool) returns (threw: bool)
      requires Valid() && caches != [] && coin.Unspent? && (possibleOverwrite || View(k).None?)
      modifies this
      ensures !threw && Valid() && db == old(db) && |caches| == old(|caches|)
      ensures SameViews(old(db), old(caches), db, caches, |caches| - 1)
      ensures forall x :: View(x) == if x == k && !coin.unspendable then Some(coin) else old(View(x))
    {
      var top := |caches| - 1;
      ghost var lower := caches[..top];
      CoherentLevel(db, caches, top);
      assert OkAt(caches[top], k, Lookup(db, lower, k));
      var c: Cache;
      ghost var ks: seq<Outpoint>;
      c, threw, ks := AddInto(caches[top], k, coin, possibleOverwrite, lists[top], Lookup(db, lower, k));
      ChangedOk(caches[top], c, k, db, lower);
      ReplaceTop(db, caches, c);
      caches, lists := caches[top := c], lists[top := ks];
    }

    /** Spend a coin at the top; moved is what was there. */
    method SpendCoin(k: Outpoint) returns (found: bool, moved: Coin)
      requires Valid() && caches != []
      modifies this
      ensures Valid() && db == old(db) && |caches| == old(|caches|)
      ensures SameViews(old(db), old(caches), db, caches, |caches| - 1)
      ensures forall x :: View(x) == if x == k then None else old(View(x))
      ensures AsView(moved) == old(View(k)) && (old(View(k)).Some? ==> found)
    {
      var top := |caches| - 1;
      found := FetchCoin(top, k);
      ghost var mid := caches;
      TopViews(old(db), old(caches), db, mid);
      LookupUp(db, caches, top, k);
      assert caches[..top + 1] == caches;
      moved := Spent;
      if found {
        moved := SpendTop(k);
        SameDown(old(db), old(caches), mid, caches, top);
      }
    }

    /** Spend a coin that has an entry in the top cache. */
    method SpendTop(k: Outpoint) returns (moved: Coin)
      requires Valid() && caches != [] && k in caches[|caches| - 1].coins
      modifies this
      ensures Valid() && db == old(db) && |caches| == old(|caches|)
      ensures SameViews(old(db), old(caches), db, caches, |caches| - 1)
      ensures forall x :: View(x) == if x == k then None else old(View(x))
      ensures AsView(moved) == old(View(k))
    {
      var top := |caches| - 1;
      ghost var lower := caches[..top];
      CoherentLevel(db, caches, top);
      assert OkAt(caches[top], k, Lookup(db, lower, k));
      var c: Cache;
      ghost var ks: seq<Outpoint>;
      c, moved, ks := SpendIn(caches[top], k, lists[top], Lookup(db, lower, k));
      ChangedOk(caches[top], c, k, db, lower);
      ReplaceTop(db, caches, c);
      caches, lists := caches[top := c], lists[top := ks];
    }

    /** Drop an unmodified entry of the top cache; nothing changes that any level shows. */
    method Uncache(k: Outpoint)
      requires Valid() && caches != []
      modifies this
      ensures Valid() && db == old(db) && |caches| == old(|caches|)
      ensures SameViews(old(db), old(caches), db, caches, |caches|)
      ensures caches == old(caches)[|caches| - 1 := caches[|caches| - 1]]
      ensures var was, now := old(caches)[|caches| - 1], caches[|caches| - 1];
              if k in was.coins && was.coins[k].Flagged() then now == was
              else k !in now.coins && forall x :: x != k ==> SameFor(was, now, x)
    {
      var top := |caches| - 1;
      ghost var lower := caches[..top];
      CoherentLevel(db, caches, top);
      assert OkAt(caches[top], k, Lookup(db, lower, k));
      var c: Cache;
      ghost var ks: seq<Outpoint>;
      c, ks := UncacheIn(caches[top], k, lists[top], Lookup(db, lower, k));
      ChangedOk(caches[top], c, k, db, lower);
      ReplaceLevel(db, caches, top, c);
      caches, lists := caches[top := c], lists[top := ks];
    }

    /** Put an empty cache on top; it shows what the one below shows. */
    method Push()
      requires Valid()
      modifies this
      ensures Valid() && db == old(db) && caches == old(caches) + [EmptyCache()]
      ensures forall x :: View(x) == old(View(x))
    {
      PushViews(db, caches);
      EmptyValid();
      caches, lists := caches + [EmptyCache()], lists + [[]];
    }

    /** Forget the top cache with all it holds. */
    method Pop()
      requires Valid() && caches != []
      modifies this
      ensures Valid() && db == old(db) && caches == old(caches[..|caches| - 1])
    {
      PopViews(db, caches);
      caches, lists := caches[..|caches| - 1], lists[..|caches| - 1];
    }

    /** The internal consistency check of any cache of the stack succeeds. */
    method SanityCheck(i: nat) returns (ok: bool)
      requires Valid() && i < |caches|
      ensures ok
    {
      CoherentLevel(db, caches, i);
      forall k | k in caches[i].coins ensures LegalFlags(caches[i].coins[k]) {
        assert OkAt(caches[i], k, Lookup(db, caches[..i], k));
      }
      ok := CoinsSanity.SanityCheck(caches[i], lists[i]);
    }

    /** Push all changes of the top cache to the view below and empty it. */
    method Flush() returns (threw: bool)
      requires Valid() && caches != []
      modifies this
      ensures !threw && Valid() && |caches| == old(|caches|) && WroteDown(old(db), old(caches), db, caches)
      ensures caches[|caches| - 1] == EmptyCache()
    {
      threw := WriteDown(true);
    }

    /** Push all changes of the top cache to the view below and keep its unspent entries, unflagged. */
    method Sync() returns (threw: bool)
      requires Valid() && caches != []
      modifies this
      ensures !threw && Valid() && |caches| == old(|caches|) && WroteDown(old(db), old(caches), db, caches)
      ensures AllClean(caches[|caches| - 1])
    {
      threw := WriteDown(false);
      if !threw && caches[|caches| - 1].head != Sentinel {
        // Not all flags were cleared.
        threw := true;
      }
    }

    /** Write the flagged entries of the top cache to the view below. */
    method WriteDown(willErase: bool) returns (threw: bool)
      requires Valid() && caches != []
      modifies this
      ensures !threw && Valid() && |caches| == old(|caches|) && WroteDown(old(db), old(caches), db, caches)
      ensures willErase ==> caches[|caches| - 1] == EmptyCache()
      ensures AllClean(caches[|caches| - 1]) && lists[|caches| - 1] == []
    {
      var top := |caches| - 1;
      threw := false;
      if top == 0 {
        WriteToDb(willErase);
      } else {
        threw := WriteToCache(willErase);
      }
    }

    method WriteToDb(willErase: bool)
      requires Valid() && |caches| == 1
      modifies this
      ensures Valid() && |caches| == 1 && WroteDown(old(db), old(caches), db, caches)
      ensures willErase ==> caches[0] == EmptyCache()
      ensures AllClean(caches[0]) && lists[0] == []
    {
      ghost var db0, ks := db, lists[0];
      var child := caches[0];
      BottomAbove(db, caches);
      var db', child' := BatchWriteDb(db, child, willErase, ks);
      if willErase {
        child' := EmptyCache();
        EmptyValid();
      }
      FlushedDb(db0, caches, db', child', ks, willErase);
      db, caches, lists := db', [child'], [[]];
    }

    method WriteToCache(willErase: bool) returns (threw: bool)
      requires Valid() && |caches| > 1
      modifies this
      ensures !threw && Valid() && db == old(db) && |caches| == old(|caches|)
      ensures WroteDown(old(db), old(caches), db, caches)
      ensures willErase ==> caches[|caches| - 1] == EmptyCache()
      ensures AllClean(caches[|caches| - 1]) && lists[|caches| - 1] == []
    {
      var top := |caches| - 1;
      ghost var d, lower, ks := db, caches[..top - 1], lists[top];
      ghost var below := (x: Outpoint) => Lookup(d, lower, x);
      var parent, child := caches[top - 1], caches[top];
      ParentAbove(d, caches, below);
      var parent', child': Cache;
      ghost var pks: seq<Outpoint>;
      parent', child', threw, pks := BatchWrite(parent, child, willErase, lists[top - 1], ks, below);
      if willErase {
        child' := EmptyCache();
        EmptyValid();
      }
      FlushedCache(d, caches, below, parent', child', ks, willErase);
      TopTwoValid(caches, lists, parent', pks, child');
      caches, lists := caches[top - 1 := parent'][top := child'], lists[top - 1 := pks][top := []];
    }
  }

  lemma {:induction false} TopTwoValid(caches: seq<Cache>, lists: seq<seq<Outpoint>>, p: Cache, pks: seq<Outpoint>,
                                       c: Cache)
    requires |lists| == |caches| > 1 && ValidCache(p, pks) && ValidCache(c, [])
    requires forall i :: 0 <= i < |caches| ==> ValidCache(caches[i], lists[i])
    ensures var top := |caches| - 1;
            var caches', lists' := caches[top - 1 := p][top := c], lists[top - 1 := pks][top := []];
            forall i :: 0 <= i < |caches'| ==> ValidCache(caches'[i], lists'[i])
  {
  }

  lemma {:induction false} SameSelf(db: map<Outpoint, Coin>, caches: seq<Cache>)
    ensures SameViews(db, caches, db, caches, |caches|)
  {
  }

  lemma {:induction false} SameTwice(db: map<Outpoint, Coin>, a: seq<Cache>, b: seq<Cache>, c: seq<Cache>)
    requires |a| == |b| == |c| && SameViews(db, a, db, b, |a|) && SameViews(db, b, db, c, |a|)
    ensures SameViews(db, a, db, c, |a|)
  {
    forall i, x | 0 <= i <= |a| ensures SameAt(db, a, db, c, i, x) {
      assert SameAt(db, a, db, b, i, x) && SameAt(db, b, db, c, i, x);
    }
  }

  lemma {:induction false} ViewIsTop(db: map<Outpoint, Coin>, caches: seq<Cache>, db': map<Outpoint, Coin>,
                                     caches': seq<Cache>, k: Outpoint)
    requires |caches| == |caches'| && SameViews(db, caches, db', caches', |caches|)
    ensures Lookup(db', caches', k) == Lookup(db, caches, k) && caches'[..|caches'|] == caches'
  {
    assert SameAt(db, caches, db', caches', |caches|, k);
    assert caches[..|caches|] == caches && caches'[..|caches'|] == caches';
  }

  lemma {:induction false} TopViews(db: map<Outpoint, Coin>, caches: seq<Cache>, db': map<Outpoint, Coin>,
                                    caches': seq<Cache>)
    requires |caches| == |caches'| && SameViews(db, caches, db', caches', |caches|)
    ensures forall x :: Lookup(db', caches', x) == Lookup(db, caches, x)
  {
    forall x ensures Lookup(db', caches', x) == Lookup(db, caches, x) {
      ViewIsTop(db, caches, db', caches', x);
    }
  }

  lemma {:induction false} SameDown(db: map<Outpoint, Coin>, a: seq<Cache>, b: seq<Cache>, c: seq<Cache>, n: nat)
    requires |a| == |b| == |c| && n <= |a| && SameViews(db, a, db, b, |a|) && SameViews(db, b, db, c, n)
    ensures SameViews(db, a, db, c, n)
  {
    forall i, x | 0 <= i <= n ensures SameAt(db, a, db, c, i, x) {
      assert SameAt(db, a, db, b, i, x) && SameAt(db, b, db, c, i, x);
    }
  }

  lemma {:induction false} EmptyValid()
    ensures ValidCache(EmptyCache(), [])
  {
  }

  lemma {:induction false} PushViews(db: map<Outpoint, Coin>, caches: seq<Cache>)
    requires Coherent(db, caches)
    ensures var caches' := caches + [EmptyCache()];
            Coherent(db, caches') && forall x :: Lookup(db, caches', x) == Lookup(db, caches, x)
  {
    var caches' := caches + [EmptyCache()];
    assert caches'[..|caches|] == caches;
    forall i, x | 0 <= i < |caches'| ensures CoherentAt(db, caches', i, x) {
      assert caches'[..i] == caches[..i];
      if i < |caches| {
        assert CoherentAt(db, caches, i, x);
      }
    }
  }

  lemma {:induction false} PopViews(db: map<Outpoint, Coin>, caches: seq<Cache>)
    requires Coherent(db, caches) && caches != []
    ensures Coherent(db, caches[..|caches| - 1])
  {
    var caches' := caches[..|caches| - 1];
    forall i, x | 0 <= i < |caches'| ensures CoherentAt(db, caches', i, x) {
      assert caches'[..i] == caches[..i];
      assert CoherentAt(db, caches, i, x);
    }
  }

  /** Writing down: the level below the top and the top show what the top showed; the others are as before. */
  ghost predicate WroteDown(db: map<Outpoint, Coin>, caches: seq<Cache>, db': map<Outpoint, Coin>, caches': seq<Cache>)
    requires |caches| == |caches'| && caches != []
  {
    var top := |caches| - 1;
    && (forall x :: Lookup(db', caches', x) == Lookup(db, caches, x))
    && (forall x :: Lookup(db', caches'[..top], x) == Lookup(db, caches, x))
    && (top > 0 ==> SameViews(db, caches, db', caches', top - 1))
  }

  lemma {:induction false} BottomAbove(db: map<Outpoint, Coin>, caches: seq<Cache>)
    requires |caches| == 1 && Coherent(db, caches)
    ensures AboveDb(caches[0], db)
  {
    forall x ensures OkAt(caches[0], x, DbView(db, x)) {
      assert CoherentAt(db, caches, 0, x);
    }
  }

  lemma {:induction false} ParentAbove(db: map<Outpoint, Coin>, caches: seq<Cache>, below: Outpoint -> Option<Coin>)
    requires |caches| > 1 && Coherent(db, caches) && forall x :: below(x) == Lookup(db, caches[..|caches| - 2], x)
    ensures OkOver(caches[|caches| - 2], below) && Above(caches[|caches| - 1], caches[|caches| - 2], below)
  {
    var top := |caches| - 1;
    forall x ensures OkAt(caches[top - 1], x, below(x)) {
      assert CoherentAt(db, caches, top - 1, x);
    }
    forall x ensures OkAt(caches[top], x, See(caches[top - 1], x, below(x))) {
      LookupUp(db, caches, top - 1, x);
      assert CoherentAt(db, caches, top, x);
    }
  }

  ghost predicate AllClean(c: Cache) {
    forall x :: x in c.coins ==> !c.coins[x].Flagged()
  }

  /** What is left of a cache after its entries have been written. */
  ghost predicate LeftOver(child: Cache, c: Cache, ks: seq<Outpoint>, willErase: bool) {
    if willErase then c == EmptyCache() else Cleaned(child, c, ks)
  }

  /** What is left agrees with a view that shows what the child showed, b being what it showed it over. */
  lemma {:induction false} LeftOverOk(child: Cache, c: Cache, ks: seq<Outpoint>, willErase: bool, x: Outpoint,
                                      b: Option<Coin>)
    requires Listed(child, ks) && LeftOver(child, c, ks, willErase) && OkAt(child, x, b)
    ensures OkAt(c, x, See(child, x, b)) && See(c, x, See(child, x, b)) == See(child, x, b)
    ensures x in c.coins ==> !c.coins[x].Flagged()
  {
    if !willErase {
      assert CleanedAt(child, c, ks, x);
      if x in child.coins {
        ListedFlagged(child, ks, x);
      }
    }
  }

  lemma {:induction false} DbShows(child: Cache, ks: seq<Outpoint>, db: map<Outpoint, Coin>, db': map<Outpoint, Coin>,
                                   x: Outpoint)
    requires Listed(child, ks) && DbWritten(child, db, db', ks) && OkAt(child, x, DbView(db, x))
    ensures DbView(db', x) == See(child, x, DbView(db, x))
  {
    assert DbWrittenAt(child, db, db', ks, x);
    if x in child.coins {
      ListedFlagged(child, ks, x);
    }
  }

  lemma {:induction false} FlushedDb(db: map<Outpoint, Coin>, caches: seq<Cache>, db': map<Outpoint, Coin>, c: Cache,
                                     ks: seq<Outpoint>, willErase: bool)
    requires |caches| == 1 && Coherent(db, caches) && Listed(caches[0], ks) && DbWritten(caches[0], db, db', ks)
    requires LeftOver(caches[0], c, ks, willErase)
    ensures Coherent(db', [c]) && WroteDown(db, caches, db', [c]) && AllClean(c)
  {
    var child := caches[0];
    assert caches[..0] == [] && [c][..0] == [];
    forall x
      ensures OkAt(c, x, DbView(db', x)) && (x in c.coins ==> !c.coins[x].Flagged())
      ensures Lookup(db', [c], x) == Lookup(db, caches, x) == DbView(db', x)
    {
      assert CoherentAt(db, caches, 0, x);
      DbShows(child, ks, db, db', x);
      LeftOverOk(child, c, ks, willErase, x, DbView(db, x));
    }
    forall i, x | 0 <= i < 1 ensures CoherentAt(db', [c], i, x) {
      assert OkAt(c, x, DbView(db', x));
    }
  }

  lemma {:induction false} FlushedCache(db: map<Outpoint, Coin>, caches: seq<Cache>, below: Outpoint -> Option<Coin>,
                                        p: Cache, c: Cache, ks: seq<Outpoint>, willErase: bool)
    requires |caches| > 1 && Coherent(db, caches) && forall x :: below(x) == Lookup(db, caches[..|caches| - 2], x)
    requires Listed(caches[|caches| - 1], ks) && Written(caches[|caches| - 1], caches[|caches| - 2], p, below, ks)
    requires LeftOver(caches[|caches| - 1], c, ks, willErase)
    ensures var caches' := caches[|caches| - 2 := p][|caches| - 1 := c];
            Coherent(db, caches') && WroteDown(db, caches, db, caches') && AllClean(c)
  {
    var top := |caches| - 1;
    var caches', lower := caches[top - 1 := p][top := c], caches[..top - 1];
    assert caches'[..top - 1] == lower;
    forall x
      ensures OkAt(p, x, Lookup(db, lower, x)) && OkAt(c, x, Lookup(db, caches'[..top], x))
      ensures (x in c.coins ==> !c.coins[x].Flagged())
      ensures Lookup(db, caches', x) == Lookup(db, caches, x) == Lookup(db, caches'[..top], x)
    {
      FlushedAt(db, caches, below, p, c, ks, willErase, x);
    }
    forall i, x | 0 <= i < |caches'| ensures CoherentAt(db, caches', i, x) {
      if i < top - 1 {
        assert caches'[..i] == caches[..i];
        assert CoherentAt(db, caches, i, x);
      }
      assert OkAt(p, x, Lookup(db, lower, x)) && OkAt(c, x, Lookup(db, caches'[..top], x));
    }
    forall i, x | 0 <= i <= top - 1 ensures SameAt(db, caches, db, caches', i, x) {
      assert caches'[..i] == caches[..i];
    }
  }

  lemma {:induction false} FlushedAt(db: map<Outpoint, Coin>, caches: seq<Cache>, below: Outpoint -> Option<Coin>,
                                     p: Cache, c: Cache, ks: seq<Outpoint>, willErase: bool, x: Outpoint)
    requires |caches| > 1 && Coherent(db, caches) && forall x :: below(x) == Lookup(db, caches[..|caches| - 2], x)
    requires Listed(caches[|caches| - 1], ks) && Written(caches[|caches| - 1], caches[|caches| - 2], p, below, ks)
    requires LeftOver(caches[|caches| - 1], c, ks, willErase)
    ensures var top := |caches| - 1;
            var caches' := caches[top - 1 := p][top := c];
            && OkAt(p, x, Lookup(db, caches[..top - 1], x)) && OkAt(c, x, Lookup(db, caches'[..top], x))
            && Lookup(db, caches', x) == Lookup(db, caches, x) == Lookup(db, caches'[..top], x)
            && (x in c.coins ==> !c.coins[x].Flagged())
  {
    var top := |caches| - 1;
    var caches', child, parent := caches[top - 1 := p][top := c], caches[top], caches[top - 1];
    assert caches'[..top - 1] == caches[..top - 1];
    assert caches'[..top + 1] == caches' && caches[..top + 1] == caches;
    LookupUp(db, caches, top - 1, x);
    LookupUp(db, caches, top, x);
    LookupUp(db, caches', top - 1, x);
    LookupUp(db, caches', top, x);
    ParentAbove(db, caches, below);
    WrittenAll(child, ks, parent, p, below, x);
    assert OkAt(child, x, See(parent, x, below(x)));
    LeftOverOk(child, c, ks, willErase, x, See(parent, x, below(x)));
  }
}
