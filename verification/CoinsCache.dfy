/** One level of the coins cache: a map of entries with DIRTY and FRESH flags, and the circular doubly
    linked list, through a sentinel, of the flagged ones. */
module CoinsCaches {
  import opened Options

  type Outpoint = nat

  /** A coin is spent, or holds an output; mem is the memory its script takes. */
  datatype Coin = Spent | Unspent(out: nat, mem: nat, unspendable: bool) {
    function Usage(): nat {
      if Spent? then 0 else mem
    }
  }

  datatype Link = Null | Sentinel | To(key: Outpoint)

  datatype Entry = Entry(coin: Coin, isDirty: bool, isFresh: bool, prev: Link, next: Link) {
    predicate Flagged() {
      isDirty || isFresh
    }
  }

  /** The sentinel's links are head (its next) and tail (its previous). */
  datatype Cache = Cache(coins: map<Outpoint, Entry>, head: Link, tail: Link, usage: int)

  function EmptyCache(): Cache {
    Cache(map[], Sentinel, Sentinel, 0)
  }

  // ---- the list ----

  function SetNext(c: Cache, at: Link, next: Link): Cache {
    match at
    case Sentinel => c.(head := next)
    case To(k) => if k in c.coins then c.(coins := c.coins[k := c.coins[k].(next := next)]) else c
    case Null => c
  }

  function SetPrev(c: Cache, at: Link, prev: Link): Cache {
    match at
    case Sentinel => c.(tail := prev)
    case To(k) => if k in c.coins then c.(coins := c.coins[k := c.coins[k].(prev := prev)]) else c
    case Null => c
  }

  /** Set flags of an entry, which joins the end of the list if it had none. */
  function AddFlags(c: Cache, k: Outpoint, isDirty: bool, isFresh: bool): Cache
    requires k in c.coins
  {
    var e := c.coins[k];
    var c1 := if e.Flagged() then c
              else SetNext(c.(coins := c.coins[k := e.(prev := c.tail, next := Sentinel)], tail := To(k)), c.tail,
                           To(k));
    if k in c1.coins then
      c1.(coins := c1.coins[k := c1.coins[k].(isDirty := c1.coins[k].isDirty
                                              || isDirty, isFresh := c1.coins[k].isFresh || isFresh)])
    else c1
  }

  /** Clear the flags of an entry, which leaves the list. */
  function SetClean(c: Cache, k: Outpoint): Cache
    requires k in c.coins
  {
    var e := c.coins[k];
    if !e.Flagged() then c
    else
      var c1 := SetNext(SetPrev(c, e.next, e.prev), e.prev, e.next);
      if k in c1.coins then c1.(coins := c1.coins[k := c1.coins[k].(isDirty := false, isFresh := false, prev := Null,
                                                                    next := Null)])
      else c1
  }

  /** Remove an entry; its destructor takes it off the list. */
  function Erase(c: Cache, k: Outpoint): Cache
    requires k in c.coins
  {
    var c1 := SetClean(c, k);
    c1.(coins := c1.coins - {k})
  }

  function LinkAt(ks: seq<Outpoint>, i: int): Link {
    if 0 <= i < |ks| then To(ks[i]) else Sentinel
  }

  /** No key twice, stated so that it is looked into only where two keys are compared. */
  ghost predicate AllApart(ks: seq<Outpoint>) {
    forall i, j {:trigger Apart(ks, i, j)} :: 0 <= i < |ks| && 0 <= j < |ks| && i != j ==> Apart(ks, i, j)
  }

  ghost predicate Apart(ks: seq<Outpoint>, i: nat, j: nat)
    requires i < |ks| && j < |ks|
  {
    ks[i] != ks[j]
  }

  /** The entry of the i-th key of ks is flagged and points to its neighbours in ks. */
  ghost predicate InPlace(coins: map<Outpoint, Entry>, ks: seq<Outpoint>, i: nat)
    requires i < |ks|
  {
    && ks[i] in coins && coins[ks[i]].Flagged()
    && coins[ks[i]].prev == LinkAt(ks, i - 1) && coins[ks[i]].next == LinkAt(ks, i + 1)
  }

  /** The list runs through exactly the flagged entries, in the order ks. */
  ghost predicate Listed(c: Cache, ks: seq<Outpoint>) {
    && AllApart(ks) && c.head == LinkAt(ks, 0) && c.tail == LinkAt(ks, |ks| - 1)
    && (forall i {:trigger InPlace(c.coins, ks, i)} :: 0 <= i < |ks| ==> InPlace(c.coins, ks, i))
    && (forall k {:trigger c.coins[k]} :: k in c.coins && k !in ks ==> Unlisted(c.coins[k]))
  }

  ghost predicate Unlisted(e: Entry) {
    !e.Flagged() && e.prev == Null && e.next == Null
  }

  /** Everything about an entry but its place in the list. */
  ghost predicate SameFor(c: Cache, c': Cache, k: Outpoint) {
    && (k in c'.coins <==> k in c.coins)
    && (k in c.coins ==>
        c'.coins[k].coin == c.coins[k].coin && c'.coins[k].isDirty == c.coins[k].isDirty
            && c'.coins[k].isFresh == c.coins[k].isFresh)
  }

  lemma {:induction false} ListedFlagged(c: Cache, ks: seq<Outpoint>, k: Outpoint)
    requires Listed(c, ks) && k in c.coins
    ensures k in ks <==> c.coins[k].Flagged()
  {
    if k in ks {
      var i :| 0 <= i < |ks| && ks[i] == k;
      assert InPlace(c.coins, ks, i);
    } else {
      assert Unlisted(c.coins[k]);
    }
  }

  /** Flagging an entry: it is in the list afterwards, at the end if it was not before; no other entry
      changes but for its place in the list. */
  lemma {:induction false} AddFlagsListed(c: Cache, ks: seq<Outpoint>, k: Outpoint, isDirty: bool, isFresh: bool)
    requires Listed(c, ks) && k in c.coins && (isDirty || isFresh)
    ensures var c', e := AddFlags(c, k, isDirty, isFresh), c.coins[k];
            && Listed(c', if e.Flagged() then ks else ks + [k]) && c'.usage == c.usage
            && (forall x :: x != k ==> SameFor(c, c', x))
            && k in c'.coins && c'.coins[k].coin == e.coin && c'.coins[k].isDirty == (e.isDirty || isDirty)
            && c'.coins[k].isFresh == (e.isFresh || isFresh)
  {
    ListedFlagged(c, ks, k);
    var c', e := AddFlags(c, k, isDirty, isFresh), c.coins[k];
    if e.Flagged() {
      forall i | 0 <= i < |ks| ensures InPlace(c'.coins, ks, i) {
        assert InPlace(c.coins, ks, i);
      }
    } else {
      var ks' := ks + [k];
      AppendApart(ks, k);
      if ks != [] {
        assert InPlace(c.coins, ks, |ks| - 1);
      }
      forall i | 0 <= i < |ks'| ensures InPlace(c'.coins, ks', i) {
        if i < |ks| {
          assert InPlace(c.coins, ks, i);
        }
      }
    }
  }

  /** ks without its i-th key. */
  function Without(ks: seq<Outpoint>, i: nat): seq<Outpoint>
    requires i < |ks|
  {
    ks[..i] + ks[i + 1..]
  }

  /** What unlinking entry k leaves of entry x. */
  function Relinked(e: Entry, k: Outpoint, x: Outpoint, old': Entry): Entry {
    if x == k then Entry(old'.coin, false, false, Null, Null)
    else old'.(prev := if e.next == To(x) then e.prev else old'.prev, next := if e.prev == To(x) then e.next
               else old'.next)
  }

  lemma {:induction false} SetCleanAt(c: Cache, k: Outpoint)
    requires k in c.coins && c.coins[k].Flagged() && c.coins[k].prev != Null && c.coins[k].next != Null
    requires c.coins[k].prev != To(k) && c.coins[k].next != To(k)
    ensures var c', e := SetClean(c, k), c.coins[k];
            && c'.coins.Keys == c.coins.Keys && c'.usage == c.usage
            && (forall x :: x in c.coins ==> c'.coins[x] == Relinked(e, k, x, c.coins[x]))
            && c'.head == (if e.prev == Sentinel then e.next else c.head)
            && c'.tail == (if e.next == Sentinel then e.prev else c.tail)
  {
  }

  lemma {:induction false} SetCleanListed(c: Cache, ks: seq<Outpoint>, i: nat)
    requires Listed(c, ks) && i < |ks| && ks[i] in c.coins
    ensures var c' := SetClean(c, ks[i]);
            && Listed(c', Without(ks, i)) && c'.usage == c.usage
            && (forall x :: x != ks[i] ==> SameFor(c, c', x))
            && ks[i] in c'.coins && c'.coins[ks[i]] == Entry(c.coins[ks[i]].coin, false, false, Null, Null)
  {
    var k, c', ks' := ks[i], SetClean(c, ks[i]), Without(ks, i);
    assert InPlace(c.coins, ks, i);
    if i > 0 {
      assert Apart(ks, i - 1, i);
    }
    if i + 1 < |ks| {
      assert Apart(ks, i + 1, i);
    }
    SetCleanAt(c, k);
    WithoutApart(ks, i);
    forall j | 0 <= j < |ks'| ensures InPlace(c'.coins, ks', j) {
      RelinkedInPlace(c, ks, i, c', j);
    }
    forall x | x in c'.coins && x !in ks' ensures Unlisted(c'.coins[x]) {
      if x != k {
        WithoutOther(ks, i, x);
        assert Unlisted(c.coins[x]);
        NotLinked(ks, i, x);
      }
    }
  }

  lemma {:induction false} NotLinked(ks: seq<Outpoint>, i: nat, x: Outpoint)
    requires i < |ks| && x !in ks
    ensures LinkAt(ks, i - 1) != To(x) && LinkAt(ks, i + 1) != To(x)
  {
  }

  lemma {:induction false} RelinkedInPlace(c: Cache, ks: seq<Outpoint>, i: nat, c': Cache, j: nat)
    requires Listed(c, ks) && i < |ks| && InPlace(c.coins, ks, i) && j < |ks| - 1
    requires c'.coins.Keys == c.coins.Keys
    requires forall x :: x in c.coins ==> c'.coins[x] == Relinked(c.coins[ks[i]], ks[i], x, c.coins[x])
    ensures InPlace(c'.coins, Without(ks, i), j)
  {
    var ks', j' := Without(ks, i), if j < i then j else j + 1;
    WithoutAt(ks, i, j);
    assert InPlace(c.coins, ks, j');
    var x := ks[j'];
    assert c'.coins[x] == Relinked(c.coins[ks[i]], ks[i], x, c.coins[x]);
    assert Apart(ks, j', i);
    assert i + 1 < |ks| && j' != i + 1 ==> Apart(ks, i + 1, j');
    assert i > 0 && j' != i - 1 ==> Apart(ks, i - 1, j');
  }

  lemma {:induction false} WithoutAt(ks: seq<Outpoint>, i: nat, j: nat)
    requires i < |ks| && j < |ks| - 1
    ensures |Without(ks, i)| == |ks| - 1
    ensures Without(ks, i)[j] == ks[if j < i then j else j + 1]
    ensures LinkAt(Without(ks, i), j + 1) == LinkAt(ks, if j + 1 < i then j + 1 else j + 2)
    ensures LinkAt(Without(ks, i), j - 1) == LinkAt(ks, if j - 1 < i then j - 1 else j)
  {
  }

  lemma {:induction false} WithoutOther(ks: seq<Outpoint>, i: nat, x: Outpoint)
    requires i < |ks| && x != ks[i]
    ensures x in Without(ks, i) <==> x in ks
  {
    assert ks == ks[..i] + [ks[i]] + ks[i + 1..];
  }

  lemma {:induction false} EraseListed(c: Cache, ks: seq<Outpoint>, k: Outpoint) returns (ks': seq<Outpoint>)
    requires Listed(c, ks) && k in c.coins
    ensures Listed(Erase(c, k), ks') && k !in Erase(c, k).coins && Erase(c, k).usage == c.usage
    ensures Changed(c, Erase(c, k), k)
  {
    ListedFlagged(c, ks, k);
    if c.coins[k].Flagged() {
      var i :| 0 <= i < |ks| && ks[i] == k;
      EraseFlagged(c, ks, i);
      ks' := Without(ks, i);
    } else {
      DropUnlisted(c, ks, k);
      ks' := ks;
    }
  }

  lemma {:induction false} EraseFlagged(c: Cache, ks: seq<Outpoint>, i: nat)
    requires Listed(c, ks) && i < |ks| && ks[i] in c.coins
    ensures Listed(Erase(c, ks[i]), Without(ks, i)) && Erase(c, ks[i]).usage == c.usage
    ensures Changed(c, Erase(c, ks[i]), ks[i])
  {
    var c1 := SetClean(c, ks[i]);
    SetCleanListed(c, ks, i);
    WithoutSelf(ks, i);
    DropUnlisted(c1, Without(ks, i), ks[i]);
    ChangedDrop(c, c1, ks[i]);
  }

  lemma {:induction false} ChangedDrop(c: Cache, c1: Cache, k: Outpoint)
    requires Changed(c, c1, k)
    ensures Changed(c, c1.(coins := c1.coins - {k}), k)
  {
    var c' := c1.(coins := c1.coins - {k});
    forall x | x != k ensures SameFor(c, c', x) {
      assert SameFor(c, c1, x);
    }
  }

  lemma {:induction false} WithoutSelf(ks: seq<Outpoint>, i: nat)
    requires AllApart(ks) && i < |ks|
    ensures ks[i] !in Without(ks, i)
  {
    forall j | 0 <= j < |ks| - 1 ensures Without(ks, i)[j] != ks[i] {
      WithoutAt(ks, i, j);
      assert Apart(ks, if j < i then j else j + 1, i);
    }
  }

  lemma {:induction false} WithoutApart(ks: seq<Outpoint>, i: nat)
    requires AllApart(ks) && i < |ks|
    ensures AllApart(Without(ks, i))
  {
    var ks' := Without(ks, i);
    forall a, b | 0 <= a < |ks'| && 0 <= b < |ks'| && a != b ensures Apart(ks', a, b) {
      WithoutAt(ks, i, a);
      WithoutAt(ks, i, b);
      assert Apart(ks, if a < i then a else a + 1, if b < i then b else b + 1);
    }
  }

  lemma {:induction false} AppendApart(ks: seq<Outpoint>, k: Outpoint)
    requires AllApart(ks) && k !in ks
    ensures AllApart(ks + [k])
  {
    var ks' := ks + [k];
    forall a, b | 0 <= a < |ks'| && 0 <= b < |ks'| && a != b ensures Apart(ks', a, b) {
      if a < |ks| && b < |ks| {
        assert Apart(ks, a, b);
      }
    }
  }

  lemma {:induction false} DropUnlisted(c: Cache, ks: seq<Outpoint>, k: Outpoint)
    requires Listed(c, ks) && k !in ks
    ensures Listed(c.(coins := c.coins - {k}), ks)
  {
    forall i | 0 <= i < |ks| ensures InPlace(c.coins - {k}, ks, i) {
      assert InPlace(c.coins, ks, i);
    }
  }

  // ---- memory usage ----

  ghost function UsageOf(m: map<Outpoint, Entry>): nat
    decreases |m|
  {
    if m == map[] then 0 else var k :| k in m; m[k].coin.Usage() + UsageOf(m - {k})
  }

  lemma {:induction false} UsageRemove(m: map<Outpoint, Entry>, k: Outpoint)
    requires k in m
    ensures UsageOf(m) == m[k].coin.Usage() + UsageOf(m - {k})
    decreases |m|
  {
    var x :| x in m && UsageOf(m) == m[x].coin.Usage() + UsageOf(m - {x});
    if x != k {
      UsageRemove(m - {x}, k);
      UsageRemove(m - {k}, x);
      assert m - {x} - {k} == m - {k} - {x};
    }
  }

  lemma {:induction false} UsageSame(m: map<Outpoint, Entry>, m': map<Outpoint, Entry>)
    requires m.Keys == m'.Keys && forall k :: k in m ==> m'[k].coin == m[k].coin
    ensures UsageOf(m) == UsageOf(m')
    decreases |m|
  {
    if m != map[] {
      var k :| k in m;
      UsageRemove(m, k);
      UsageRemove(m', k);
      UsageSame(m - {k}, m' - {k});
    } else {
      assert m' == map[];
    }
  }

  /** The usage of m and m' differs by what differs at k. */
  lemma {:induction false} UsageChange(m: map<Outpoint, Entry>, m': map<Outpoint, Entry>, k: Outpoint)
    requires forall x :: x != k ==> (x in m <==> x in m') && (x in m ==> m'[x].coin == m[x].coin)
    ensures UsageOf(m') + (if k in m then m[k].coin.Usage() else 0)
        == UsageOf(m) + (if k in m' then m'[k].coin.Usage() else 0)
  {
    if k in m {
      UsageRemove(m, k);
    }
    if k in m' {
      UsageRemove(m', k);
    }
    assert k !in m ==> m - {k} == m;
    assert k !in m' ==> m' - {k} == m';
    UsageSame(m - {k}, m' - {k});
  }

  // ---- what an entry may say ----

  function AsView(coin: Coin): Option<Coin> {
    if coin.Spent? then None else Some(coin)
  }

  /** The five legal combinations of spent, DIRTY and FRESH. */
  predicate LegalFlags(e: Entry) {
    if e.coin.Spent? then e.isDirty != e.isFresh else e.isFresh ==> e.isDirty
  }

  /** An entry above a view that has b: without flags it repeats b, and FRESH means there is none below. */
  predicate EntryOk(e: Entry, b: Option<Coin>) {
    LegalFlags(e) && (e.isFresh ==> b.None?) && (!e.Flagged() ==> b == Some(e.coin))
  }

  ghost predicate Changed(c: Cache, c': Cache, k: Outpoint) {
    forall x :: x != k ==> SameFor(c, c', x)
  }

  ghost predicate ValidCache(c: Cache, ks: seq<Outpoint>) {
    Listed(c, ks) && c.usage == UsageOf(c.coins)
  }

  /** What is seen of k through a cache above a view that has b. */
  ghost function See(c: Cache, k: Outpoint, b: Option<Coin>): Option<Coin> {
    if k in c.coins then AsView(c.coins[k].coin) else b
  }

  ghost predicate OkAt(c: Cache, k: Outpoint, b: Option<Coin>) {
    k in c.coins ==> EntryOk(c.coins[k], b)
  }

  // ---- operations on one level ----

  lemma {:induction false} PutListed(c: Cache, ks: seq<Outpoint>, k: Outpoint, coin: Coin)
    requires Listed(c, ks)
    ensures var e := if k in c.coins then c.coins[k].(coin := coin) else Entry(coin, false, false, Null, Null);
            Listed(c.(coins := c.coins[k := e]), ks)
  {
    var e := if k in c.coins then c.coins[k].(coin := coin) else Entry(coin, false, false, Null, Null);
    var c' := c.(coins := c.coins[k := e]);
    forall i | 0 <= i < |ks| ensures InPlace(c'.coins, ks, i) {
      assert InPlace(c.coins, ks, i);
    }
  }

  /** Put a coin into an entry, existing or new, and account for it. */
  function Put(c: Cache, k: Outpoint, coin: Coin): Cache {
    var e := if k in c.coins then c.coins[k].(coin := coin) else Entry(coin, false, false, Null, Null);
    c.(coins := c.coins[k := e],
       usage := c.usage - (if k in c.coins then c.coins[k].coin.Usage() else 0) + coin.Usage())
  }

  lemma {:induction false} PutValid(c: Cache, ks: seq<Outpoint>, k: Outpoint, coin: Coin)
    requires ValidCache(c, ks)
    ensures ValidCache(Put(c, k, coin), ks) && Changed(c, Put(c, k, coin), k)
  {
    PutListed(c, ks, k, coin);
    UsageChange(c.coins, Put(c, k, coin).coins, k);
  }

  lemma {:induction false} AddFlagsValid(c: Cache, ks: seq<Outpoint>, k: Outpoint, isDirty: bool, isFresh: bool)
    returns (ks': seq<Outpoint>)
    requires ValidCache(c, ks) && k in c.coins && (isDirty || isFresh)
    ensures var c', e := AddFlags(c, k, isDirty, isFresh), c.coins[k];
            && ValidCache(c', ks') && Changed(c, c', k) && k in c'.coins
            && c'.coins[k].coin == e.coin && c'.coins[k].isDirty == (e.isDirty || isDirty)
            && c'.coins[k].isFresh == (e.isFresh || isFresh)
  {
    AddFlagsListed(c, ks, k, isDirty, isFresh);
    ks' := if c.coins[k].Flagged() then ks else ks + [k];
    var c' := AddFlags(c, k, isDirty, isFresh);
    UsageChange(c.coins, c'.coins, k);
  }

  lemma {:induction false} EraseValid(c: Cache, ks: seq<Outpoint>, k: Outpoint) returns (ks': seq<Outpoint>)
    requires Listed(c, ks) && k in c.coins && c.usage == UsageOf(c.coins) - c.coins[k].coin.Usage()
    ensures ValidCache(Erase(c, k), ks') && k !in Erase(c, k).coins && Changed(c, Erase(c, k), k)
  {
    ks' := EraseListed(c, ks, k);
    UsageChange(c.coins, Erase(c, k).coins, k);
  }

  /** Take over a coin found in the view below. */
  method FetchInto(c: Cache, k: Outpoint, coin: Coin, ghost ks: seq<Outpoint>)
    returns (c': Cache, ghost ks': seq<Outpoint>)
    requires ValidCache(c, ks) && k !in c.coins
    ensures ValidCache(c', ks') && Changed(c, c', k) && k in c'.coins && c'.coins[k].coin == coin
    ensures EntryOk(c'.coins[k], AsView(coin))
  {
    c', ks' := Put(c, k, coin), ks;
    PutValid(c, ks, k, coin);
    if coin.Spent? {
      // The view below has only an empty entry, so this one counts as fresh.
      var c1 := c';
      c' := AddFlags(c1, k, false, true);
      ks' := AddFlagsValid(c1, ks, k, false, true);
    }
  }

  /** Put a coin into an entry, existing or new, and flag it. */
  method PutDirty(c: Cache, k: Outpoint, coin: Coin, isFresh: bool, ghost ks: seq<Outpoint>)
    returns (c': Cache, ghost ks': seq<Outpoint>)
    requires ValidCache(c, ks)
    ensures ValidCache(c', ks') && Changed(c, c', k) && k in c'.coins
    ensures c'.coins[k].coin == coin && c'.coins[k].isDirty
    ensures c'.coins[k].isFresh == (isFresh || (k in c.coins && c.coins[k].isFresh))
  {
    var c1 := Put(c, k, coin);
    PutValid(c, ks, k, coin);
    c' := AddFlags(c1, k, true, false);
    ks' := AddFlagsValid(c1, ks, k, true, false);
    if isFresh {
      var c2 := c';
      c' := AddFlags(c2, k, false, true);
      ks' := AddFlagsValid(c2, ks', k, false, true);
    }
  }

  /** Add a coin. The view below has b. */
  method AddInto(c: Cache, k: Outpoint, coin: Coin, possibleOverwrite: bool, ghost ks: seq<Outpoint>,
                 ghost b: Option<Coin>)
    returns (c': Cache, threw: bool, ghost ks': seq<Outpoint>)
    requires ValidCache(c, ks) && OkAt(c, k, b) && coin.Unspent?
    requires possibleOverwrite || See(c, k, b).None?
    ensures !threw && ValidCache(c', ks') && Changed(c, c', k) && OkAt(c', k, b)
    ensures See(c', k, b) == if coin.unspendable then See(c, k, b) else Some(coin)
  {
    c', threw, ks' := c, false, ks;
    if coin.unspendable {
      return;
    }
    var isFresh := false;
    if !possibleOverwrite {
      if k in c.coins && c.coins[k].coin.Unspent? {
        threw := true;
        return;
      }
      isFresh := k !in c.coins || !c.coins[k].isDirty;
    }
    c', ks' := PutDirty(c, k, coin, isFresh, ks);
  }

  /** Remove an entry and stop accounting for its coin. */
  method Discard(c: Cache, k: Outpoint, ghost ks: seq<Outpoint>) returns (c': Cache, ghost ks': seq<Outpoint>)
    requires ValidCache(c, ks) && k in c.coins
    ensures ValidCache(c', ks') && Changed(c, c', k) && k !in c'.coins
  {
    var c1 := c.(usage := c.usage - c.coins[k].coin.Usage());
    c' := Erase(c1, k);
    ks' := EraseValid(c1, ks, k);
  }

  /** Spend a coin that has an entry. */
  method SpendIn(c: Cache, k: Outpoint, ghost ks: seq<Outpoint>, ghost b: Option<Coin>)
    returns (c': Cache, moved: Coin, ghost ks': seq<Outpoint>)
    requires ValidCache(c, ks) && k in c.coins && EntryOk(c.coins[k], b)
    ensures ValidCache(c', ks') && Changed(c, c', k) && OkAt(c', k, b) && See(c', k, b).None?
    ensures moved == c.coins[k].coin
  {
    moved := c.coins[k].coin;
    if c.coins[k].isFresh {
      c', ks' := Discard(c, k, ks);
    } else {
      var c1 := AddFlags(c, k, true, false);
      ks' := AddFlagsValid(c, ks, k, true, false);
      c' := Put(c1, k, Spent);
      PutValid(c1, ks', k, Spent);
    }
  }

  /** Drop an entry that has no flags. */
  method UncacheIn(c: Cache, k: Outpoint, ghost ks: seq<Outpoint>, ghost b: Option<Coin>)
    returns (c': Cache, ghost ks': seq<Outpoint>)
    requires ValidCache(c, ks) && OkAt(c, k, b)
    ensures ValidCache(c', ks') && Changed(c, c', k) && OkAt(c', k, b) && See(c', k, b) == See(c, k, b)
    ensures if k in c.coins && c.coins[k].Flagged() then c' == c else k !in c'.coins
  {
    c', ks' := c, ks;
    if k in c.coins && !c.coins[k].isDirty && !c.coins[k].isFresh {
      c', ks' := Discard(c, k, ks);
    }
  }
}
