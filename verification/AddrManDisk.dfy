/** The address manager written to disk and read back. */
module AddrManDisk {
  import opened Sets
  import opened AddrManStates
  import opened AddrManSteps
  import opened AddrManMoves

  // ---- what is written ----

  /** What is kept of an entry. */
  datatype Disk = Disk(addr: nat, source: nat, time: int, services: set<nat>, lastSuccess: int, attempts: int)

  /** The entries of the new table, those of the tried table, and for each bucket of the new table the places among
      the former of the entries in it. */
  datatype Written = Written(
    nNew: int, nTried: int, newInfos: seq<Disk>, triedInfos: seq<Disk>, buckets: seq<seq<int>>, asmap: nat)

  function ToDisk(info: Info): Disk {
    Disk(info.addr, info.source, info.time, info.services, info.lastSuccess, info.attempts)
  }

  function FromDisk(d: Disk, inTried: bool, randomPos: int): Info {
    Info(d.addr, d.source, d.time, d.services, 0, 0, d.lastSuccess, d.attempts, 0, inTried, randomPos)
  }

  /** The taken slots of a bucket before position i, in order. */
  function BucketSlots(table: map<Slot, nat>, b: nat, i: nat): seq<Slot> {
    if i == 0 then [] else BucketSlots(table, b, i - 1) + if Slot(b, i - 1) in table then [Slot(b, i - 1)] else []
  }

  /** The taken slots of the buckets before n, in order. */
  ghost function AllSlots(table: map<Slot, nat>, n: nat): seq<Slot> {
    if n == 0 then [] else AllSlots(table, n - 1) + BucketSlots(table, n - 1, BUCKET_SIZE)
  }

  /** The ids are those of the tried entries, or those of the others, each once. */
  ghost predicate Enumerates(s: State, ids: seq<nat>, tried: bool) {
    && Distinct(ids) && (forall i :: 0 <= i < |ids| ==> ids[i] in s.mapInfo && s.mapInfo[ids[i]].inTried == tried)
    && (forall id :: id in s.mapInfo && s.mapInfo[id].inTried == tried ==> id in ids)
  }

  /** The places in newIds of the entries in some slots. */
  ghost predicate Places(table: map<Slot, nat>, newIds: seq<nat>, slots: seq<Slot>, places: seq<int>) {
    && |places| == |slots|
    && forall i :: 0 <= i < |slots| ==>
        slots[i] in table && 0 <= places[i] < |newIds| && newIds[places[i]] == table[slots[i]]
  }

  ghost predicate IsWritten(s: State, newIds: seq<nat>, triedIds: seq<nat>, w: Written) {
    && Enumerates(s, newIds, false) && Enumerates(s, triedIds, true)
    && w.nNew == |newIds| == |w.newInfos| && w.nTried == |triedIds| == |w.triedInfos|
    && (forall i :: 0 <= i < |newIds| ==> w.newInfos[i] == ToDisk(s.mapInfo[newIds[i]]))
    && (forall i :: 0 <= i < |triedIds| ==> w.triedInfos[i] == ToDisk(s.mapInfo[triedIds[i]]))
    && |w.buckets| == NEW_BUCKETS
    && (forall b :: 0 <= b < NEW_BUCKETS ==>
        Places(s.newTable, newIds, BucketSlots(s.newTable, b, BUCKET_SIZE), w.buckets[b]))
  }

  // ---- what is read ----

  /** t is s with id all[k] renamed to k, and without what is not kept. */
  ghost predicate Restored(s: State, t: State, all: seq<nat>) {
    && t.idCount == |all| && t.mapInfo.Keys == Fill(|all|) && Elements(all) == s.mapInfo.Keys && Distinct(all)
    && (forall k :: 0 <= k < |all| ==> SameKept(s.mapInfo[all[k]], t.mapInfo[k]))
    && SameTable(all, s.newTable, t.newTable) && SameTable(all, s.triedTable, t.triedTable)
    && t.nNew == s.nNew && t.nTried == s.nTried && forall net :: TallyOf(t.counts, net) == TallyOf(s.counts, net)
  }

  /** Entries of the same address, with the same source, time, services, last success and number of attempts. */
  ghost predicate SameOnDisk(i: Info, j: Info) {
    && j.addr == i.addr && j.source == i.source && j.time == i.time && j.services == i.services
    && j.lastSuccess == i.lastSuccess && j.attempts == i.attempts
  }

  ghost predicate SameKept(i: Info, j: Info) {
    SameOnDisk(i, j) && j.inTried == i.inTried && j.refCount == i.refCount
  }

  ghost predicate SameTable(all: seq<nat>, table: map<Slot, nat>, table': map<Slot, nat>) {
    table'.Keys == table.Keys && forall slot :: slot in table ==>
        table'[slot] < |all| && all[table'[slot]] == table[slot]
  }

  /** The first n entries have been read, and are in no slot of the new table yet. */
  ghost predicate Loaded(p: Params, s: State, all: seq<nat>, nNew: nat, t: State, n: nat) {
    && n <= |all| && t.idCount == n == |t.random| && t.mapInfo.Keys == Fill(n) && t.newTable == map[]
    && t.collisions == {}
    && Agrees(p, t, Fill(if n < nNew then n else nNew), {})
    && (forall k {:trigger LoadedAs(s, all, t, k)} :: 0 <= k < n ==> LoadedAs(s, all, t, k))
  }

  ghost predicate LoadedAs(s: State, all: seq<nat>, t: State, k: nat) {
    && k < |all| && k in t.mapInfo && all[k] in s.mapInfo
    && t.mapInfo[k] == FromDisk(ToDisk(s.mapInfo[all[k]]), s.mapInfo[all[k]].inTried, k)
  }

  /** New entries first, and then tried ones. */
  ghost predicate Ranked(s: State, all: seq<nat>, nNew: nat) {
    && nNew <= |all| && Distinct(all)
    && forall k :: 0 <= k < |all| ==> all[k] in s.mapInfo && (s.mapInfo[all[k]].inTried <==> k >= nNew)
  }

  /** All of them. */
  ghost predicate InOrder(s: State, all: seq<nat>, nNew: nat) {
    Ranked(s, all, nNew) && Elements(all) == s.mapInfo.Keys
  }

  lemma {:induction false} EnumeratedInOrder(s: State, newIds: seq<nat>, triedIds: seq<nat>)
    requires Enumerates(s, newIds, false) && Enumerates(s, triedIds, true)
    ensures InOrder(s, newIds + triedIds, |newIds|)
  {
    var all := newIds + triedIds;
    forall i, j | 0 <= i < j < |all| ensures all[i] != all[j] {
      if j < |newIds| {
        assert newIds[i] != newIds[j];
      } else if i >= |newIds| {
        assert triedIds[i - |newIds|] != triedIds[j - |newIds|];
      }
    }
    forall id | id in s.mapInfo ensures id in Elements(all) {
    }
  }

  /** Different entries have different addresses. */
  lemma {:induction false} AddrsDiffer(s: State, a: nat, b: nat)
    requires Directory(s) && a in s.mapInfo && b in s.mapInfo && a != b
    ensures s.mapInfo[a].addr != s.mapInfo[b].addr
  {
    assert Listed(s, a) && Listed(s, b);
  }

  /** The address of the next entry is not yet known. */
  lemma {:induction false} NextAddrIsNew(p: Params, s: State, all: seq<nat>, nNew: nat, t: State, n: nat)
    requires Directory(s) && Ranked(s, all, nNew) && Loaded(p, s, all, nNew, t, n) && n < |all|
    ensures s.mapInfo[all[n]].addr !in t.mapAddr
  {
    var addr := s.mapInfo[all[n]].addr;
    if addr in t.mapAddr {
      assert AddrOk(t, addr);
      var k := t.mapAddr[addr];
      assert LoadedAs(s, all, t, k);
      AddrsDiffer(s, all[k], all[n]);
    }
  }

  // ---- reading the entries ----

  lemma {:induction false} LoadedNext(s: State, all: seq<nat>, t: State, u: State, n: nat)
    requires n < |all| && all[n] in s.mapInfo && t.mapInfo.Keys == Fill(n) && n in u.mapInfo
    requires u.mapInfo == t.mapInfo[n := u.mapInfo[n]]
    requires u.mapInfo[n] == FromDisk(ToDisk(s.mapInfo[all[n]]), s.mapInfo[all[n]].inTried, n)
    requires forall k {:trigger LoadedAs(s, all, t, k)} :: 0 <= k < n ==> LoadedAs(s, all, t, k)
    ensures u.mapInfo.Keys == Fill(n + 1) && forall k {:trigger LoadedAs(s, all, u, k)} :: 0 <= k < n + 1 ==>
      LoadedAs(s, all, u, k)
  {
    forall k | 0 <= k < n + 1 ensures LoadedAs(s, all, u, k) {
      assert k < n ==> LoadedAs(s, all, t, k);
    }
  }

  lemma {:induction false} NewLoaded(p: Params, s: State, all: seq<nat>, nNew: nat, t: State, u: State, n: nat)
    requires Ranked(s, all, nNew) && Loaded(p, s, all, nNew, t, n) && n < nNew && OneMoreEntry(p, t, u, n)
    requires u.mapInfo[n] == FromDisk(ToDisk(s.mapInfo[all[n]]), false, n)
    ensures Loaded(p, s, all, nNew, u, n + 1)
  {
    CreateAgrees(p, t, u, n, Fill(n));
    assert Fill(n) + {n} == Fill(n + 1);
    LoadedNext(s, all, t, u, n);
  }

  /** u is t with one more entry, in the tried table. */
  ghost predicate OneMoreTried(p: Params, t: State, u: State, n: nat) {
    && n == t.idCount && n !in t.mapInfo && n in u.mapInfo && u.mapInfo == t.mapInfo[n := u.mapInfo[n]]
    && u.newTable == t.newTable && SameRest(t, u)
    && var info := u.mapInfo[n];
       && info.addr !in t.mapAddr && info.randomPos == |t.random| && info.inTried && info.refCount == 0
       && info.lastTry >= 0 && info.lastSuccess > 0
       && u.idCount == n + 1 && u.mapAddr == t.mapAddr[info.addr := n] && u.random == t.random + [n]
       && TriedSlot(p, info.addr) !in t.triedTable && u.triedTable == t.triedTable[TriedSlot(p, info.addr) := n]
       && Recounted(p, t, u, info.addr, true, 1)
  }

  /** c is u with the entry in no table, but counted as if in the new one. */
  ghost predicate AsCreated(p: Params, t: State, c: State, u: State, n: nat) {
    && n in u.mapInfo
    && c == u.(mapInfo := u.mapInfo[n := u.mapInfo[n].(inTried := false)], triedTable := t.triedTable,
               nTried := t.nTried, nNew := t.nNew + 1, counts := Bumped(t.counts, p.network(u.mapInfo[n].addr), 1, 0))
  }

  /** d is c with the entry not counted. */
  ghost predicate AsDropped(p: Params, t: State, c: State, d: State, u: State, n: nat) {
    n in u.mapInfo && d == c.(nNew := t.nNew, counts := Bumped(c.counts, p.network(u.mapInfo[n].addr), -1, 0))
  }

  lemma {:induction false} TriedSteps(p: Params, t: State, c: State, d: State, u: State, n: nat)
    requires t.newTable == map[] && OneMoreTried(p, t, u, n) && AsCreated(p, t, c, u, n) && AsDropped(p, t, c, d, u, n)
    ensures OneMoreEntry(p, t, c, n) && Dropped(c, d, n) && Recounted(p, c, d, u.mapInfo[n].addr, false, -1)
    ensures Entered(d, u, n, TriedSlot(p, u.mapInfo[n].addr)) && Recounted(p, d, u, u.mapInfo[n].addr, true, 1)
  {
    assert Without(c.newTable, n) == map[];
    assert u.mapInfo == t.mapInfo[n := u.mapInfo[n]];
  }

  /** Such an entry might have been created, and then moved. */
  lemma {:induction false} TriedAgrees(p: Params, t: State, c: State, d: State, u: State, n: nat, loose: set<nat>)
    requires Agrees(p, t, loose, {}) && n !in loose && t.newTable == map[] && OneMoreTried(p, t, u, n)
    requires AsCreated(p, t, c, u, n) && AsDropped(p, t, c, d, u, n)
    ensures Agrees(p, u, loose, {})
  {
    TriedSteps(p, t, c, d, u, n);
    TriedMoves(p, t, c, d, u, n, loose);
  }

  lemma {:induction false} TriedMoves(p: Params, t: State, c: State, d: State, u: State, n: nat, loose: set<nat>)
    requires Agrees(p, t, loose, {}) && n !in loose && OneMoreEntry(p, t, c, n) && Dropped(c, d, n)
    requires Recounted(p, c, d, c.mapInfo[n].addr, false, -1)
    requires Entered(d, u, n, TriedSlot(p, d.mapInfo[n].addr)) && Recounted(p, d, u, d.mapInfo[n].addr, true, 1)
    requires d.mapInfo[n].lastSuccess > 0
    ensures Agrees(p, u, loose, {})
  {
    CreateAgrees(p, t, c, n, loose);
    DropAgrees(p, c, d, n, loose + {n}, {});
    EnterAgrees(p, d, u, n, TriedSlot(p, d.mapInfo[n].addr), loose + {n} + {n}, {} + {n});
    BackToLoose(loose, n);
  }

  lemma BackToLoose(loose: set<nat>, n: nat)
    requires n !in loose
    ensures loose + {n} + {n} - {n} == loose && {} + {n} - {n} == {}
  {
  }

  lemma {:induction false} TriedLoaded(p: Params, s: State, all: seq<nat>, nNew: nat, t: State, u: State, n: nat)
    requires Ranked(s, all, nNew) && Loaded(p, s, all, nNew, t, n) && nNew <= n < |all|
    requires OneMoreTried(p, t, u, n)
    requires u.mapInfo[n] == FromDisk(ToDisk(s.mapInfo[all[n]]), true, n)
    ensures Loaded(p, s, all, nNew, u, n + 1)
  {
    var net := p.network(u.mapInfo[n].addr);
    var c := u.(mapInfo := u.mapInfo[n := u.mapInfo[n].(inTried := false)], triedTable := t.triedTable,
                nTried := t.nTried, nNew := t.nNew + 1, counts := Bumped(t.counts, net, 1, 0));
    var d := c.(nNew := t.nNew, counts := Bumped(c.counts, net, -1, 0));
    TriedAgrees(p, t, c, d, u, n, Fill(nNew));
    LoadedNext(s, all, t, u, n);
  }

  /** Different tried entries have different slots. */
  lemma {:induction false} SlotsDiffer(p: Params, s: State, a: nat, b: nat)
    requires TriedOk(p, s) && a in s.mapInfo && b in s.mapInfo && a != b && s.mapInfo[a].inTried && s.mapInfo[b].inTried
    ensures TriedSlot(p, s.mapInfo[a].addr) != TriedSlot(p, s.mapInfo[b].addr)
  {
    assert InItsSlot(p, s, a) && InItsSlot(p, s, b);
  }

  /** More entries may be named than have been read. */
  lemma {:induction false} LoadedOfMore(p: Params, s: State, all: seq<nat>, more: seq<nat>, nNew: nat, t: State, n: nat)
    requires Loaded(p, s, all, nNew, t, n) && all <= more
    ensures Loaded(p, s, more, nNew, t, n)
  {
    forall k | 0 <= k < n ensures LoadedAs(s, more, t, k) {
      assert LoadedAs(s, all, t, k);
    }
  }

  // ---- which tried entries are kept ----

  /** Of the first j tried entries those that are valid and find their slots free, in their order. */
  ghost function KeptTried(p: Params, s: State, ids: seq<nat>, j: nat): seq<nat>
    requires j <= |ids|
  {
    if j == 0 then []
    else
      var kept := KeptTried(p, s, ids, j - 1);
      if Keeps(p, s, kept, ids[j - 1]) then kept + [ids[j - 1]] else kept
  }

  ghost predicate Keeps(p: Params, s: State, kept: seq<nat>, id: nat) {
    && id in s.mapInfo && p.valid(s.mapInfo[id].addr)
    && forall i :: 0 <= i < |kept| ==> !Shares(p, s, kept[i], id)
  }

  /** Both entries belong in the same slot of the tried table. */
  ghost predicate Shares(p: Params, s: State, a: nat, b: nat) {
    && a in s.mapInfo && b in s.mapInfo
    && TriedSlot(p, s.mapInfo[a].addr) == TriedSlot(p, s.mapInfo[b].addr)
  }

  /** An entry is kept exactly if it is the first valid one for its slot. */
  ghost predicate FirstValid(p: Params, s: State, ids: seq<nat>, j: nat)
    requires j < |ids|
  {
    && ids[j] in s.mapInfo && p.valid(s.mapInfo[ids[j]].addr)
    && forall i :: 0 <= i < j && Shares(p, s, ids[i], ids[j]) ==> !p.valid(s.mapInfo[ids[i]].addr)
  }

  lemma {:induction false} KeptAmong(p: Params, s: State, ids: seq<nat>, j: nat)
    requires j <= |ids| && Distinct(ids) && forall i :: 0 <= i < |ids| ==> ids[i] in s.mapInfo
    ensures var kept := KeptTried(p, s, ids, j);
            && Distinct(kept) && (forall x :: x in kept ==> x in ids[..j])
            && (forall i :: 0 <= i < |kept| ==> kept[i] in s.mapInfo && p.valid(s.mapInfo[kept[i]].addr))
  {
    if j > 0 {
      KeptAmong(p, s, ids, j - 1);
      assert ids[..j] == ids[..j - 1] + [ids[j - 1]];
      assert ids[j - 1] !in ids[..j - 1];
    }
  }

  /** A valid entry shares its slot with one that is kept. */
  lemma {:induction false} ValidShares(p: Params, s: State, ids: seq<nat>, j: nat, i: nat) returns (x: nat)
    requires i < j <= |ids| && Distinct(ids) && (forall k :: 0 <= k < |ids| ==> ids[k] in s.mapInfo)
    requires p.valid(s.mapInfo[ids[i]].addr)
    ensures x in KeptTried(p, s, ids, j) && Shares(p, s, x, ids[i])
  {
    var kept := KeptTried(p, s, ids, j - 1);
    if i < j - 1 {
      x := ValidShares(p, s, ids, j - 1, i);
    } else if Keeps(p, s, kept, ids[i]) {
      x := ids[i];
      assert (kept + [x])[|kept|] == x;
    } else {
      var k :| 0 <= k < |kept| && Shares(p, s, kept[k], ids[i]);
      x := kept[k];
    }
  }

  lemma {:induction false} KeptIffFirst(p: Params, s: State, ids: seq<nat>, j: nat, n: nat)
    requires j < n <= |ids| && Distinct(ids) && forall i :: 0 <= i < |ids| ==> ids[i] in s.mapInfo
    ensures ids[j] in KeptTried(p, s, ids, n) <==> FirstValid(p, s, ids, j)
    decreases n
  {
    if j < n - 1 {
      KeptIffFirst(p, s, ids, j, n - 1);
    } else {
      var kept := KeptTried(p, s, ids, j);
      KeptAmong(p, s, ids, j);
      assert ids[j] !in ids[..j];
      KeepsIffFirst(p, s, ids, j);
    }
  }

  lemma {:induction false} KeepsIffFirst(p: Params, s: State, ids: seq<nat>, j: nat)
    requires j < |ids| && Distinct(ids) && forall i :: 0 <= i < |ids| ==> ids[i] in s.mapInfo
    ensures Keeps(p, s, KeptTried(p, s, ids, j), ids[j]) <==> FirstValid(p, s, ids, j)
  {
    var kept := KeptTried(p, s, ids, j);
    KeptAmong(p, s, ids, j);
    if Keeps(p, s, kept, ids[j]) {
      forall i | 0 <= i < j && Shares(p, s, ids[i], ids[j]) ensures !p.valid(s.mapInfo[ids[i]].addr) {
        if p.valid(s.mapInfo[ids[i]].addr) {
          var x := ValidShares(p, s, ids, j, i);
        }
      }
    }
    if FirstValid(p, s, ids, j) {
      forall i | 0 <= i < |kept| ensures !Shares(p, s, kept[i], ids[j]) {
        assert kept[i] in ids[..j];
      }
    }
  }

  /** If all are valid and have slots of their own, all are kept. */
  lemma {:induction false} AllKept(p: Params, s: State, ids: seq<nat>, j: nat)
    requires j <= |ids| && TriedOk(p, s) && Enumerates(s, ids, true)
    requires forall id :: id in s.mapInfo ==> p.valid(s.mapInfo[id].addr)
    ensures KeptTried(p, s, ids, j) == ids[..j]
  {
    if j > 0 {
      AllKept(p, s, ids, j - 1);
      forall i | 0 <= i < j - 1 ensures !Shares(p, s, ids[i], ids[j - 1]) {
        SlotsDiffer(p, s, ids[i], ids[j - 1]);
      }
      assert ids[..j] == ids[..j - 1] + [ids[j - 1]];
    }
  }

  /** The slot of an entry is free exactly if no kept one shares it. */
  lemma {:induction false} SlotTaken(p: Params, s: State, newIds: seq<nat>, kept: seq<nat>, t: State, id: nat)
    requires Ranked(s, newIds + kept, |newIds|) && id in s.mapInfo
    requires Loaded(p, s, newIds + kept, |newIds|, t, |newIds| + |kept|)
    ensures TriedSlot(p, s.mapInfo[id].addr) !in t.triedTable <==>
            forall i :: 0 <= i < |kept| ==> !Shares(p, s, kept[i], id)
  {
    var all, slot := newIds + kept, TriedSlot(p, s.mapInfo[id].addr);
    if slot in t.triedTable {
      assert TriedEntryOk(p, t, slot);
      var k := t.triedTable[slot];
      assert LoadedAs(s, all, t, k);
      assert Shares(p, s, kept[k - |newIds|], id);
    }
    forall i | 0 <= i < |kept| && Shares(p, s, kept[i], id) ensures slot in t.triedTable {
      assert all[|newIds| + i] == kept[i];
      assert LoadedAs(s, all, t, |newIds| + i) && InItsSlot(p, t, |newIds| + i);
    }
  }
}
