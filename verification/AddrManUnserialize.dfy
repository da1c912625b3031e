/** The rest of reading: the buckets of the new table, pruning, and the check. */
module AddrManUnserialize {
  import opened Options
  import opened Sets
  import opened AddrManStates
  import opened AddrManSteps
  import opened AddrManChecks
  import opened AddrManDisk
  import opened AddrManRestores
  import opened AddrManTables
  import opened AddrMans
  import opened AddrManFiles
  import opened AddrManRebuckets

  // ---- the buckets ----

  /** Buckets and places for some slots. */
  ghost predicate EntriesFor(s: State, newIds: seq<nat>, slots: seq<Slot>, entries: seq<(nat, nat)>) {
    && |entries| == |slots|
    && forall e :: 0 <= e < |slots| ==>
         && slots[e] in s.newTable && entries[e].0 == slots[e].bucket
         && entries[e].1 < |newIds| && newIds[entries[e].1] == s.newTable[slots[e]]
  }

  /** The entries of one bucket. */
  method ReadBucket(b: nat, list: seq<int>, nNew: nat, ghost written: bool, ghost s: State, ghost newIds: seq<nat>)
    returns (entries: seq<(nat, nat)>)
    requires written ==> nNew == |newIds| && Places(s.newTable, newIds, BucketSlots(s.newTable, b, BUCKET_SIZE), list)
    ensures forall e :: 0 <= e < |entries| ==> entries[e].0 == b && entries[e].1 < nNew
    ensures written ==> EntriesFor(s, newIds, BucketSlots(s.newTable, b, BUCKET_SIZE), entries)
  {
    entries := [];
    ghost var slots := BucketSlots(s.newTable, b, BUCKET_SIZE);
    BucketSlotsAre(s.newTable, b, BUCKET_SIZE);
    for i := 0 to |list|
      invariant forall e :: 0 <= e < |entries| ==> entries[e].0 == b && entries[e].1 < nNew
      invariant written ==> EntriesFor(s, newIds, slots[..i], entries)
    {
      if 0 <= list[i] < nNew {
        entries := entries + [(b, list[i])];
      }
    }
    assert written ==> slots[..|list|] == slots;
  }

  method ReadBuckets(w: Written, nNew: nat, ghost written: bool, ghost s: State, ghost newIds: seq<nat>)
    returns (entries: seq<(nat, nat)>)
    requires written ==> nNew == |newIds| && |w.buckets| == NEW_BUCKETS
    requires written ==>
      forall b :: 0 <= b < NEW_BUCKETS ==>
          Places(s.newTable, newIds, BucketSlots(s.newTable, b, BUCKET_SIZE), w.buckets[b])
    ensures forall e :: 0 <= e < |entries| ==> entries[e].0 < |w.buckets| && entries[e].1 < nNew
    ensures written ==> EntriesFor(s, newIds, AllSlots(s.newTable, NEW_BUCKETS), entries)
  {
    entries := [];
    for b := 0 to |w.buckets|
      invariant forall e :: 0 <= e < |entries| ==> entries[e].0 < |w.buckets| && entries[e].1 < nNew
      invariant written ==> EntriesFor(s, newIds, AllSlots(s.newTable, b), entries)
    {
      var more := ReadBucket(b, w.buckets[b], nNew, written, s, newIds);
      entries := entries + more;
    }
  }

  // ---- placing ----

  method PlaceOne(m: AddrMan, bucket: nat, k: nat, restore: bool)
    requires k in m.mapInfo
    modifies m
    ensures Placement(m.p, old(m.View()), m.View(), bucket, k, restore) && m.mapInfo.Keys == old(m.mapInfo.Keys)
  {
    var slot := PlaceFor(m.p, m.View(), bucket, k, restore);
    if slot.Some? {
      m.Reference(k, slot.value);
    }
  }

  method PlaceAll(m: AddrMan, entries: seq<(nat, nat)>, restore: bool) returns (ghost states: seq<State>)
    requires forall e :: 0 <= e < |entries| ==> entries[e].1 in m.mapInfo
    modifies m
    ensures Placements(m.p, states, entries, restore, |entries|)
    ensures states[0] == old(m.View()) && states[|entries|] == m.View()
  {
    states := [m.View()];
    for e := 0 to |entries|
      invariant m.mapInfo.Keys == old(m.mapInfo.Keys) && Placements(m.p, states, entries, restore, e)
      invariant states[0] == old(m.View()) && states[e] == m.View()
    {
      PlaceOne(m, entries[e].0, entries[e].1, restore);
      PlacementsNext(m.p, states, entries, restore, e, m.View());
      states := states + [m.View()];
    }
  }

  /** Under the same circumstances, the next slot is taken again. */
  lemma {:induction false} PlaceOneNext(p: Params, s: State, all: seq<nat>, nNew: nat, t: State, u: State,
                                        slots: seq<Slot>, e: nat, e': nat, bucket: nat, k: nat)
    requires Inv(p, s) && InOrder(s, all, nNew) && ListsSlots(s.newTable, NEW_BUCKETS, slots)
    requires PlacedSoFar(p, s, all, nNew, t, slots, e) && e < |slots| && e' == e + 1
    requires k < nNew && bucket == slots[e].bucket && all[k] == s.newTable[slots[e]] && p.valid(s.mapInfo[all[k]].addr)
    requires Placement(p, t, u, bucket, k, true)
    ensures PlacedSoFar(p, s, all, nNew, u, slots, e')
  {
    NextPlace(p, s, all, nNew, t, slots, e, k);
    PlaceNext(p, s, all, nNew, t, u, slots, e, k);
  }

  /** Under the same circumstances, all slots are taken again. */
  lemma {:induction false} SamePlaced(p: Params, s: State, all: seq<nat>, nNew: nat, states: seq<State>,
                                      entries: seq<(nat, nat)>, slots: seq<Slot>, n: nat)
    requires Inv(p, s) && InOrder(s, all, nNew) && ListsSlots(s.newTable, NEW_BUCKETS, slots)
    requires forall id :: id in s.mapInfo ==> p.valid(s.mapInfo[id].addr)
    requires Placements(p, states, entries, true, |entries|) && n <= |entries| == |slots|
    requires forall e :: 0 <= e < |slots| ==>
      entries[e].1 < nNew && entries[e].0 == slots[e].bucket && all[entries[e].1] == s.newTable[slots[e]]
    requires PlacedSoFar(p, s, all, nNew, states[0], slots, 0)
    ensures PlacedSoFar(p, s, all, nNew, states[n], slots, n)
  {
    if n > 0 {
      var j := n - 1;
      SamePlaced(p, s, all, nNew, states, entries, slots, j);
      assert PlacementAt(p, states, entries, true, j);
      PlaceOneNext(p, s, all, nNew, states[j], states[n], slots, j, n, entries[j].0, entries[j].1);
    }
  }

  // ---- pruning ----

  predicate Prunable(info: Info) {
    !info.inTried && info.refCount == 0
  }

  lemma {:induction false} PruneSound(p: Params, s: State, t: State, u: State, id: nat, i: nat, j: nat)
    requires Sound(s) && id in s.mapInfo && i == s.mapInfo[id].randomPos && j == |s.random| - 1 && Swapped(s, t, i, j)
    requires Removed(p, t, u, id)
    ensures Sound(u)
  {
    assert AtItsPosition(s, id) && RandomOk(s, i) && RandomOk(s, j);
    forall k | k in u.mapInfo ensures AtItsPosition(u, k) {
      assert AtItsPosition(s, k);
    }
    forall x | 0 <= x < |u.random| ensures RandomOk(u, x) {
      assert RandomOk(s, x);
    }
  }

  /** Of the entries only those that are to be removed and not among the rest are gone. */
  ghost predicate OnlyPruned(s: State, t: State, rest: set<nat>) {
    && (forall k :: k in t.mapInfo <==> k in s.mapInfo && (k in rest || !Prunable(s.mapInfo[k])))
    && (forall k :: k in t.mapInfo ==> SamePlaces(s.mapInfo[k], t.mapInfo[k]))
    && t.triedTable == s.triedTable && t.newTable == s.newTable && SameRest(s, t)
  }

  lemma {:induction false} PrunedNext(s: State, t: State, u: State, rest: set<nat>, id: nat)
    requires OnlyPruned(s, t, rest) && id in rest && id in t.mapInfo
    requires if Prunable(t.mapInfo[id]) then OnlyWithout(t, u, id) else u == t
    ensures OnlyPruned(s, u, rest - {id})
  {
    assert SamePlaces(s.mapInfo[id], t.mapInfo[id]);
    forall k | k in u.mapInfo ensures SamePlaces(s.mapInfo[k], u.mapInfo[k]) {
      assert k in t.mapInfo && SamePlaces(s.mapInfo[k], t.mapInfo[k]) && SamePlaces(t.mapInfo[k], u.mapInfo[k]);
    }
  }

  /** An entry with a place is not loose. */
  lemma {:induction false} NotLoose(p: Params, s: State, id: nat, loose: set<nat>)
    requires Agrees(p, s, loose, {}) && id in s.mapInfo && !Prunable(s.mapInfo[id])
    ensures Agrees(p, s, loose - {id}, {})
  {
    assert RefsOk(s, id);
    forall k | k in s.mapInfo ensures InfoAt(s, loose - {id}, k) {
      assert InfoAt(s, loose, k);
    }
  }

  /** Remove what has no place. */
  method Prune(m: AddrMan, ghost agrees: bool, ghost loose: set<nat>)
    requires Sound(m.View()) && loose <= m.mapInfo.Keys && (agrees ==> Agrees(m.p, m.View(), loose, {}))
    modifies m
    ensures Sound(m.View()) && OnlyPruned(old(m.View()), m.View(), {}) && (agrees ==> Agrees(m.p, m.View(), {}, {}))
    ensures ((forall id :: id in old(m.mapInfo) ==> !Prunable(old(m.mapInfo)[id])) ==> m.View() == old(m.View()))
  {
    ghost var clean := forall id :: id in m.mapInfo ==> !Prunable(m.mapInfo[id]);
    var rest := m.mapInfo.Keys;
    assert loose * rest == loose;
    while rest != {}
      invariant Sound(m.View()) && rest <= m.mapInfo.Keys && (clean ==> m.View() == old(m.View()))
      invariant OnlyPruned(old(m.View()), m.View(), rest) && (agrees ==> Agrees(m.p, m.View(), loose * rest, {}))
    {
      var id := First(rest);
      ghost var t := m.View();
      if Prunable(m.mapInfo[id]) {
        PruneOne(m, id, agrees, loose * rest);
      } else if agrees {
        NotLoose(m.p, t, id, loose * rest);
      }
      assert loose * rest - {id} == loose * (rest - {id});
      PrunedNext(old(m.View()), t, m.View(), rest, id);
      rest := rest - {id};
    }
    assert loose * rest == {};
  }

  method PruneOne(m: AddrMan, id: nat, ghost agrees: bool, ghost loose: set<nat>)
    requires Sound(m.View()) && id in m.mapInfo && Prunable(m.mapInfo[id])
    requires agrees ==> Agrees(m.p, m.View(), loose, {})
    modifies m
    ensures Sound(m.View()) && OnlyWithout(old(m.View()), m.View(), id)
    ensures agrees ==> Agrees(m.p, m.View(), loose - {id}, {})
  {
    ghost var s := m.View();
    assert AtItsPosition(s, id);
    var i, j := m.mapInfo[id].randomPos, |m.random| - 1;
    assert RandomOk(s, i) && RandomOk(s, j);
    m.SwapRandom(i, j);
    ghost var t := m.View();
    m.RemoveLast(id);
    PruneSound(m.p, s, t, m.View(), id, i, j);
    DeletedFrame(m.p, s, t, m.View(), i, j, id);
    if agrees {
      PruneAgrees(m.p, s, t, m.View(), id, i, j, loose);
    }
  }

  lemma {:induction false} PruneAgrees(p: Params, s: State, t: State, u: State, id: nat, i: nat, j: nat,
                                       loose: set<nat>)
    requires Agrees(p, s, loose, {}) && Deletable(s, {}, id) && i == s.mapInfo[id].randomPos && j == |s.random| - 1
    requires Swapped(s, t, i, j) && Removed(p, t, u, id)
    ensures Agrees(p, u, loose - {id}, {})
  {
    assert Listed(s, id) && RandomOk(s, i) && RandomOk(s, j);
    SwapAgrees(p, s, t, i, j, loose, {});
    assert SamePlaces(s.mapInfo[id], t.mapInfo[id]) && RandomOk(t, j);
    RemoveAgrees(p, t, u, id, loose, {});
  }

  // ---- all of it ----

  /** What becomes of the entries of a manager whose file is read, perhaps under other circumstances: all that are
      there are as they were, all tried ones that were first for their slots are, and of the new ones, if buckets have
      changed, those that were first for theirs. */
  ghost predicate Survived(p: Params, o: Origin, restore: bool, t: State) {
    var all, n, slots := Names(p, o, |o.triedIds|), |o.newIds|, AllSlots(o.s.newTable, NEW_BUCKETS);
    && (forall k {:trigger KeptAs(o.s, all, t, k)} :: k in t.mapInfo ==> KeptAs(o.s, all, t, k))
    && (forall k :: n <= k < |all| ==> k in t.mapInfo)
    && (forall k :: 0 <= k < n ==> (k in t.mapInfo <==> HasSlot(t.newTable, k)))
    && (!restore ==> PlacedAnew(p, o.s, all, n, t, slots, |slots|))
  }

  /** Read into an empty manager; false if what is read cannot be right. What a manager has written is always read;
      under the same circumstances, and if its entries are all valid, that restores it, up to the names of the entries
      and what is not kept. */
  method Unserialize(m: AddrMan, w: Written, asmap: nat, ghost written: bool, ghost o: Origin) returns (ok: bool)
    requires IsEmpty(m.View()) && (written ==> Wrote(o, w))
    modifies m
    ensures ok ==> Passes(m.p, m.View())
    ensures written && !m.p.keyIsNull ==> ok
    ensures written ==> Inv(m.p, m.View()) && Survived(m.p, o, w.asmap == asmap, m.View())
    ensures written && Genuine(m.p, o, w, asmap) ==> Restored(o.s, m.View(), o.newIds + o.triedIds)
  {
    m.nNew, m.nTried := w.nNew, w.nTried;
    if written {
      WrittenSizes(o, w);
    }
    if w.nNew > NEW_BUCKETS * BUCKET_SIZE || w.nNew < 0 || w.nTried > TRIED_BUCKETS * BUCKET_SIZE || w.nTried < 0 {
      return false;
    }
    if w.nNew != |w.newInfos| || w.nTried != |w.triedInfos| {
      return false;
    }
    ReadNew(m, w, written, o);
    ReadTried(m, w, written, o);
    PlaceAndPrune(m, w, asmap, written, o);
    if written && !m.p.keyIsNull {
      InvPasses(m.p, m.View());
    }
    var code := CheckAddrman(m.p, m.View());
    ok := code == 0;
  }

  method PlaceAndPrune(m: AddrMan, w: Written, asmap: nat, ghost written: bool, ghost o: Origin)
    requires TriedRead(m.View(), |w.newInfos|) && m.nNew == |w.newInfos| && m.nTried == m.idCount - |w.newInfos|
    requires written ==> Wrote(o, w) && AllRead(m.p, o, m.View(), Names(m.p, o, |o.triedIds|))
    modifies m
    ensures Sound(m.View())
    ensures written ==> Inv(m.p, m.View()) && Survived(m.p, o, w.asmap == asmap, m.View())
    ensures written && Genuine(m.p, o, w, asmap) ==> Restored(o.s, m.View(), o.newIds + o.triedIds)
  {
    var entries := ReadBuckets(w, |w.newInfos|, written, o.s, o.newIds);
    var restore := |w.buckets| == NEW_BUCKETS && w.asmap == asmap;
    ghost var s := m.View();
    forall e | 0 <= e < |entries| ensures entries[e].1 in m.mapInfo {
      assert entries[e].1 in Fill(m.idCount);
    }
    ghost var states := PlaceAll(m, entries, restore);
    PlacementsSound(m.p, states, entries, restore, |entries|);
    ghost var t := m.View();
    ghost var loose := if written then Fill(|o.newIds|) else {};
    if written {
      WrittenPlaced(m.p, o, w, states, entries, restore);
    }
    Prune(m, written, loose);
    if written {
      WrittenPruned(m.p, o, w, t, m.View(), restore);
      if Genuine(m.p, o, w, asmap) {
        GenuinePlaced(m.p, o, w, asmap, states, entries);
      }
    }
  }

  /** All entries that were read, in the order of their new names, are there. */
  ghost predicate PlacedIn(p: Params, o: Origin, t: State, restore: bool) {
    var all, n, slots := Names(p, o, |o.triedIds|), |o.newIds|, AllSlots(o.s.newTable, NEW_BUCKETS);
    PlacedAny(p, o.s, all, n, t) && (!restore ==> PlacedAnew(p, o.s, all, n, t, slots, |slots|))
  }

  lemma {:induction false} WrittenPlaced(p: Params, o: Origin, w: Written, states: seq<State>,
                                         entries: seq<(nat, nat)>, restore: bool)
    requires Wrote(o, w) && Placements(p, states, entries, restore, |entries|)
    requires AllRead(p, o, states[0], Names(p, o, |o.triedIds|))
    requires states[0].nNew == |o.newIds| && states[0].nTried == states[0].idCount - |o.newIds|
    requires EntriesFor(o.s, o.newIds, AllSlots(o.s.newTable, NEW_BUCKETS), entries)
    ensures PlacedIn(p, o, states[|entries|], restore) && Fill(|o.newIds|) <= states[|entries|].mapInfo.Keys
  {
    var all, n, slots := Names(p, o, |o.triedIds|), |o.newIds|, AllSlots(o.s.newTable, NEW_BUCKETS);
    NamesRanked(p, o, w, |o.triedIds|);
    AllSlotsAre(o.s.newTable, NEW_BUCKETS);
    assert AsRead(states[0], n, |all|) == states[0];
    AnyStart(p, o.s, all, n, states[0]);
    AnyPlaced(p, o.s, all, n, states, entries, restore, |entries|);
    if !restore {
      AnewPlaced(p, o.s, all, n, states, entries, slots, |slots|);
    }
  }

  lemma {:induction false} WrittenPruned(p: Params, o: Origin, w: Written, t: State, u: State, restore: bool)
    requires Wrote(o, w) && PlacedIn(p, o, t, restore) && OnlyPruned(t, u, {}) && Agrees(p, u, {}, {})
    ensures Inv(p, u) && Survived(p, o, restore, u)
  {
    var all, n, slots := Names(p, o, |o.triedIds|), |o.newIds|, AllSlots(o.s.newTable, NEW_BUCKETS);
    NamesRanked(p, o, w, |o.triedIds|);
    forall k | k in u.mapInfo ensures KeptAs(o.s, all, u, k) {
      assert KeptAs(o.s, all, t, k) && SamePlaces(t.mapInfo[k], u.mapInfo[k]);
    }
    forall k | n <= k < |all| ensures k in u.mapInfo {
      assert KeptAs(o.s, all, t, k);
    }
    forall k | 0 <= k < n ensures k in u.mapInfo <==> HasSlot(u.newTable, k) {
      SlotsAreKept(p, o.s, all, n, t, u, k);
    }
    if !restore {
      SameAnew(p, o.s, all, n, t, u, slots, |slots|);
    }
  }

  lemma {:induction false} SlotsAreKept(p: Params, s: State, all: seq<nat>, nNew: nat, t: State, u: State, k: nat)
    requires PlacedAny(p, s, all, nNew, t) && Ranked(s, all, nNew) && k < nNew && OnlyPruned(t, u, {})
    ensures k in u.mapInfo <==> HasSlot(u.newTable, k)
  {
    assert KeptAs(s, all, t, k) && RefsOk(t, k);
    NoRefs(t.newTable, k);
  }

  lemma {:induction false} SameAnew(p: Params, s: State, all: seq<nat>, nNew: nat, t: State, u: State,
                                    slots: seq<Slot>, n: nat)
    requires PlacedAnew(p, s, all, nNew, t, slots, n) && u.newTable == t.newTable
    ensures PlacedAnew(p, s, all, nNew, u, slots, n)
  {
    forall slot | slot in u.newTable ensures HeldByFirst(p, s, all, nNew, u, slots, n, slot) {
      assert HeldByFirst(p, s, all, nNew, t, slots, n, slot);
    }
  }

  /** Under the same circumstances nothing is lost. */
  lemma {:induction false} GenuinePlaced(p: Params, o: Origin, w: Written, asmap: nat, states: seq<State>,
                                         entries: seq<(nat, nat)>)
    requires Genuine(p, o, w, asmap) && Placements(p, states, entries, true, |entries|)
    requires AllRead(p, o, states[0], Names(p, o, |o.triedIds|))
    requires states[0].nNew == |o.newIds| && states[0].nTried == states[0].idCount - |o.newIds|
    requires EntriesFor(o.s, o.newIds, AllSlots(o.s.newTable, NEW_BUCKETS), entries)
    ensures var t := states[|entries|];
            Restored(o.s, t, o.newIds + o.triedIds) && forall id :: id in t.mapInfo ==> !Prunable(t.mapInfo[id])
  {
    var all, n, slots := o.newIds + o.triedIds, |o.newIds|, AllSlots(o.s.newTable, NEW_BUCKETS);
    GenuineStart(p, o, w, asmap, states[0]);
    EnumeratedInOrder(o.s, o.newIds, o.triedIds);
    AllSlotsAre(o.s.newTable, NEW_BUCKETS);
    SamePlaced(p, o.s, all, n, states, entries, slots, |slots|);
    Finished(p, o.s, all, n, states[|entries|], slots);
  }

  lemma {:induction false} GenuineStart(p: Params, o: Origin, w: Written, asmap: nat, t: State)
    requires Genuine(p, o, w, asmap) && AllRead(p, o, t, Names(p, o, |o.triedIds|))
    requires t.nNew == |o.newIds| && t.nTried == t.idCount - |o.newIds|
    ensures PlacedSoFar(p, o.s, o.newIds + o.triedIds, |o.newIds|, t, AllSlots(o.s.newTable, NEW_BUCKETS), 0)
  {
    var all, n := o.newIds + o.triedIds, |o.newIds|;
    AllKept(p, o.s, o.triedIds, |o.triedIds|);
    assert o.triedIds[..|o.triedIds|] == o.triedIds;
    assert AsRead(t, n, |all|) == t;
    PlaceStart(p, o.s, all, n, t, AllSlots(o.s.newTable, NEW_BUCKETS));
  }

  lemma {:induction false} Finished(p: Params, s: State, all: seq<nat>, nNew: nat, t: State, slots: seq<Slot>)
    requires Inv(p, s) && InOrder(s, all, nNew) && PlacedSoFar(p, s, all, nNew, t, slots, |slots|)
    requires ListsSlots(s.newTable, NEW_BUCKETS, slots)
    ensures Restored(s, t, all) && forall id :: id in t.mapInfo ==> !Prunable(t.mapInfo[id])
  {
    InvTables(p, s);
    AllPlaced(p, s, all, nNew, t, slots);
    forall id | id in t.mapInfo ensures !Prunable(t.mapInfo[id]) {
      assert InfoAt(t, {}, id);
    }
  }

  // ---- no more entries than slots ----

  lemma {:induction false} BucketSlotsFew(table: map<Slot, nat>, b: nat, i: nat)
    ensures |BucketSlots(table, b, i)| <= i
  {
    if i > 0 {
      BucketSlotsFew(table, b, i - 1);
    }
  }

  lemma {:induction false} AllSlotsFew(table: map<Slot, nat>, n: nat)
    ensures |AllSlots(table, n)| <= n * BUCKET_SIZE
  {
    if n > 0 {
      AllSlotsFew(table, n - 1);
      BucketSlotsFew(table, n - 1, BUCKET_SIZE);
    }
  }

  /** The entries in some slots. */
  ghost function In(table: map<Slot, nat>, slots: seq<Slot>): set<nat> {
    set i | 0 <= i < |slots| && slots[i] in table :: table[slots[i]]
  }

  lemma {:induction false} InFew(table: map<Slot, nat>, slots: seq<Slot>)
    ensures |In(table, slots)| <= |slots|
  {
    if slots != [] {
      var n := |slots| - 1;
      InFew(table, slots[..n]);
      if slots[n] in table {
        assert In(table, slots) == In(table, slots[..n]) + {table[slots[n]]};
      } else {
        assert In(table, slots) == In(table, slots[..n]);
      }
    }
  }

  ghost predicate HasSlot(table: map<Slot, nat>, id: nat) {
    exists slot :: slot in table && table[slot] == id
  }

  lemma {:induction false} FewEntries(table: map<Slot, nat>, n: nat, ids: seq<nat>)
    requires Distinct(ids) && (forall slot :: slot in table ==> slot.bucket < n && slot.position < BUCKET_SIZE)
    requires forall i :: 0 <= i < |ids| ==> HasSlot(table, ids[i])
    ensures |ids| <= n * BUCKET_SIZE
  {
    var slots := AllSlots(table, n);
    AllSlotsAre(table, n);
    AllSlotsFew(table, n);
    InFew(table, slots);
    DistinctCount(ids);
    forall id | id in Elements(ids) ensures id in In(table, slots) {
      assert HasSlot(table, id);
      var slot :| slot in table && table[slot] == id;
      assert slot in slots;
    }
    Subset(Elements(ids), In(table, slots));
  }

  lemma {:induction false} WrittenSizes(o: Origin, w: Written)
    requires Wrote(o, w)
    ensures w.nNew <= NEW_BUCKETS * BUCKET_SIZE && w.nTried <= TRIED_BUCKETS * BUCKET_SIZE
  {
    InvTables(o.p, o.s);
    forall i | 0 <= i < |o.newIds| ensures HasSlot(o.s.newTable, o.newIds[i]) {
      assert InfoAt(o.s, {}, o.newIds[i]) && RefsOk(o.s, o.newIds[i]);
      NoRefs(o.s.newTable, o.newIds[i]);
    }
    FewEntries(o.s.newTable, NEW_BUCKETS, o.newIds);
    forall i | 0 <= i < |o.triedIds| ensures HasSlot(o.s.triedTable, o.triedIds[i]) {
      assert InItsSlot(o.p, o.s, o.triedIds[i]);
    }
    FewEntries(o.s.triedTable, TRIED_BUCKETS, o.triedIds);
  }

  // ---- who survives ----

  /** Exactly the tried entries that are the first valid ones for their slots survive. */
  lemma {:induction false} TriedSurvivors(p: Params, o: Origin, w: Written, restore: bool, t: State, j: nat)
    requires Wrote(o, w) && Survived(p, o, restore, t) && j < |o.triedIds|
    ensures FirstValid(p, o.s, o.triedIds, j) <==>
            exists k :: k in t.mapInfo && t.mapInfo[k].addr == o.s.mapInfo[o.triedIds[j]].addr
  {
    var all, n, id := Names(p, o, |o.triedIds|), |o.newIds|, o.triedIds[j];
    var kept := KeptTried(p, o.s, o.triedIds, |o.triedIds|);
    NamesRanked(p, o, w, |o.triedIds|);
    KeptIffFirst(p, o.s, o.triedIds, j, |o.triedIds|);
    if FirstValid(p, o.s, o.triedIds, j) {
      var i :| 0 <= i < |kept| && kept[i] == id;
      assert all[n + i] == id && n + i in t.mapInfo;
      assert KeptAs(o.s, all, t, n + i);
    }
    forall k | k in t.mapInfo && t.mapInfo[k].addr == o.s.mapInfo[id].addr ensures FirstValid(p, o.s, o.triedIds, j) {
      assert KeptAs(o.s, all, t, k);
      SameAddr(o.s, all[k], id);
      assert k >= n && all[k] == kept[k - n];
    }
  }

  lemma {:induction false} SameAddr(s: State, a: nat, b: nat)
    requires Directory(s) && a in s.mapInfo && b in s.mapInfo && s.mapInfo[a].addr == s.mapInfo[b].addr
    ensures a == b
  {
    if a != b {
      AddrsDiffer(s, a, b);
    }
  }

  /** The entry was in a slot where it is the first valid one for the slot its source leads to. */
  ghost predicate ComesFirst(p: Params, s: State, slots: seq<Slot>, id: nat) {
    exists e: nat, slot :: FirstFor(p, s, slots, e, slot) && s.newTable[slots[e]] == id
  }

  /** There is only one first. */
  lemma {:induction false} HeldByThis(p: Params, s: State, all: seq<nat>, nNew: nat, t: State, slots: seq<Slot>, e: nat,
                                      slot: Slot, i: nat)
    requires HeldByFirst(p, s, all, nNew, t, slots, |slots|, slot) && FirstFor(p, s, slots, e, slot)
    requires Distinct(all) && i < |all| && s.newTable[slots[e]] == all[i]
    ensures t.newTable[slot] == i
  {
    var f :| 0 <= f < |slots| && FirstFor(p, s, slots, f, slot) && s.newTable[slots[f]] == all[t.newTable[slot]];
    assert e == f;
  }

  /** If buckets have changed, exactly the new entries that come first survive. */
  lemma {:induction false} NewSurvivors(p: Params, o: Origin, w: Written, t: State, i: nat)
    requires Wrote(o, w) && Survived(p, o, false, t) && i < |o.newIds|
    ensures i in t.mapInfo <==> ComesFirst(p, o.s, AllSlots(o.s.newTable, NEW_BUCKETS), o.newIds[i])
  {
    NamesRanked(p, o, w, |o.triedIds|);
    FirstIffHeld(p, o.s, Names(p, o, |o.triedIds|), |o.newIds|, t, AllSlots(o.s.newTable, NEW_BUCKETS), i);
  }

  lemma {:induction false} FirstIffHeld(p: Params, s: State, all: seq<nat>, nNew: nat, t: State, slots: seq<Slot>,
                                        i: nat)
    requires PlacedAnew(p, s, all, nNew, t, slots, |slots|) && Distinct(all) && i < nNew <= |all|
    ensures HasSlot(t.newTable, i) <==> ComesFirst(p, s, slots, all[i])
  {
    if HasSlot(t.newTable, i) {
      var slot :| slot in t.newTable && t.newTable[slot] == i;
      assert HeldByFirst(p, s, all, nNew, t, slots, |slots|, slot);
    }
    if ComesFirst(p, s, slots, all[i]) {
      var e: nat, slot :| FirstFor(p, s, slots, e, slot) && s.newTable[slots[e]] == all[i];
      assert Wants(p, s, slots, e, slot);
      assert HeldByFirst(p, s, all, nNew, t, slots, |slots|, slot);
      HeldByThis(p, s, all, nNew, t, slots, e, slot, i);
    }
  }

  // ---- there and back ----

  /** Written and read into a new manager with the same groups of addresses, nothing is lost. */
  method SaveAndLoad(m: AddrMan, asmap: nat) returns (r: AddrMan, ghost all: seq<nat>)
    requires m.Valid() && !m.p.keyIsNull && forall id :: id in m.mapInfo ==> m.p.valid(m.mapInfo[id].addr)
    ensures fresh(r) && r.p == m.p && r.Valid() && Restored(m.View(), r.View(), all)
  {
    var w;
    ghost var newIds, triedIds;
    w, newIds, triedIds := Serialize(m, asmap);
    r := new AddrMan(m.p);
    all := newIds + triedIds;
    var ok := Unserialize(r, w, asmap, true, Origin(m.p, m.View(), newIds, triedIds));
  }

  /** Written and read into a new manager with other groups of addresses, or another map of them, it is accepted, and
      those survive that come first. */
  method SaveAndMove(m: AddrMan, asmap: nat, p: Params, asmap': nat)
    returns (r: AddrMan, ok: bool, w: Written, ghost o: Origin)
    requires m.Valid() && !p.keyIsNull
    ensures fresh(r) && r.p == p && ok && r.Valid()
    ensures o.p == m.p && o.s == m.View() && Wrote(o, w) && Survived(p, o, asmap == asmap', r.View())
  {
    ghost var newIds, triedIds;
    w, newIds, triedIds := Serialize(m, asmap);
    o := Origin(m.p, m.View(), newIds, triedIds);
    r := new AddrMan(p);
    ok := Unserialize(r, w, asmap', true, o);
  }
}
