/** Putting the entries that were read back into the new table. */
module AddrManRestores {
  import opened Options
  import opened Sets
  import opened AddrManStates
  import opened AddrManSteps
  import opened AddrManMoves
  import opened AddrManChecks
  import opened AddrManDisk

  // ---- the slots that are written ----

  /** Each taken slot of a bucket before position i, once. */
  ghost predicate ListsBucket(table: map<Slot, nat>, b: nat, i: nat, slots: seq<Slot>) {
    && (forall k :: 0 <= k < |slots| ==> slots[k] in table && slots[k].bucket == b && slots[k].position < i)
    && (forall j, k :: 0 <= j < k < |slots| ==> slots[j] != slots[k])
    && (forall slot :: slot in table && slot.bucket == b && slot.position < i ==> slot in slots)
  }

  lemma {:induction false} BucketSlotsAre(table: map<Slot, nat>, b: nat, i: nat)
    ensures ListsBucket(table, b, i, BucketSlots(table, b, i))
  {
    if i > 0 {
      BucketSlotsAre(table, b, i - 1);
      var before, last := BucketSlots(table, b, i - 1), Slot(b, i - 1);
      forall slot | slot in table && slot.bucket == b && slot.position < i ensures slot == last || slot in before {
      }
      if last in table {
        assert BucketSlots(table, b, i) == before + [last];
        assert last in before + [last];
      } else {
        assert BucketSlots(table, b, i) == before;
      }
    }
  }

  /** Each taken slot of the buckets before n, once. */
  ghost predicate ListsSlots(table: map<Slot, nat>, n: nat, slots: seq<Slot>) {
    && (forall k :: 0 <= k < |slots| ==> slots[k] in table && slots[k].bucket < n)
    && (forall j, k :: 0 <= j < k < |slots| ==> slots[j] != slots[k])
    && (forall slot :: slot in table && slot.bucket < n && slot.position < BUCKET_SIZE ==> slot in slots)
  }

  lemma {:induction false} AllSlotsAre(table: map<Slot, nat>, n: nat)
    ensures ListsSlots(table, n, AllSlots(table, n))
  {
    if n > 0 {
      AllSlotsAre(table, n - 1);
      BucketSlotsAre(table, n - 1, BUCKET_SIZE);
      JoinSlots(table, n - 1, AllSlots(table, n - 1), BucketSlots(table, n - 1, BUCKET_SIZE));
    }
  }

  lemma {:induction false} JoinSlots(table: map<Slot, nat>, n: nat, before: seq<Slot>, last: seq<Slot>)
    requires ListsSlots(table, n, before) && ListsBucket(table, n, BUCKET_SIZE, last)
    ensures ListsSlots(table, n + 1, before + last)
  {
    var slots := before + last;
    forall j, k | 0 <= j < k < |slots| ensures slots[j] != slots[k] {
      if |before| <= j {
        assert last[j - |before|] != last[k - |before|];
      }
    }
    forall slot | slot in table && slot.bucket < n + 1 && slot.position < BUCKET_SIZE ensures slot in slots {
      assert slot.bucket == n ==> slot in last;
      assert slot.bucket < n ==> slot in before;
    }
  }

  // ---- placing ----

  /** The entries, and of the new table the first e of the slots. */
  ghost predicate PlacedSoFar(p: Params, s: State, all: seq<nat>, nNew: nat, t: State, slots: seq<Slot>, e: nat) {
    && e <= |slots| && nNew <= |all| && t.idCount == |all| && t.mapInfo.Keys == Fill(|all|) && t.collisions == {}
    && Agrees(p, t, Fill(nNew), {})
    && (forall k {:trigger KeptAs(s, all, t, k)} :: 0 <= k < |all| ==> KeptAs(s, all, t, k))
    && (forall slot {:trigger slot in t.newTable} :: slot in t.newTable <==> slot in slots[..e])
    && (forall slot {:trigger PlacedRight(s, all, nNew, t, slot)} :: slot in t.newTable ==>
        PlacedRight(s, all, nNew, t, slot))
  }

  ghost predicate KeptAs(s: State, all: seq<nat>, t: State, k: nat) {
    && k < |all| && k in t.mapInfo && all[k] in s.mapInfo
    && SameOnDisk(s.mapInfo[all[k]], t.mapInfo[k]) && t.mapInfo[k].inTried == s.mapInfo[all[k]].inTried
  }

  ghost predicate PlacedRight(s: State, all: seq<nat>, nNew: nat, t: State, slot: Slot) {
    slot in t.newTable && slot in s.newTable && t.newTable[slot] < nNew <= |all|
        && all[t.newTable[slot]] == s.newTable[slot]
  }

  lemma {:induction false} PlaceStart(p: Params, s: State, all: seq<nat>, nNew: nat, t: State, slots: seq<Slot>)
    requires Loaded(p, s, all, nNew, t, |all|) && nNew <= |all|
    ensures PlacedSoFar(p, s, all, nNew, t, slots, 0)
  {
    forall k | 0 <= k < |all| ensures KeptAs(s, all, t, k) {
      assert LoadedAs(s, all, t, k);
    }
  }

  /** What is known of the next slot and the entry that goes there. */
  lemma {:induction false} NextPlace(p: Params, s: State, all: seq<nat>, nNew: nat, t: State, slots: seq<Slot>, e: nat,
                                     k: nat)
    requires Inv(p, s) && InOrder(s, all, nNew) && PlacedSoFar(p, s, all, nNew, t, slots, e) && e < |slots|
    requires ListsSlots(s.newTable, NEW_BUCKETS, slots) && k < nNew && all[k] == s.newTable[slots[e]]
    ensures k in t.mapInfo && t.mapInfo[k].addr == s.mapInfo[all[k]].addr && slots[e] !in t.newTable
    ensures FitsNew(p, t.mapInfo[k], slots[e]) && t.mapInfo[k].refCount < PER_ADDRESS
  {
    assert KeptAs(s, all, t, k);
    assert NewEntryOk(p, s, slots[e]);
    assert slots[e] !in slots[..e];
    FewerRefs(p, s, all, nNew, t, slots, e, k);
  }

  lemma {:induction false} FewerRefs(p: Params, s: State, all: seq<nat>, nNew: nat, t: State, slots: seq<Slot>, e: nat,
                                     k: nat)
    requires Inv(p, s) && InOrder(s, all, nNew) && PlacedSoFar(p, s, all, nNew, t, slots, e) && e < |slots|
    requires k < nNew && slots[e] in s.newTable && all[k] == s.newTable[slots[e]] && slots[e] !in t.newTable
    requires k in t.mapInfo
    ensures t.mapInfo[k].refCount < PER_ADDRESS
  {
    assert RefsOk(t, k) && RefsOk(s, all[k]) && InfoAt(s, {}, all[k]);
    forall slot | slot in t.newTable
      ensures slot in s.newTable && (t.newTable[slot] == k ==> s.newTable[slot] == all[k])
    {
      assert PlacedRight(s, all, nNew, t, slot);
    }
    RefsLeftOut(s.newTable, t.newTable, k, all[k], slots[e]);
  }

  /** A table with a slot of the entry left out has fewer references to it. */
  lemma {:induction false} RefsLeftOut(table: map<Slot, nat>, table': map<Slot, nat>, k: nat, id: nat, slot: Slot)
    requires slot in table && table[slot] == id && slot !in table'
    requires forall x :: x in table' ==> x in table && (table'[x] == k ==> table[x] == id)
    ensures |Refs(table', k)| < |Refs(table, id)|
  {
    var a, b := Refs(table', k), Refs(table, id);
    Subset(a, b - {slot});
    OneMore(b - {slot}, b, slot);
  }

  lemma {:induction false} PlaceNext(p: Params, s: State, all: seq<nat>, nNew: nat, t: State, u: State,
                                     slots: seq<Slot>, e: nat, k: nat)
    requires Inv(p, s) && InOrder(s, all, nNew) && PlacedSoFar(p, s, all, nNew, t, slots, e) && e < |slots|
    requires slots[e] in s.newTable && k < nNew && all[k] == s.newTable[slots[e]]
    requires Referenced(t, u, k, slots[e]) && SameCounts(t, u) && FitsNew(p, t.mapInfo[k], slots[e])
    requires t.mapInfo[k].refCount < PER_ADDRESS
    ensures PlacedSoFar(p, s, all, nNew, u, slots, e + 1)
  {
    ReferenceAgrees(p, t, u, k, slots[e], Fill(nNew), {});
    StillLoose(p, u, k, Fill(nNew));
    forall j | 0 <= j < |all| ensures KeptAs(s, all, u, j) {
      assert KeptAs(s, all, t, j);
    }
    assert slots[..e + 1] == slots[..e] + [slots[e]];
    forall slot | slot in u.newTable ensures PlacedRight(s, all, nNew, u, slot) {
      assert slot != slots[e] ==> PlacedRight(s, all, nNew, t, slot);
    }
  }

  /** An entry of the new table may be called loose. */
  lemma {:induction false} StillLoose(p: Params, s: State, k: nat, loose: set<nat>)
    requires Agrees(p, s, loose - {k}, {}) && k in s.mapInfo && !s.mapInfo[k].inTried
    ensures Agrees(p, s, loose, {})
  {
    forall id | id in s.mapInfo ensures InfoAt(s, loose, id) {
      assert InfoAt(s, loose - {k}, id);
    }
  }

  // ---- when all is placed ----

  /** Numbers counted through a renaming. */
  lemma {:induction false} SameCount(all: seq<nat>, a: set<nat>, b: set<nat>)
    requires Distinct(all) && b <= Elements(all) && forall k: nat :: k in a <==> k < |all| && all[k] in b
    ensures |a| == |b|
  {
    if b != {} {
      var id :| id in b;
      var k :| 0 <= k < |all| && all[k] == id;
      forall j: nat ensures j in a - {k} <==> j < |all| && all[j] in b - {id} {
      }
      SameCount(all, a - {k}, b - {id});
      OneMore(a - {k}, a, k);
      OneMore(b - {id}, b, id);
    }
  }

  lemma {:induction false} SameRefs(p: Params, s: State, all: seq<nat>, nNew: nat, t: State, slots: seq<Slot>, k: nat)
    requires Inv(p, s) && InOrder(s, all, nNew) && PlacedSoFar(p, s, all, nNew, t, slots, |slots|) && k < |all|
    requires ListsSlots(s.newTable, NEW_BUCKETS, slots) && InRange(s)
    ensures k in t.mapInfo && all[k] in s.mapInfo && t.mapInfo[k].refCount == s.mapInfo[all[k]].refCount
  {
    assert KeptAs(s, all, t, k) && RefsOk(t, k) && RefsOk(s, all[k]);
    assert slots[..|slots|] == slots;
    forall slot ensures slot in Refs(t.newTable, k) <==> slot in Refs(s.newTable, all[k]) {
      assert slot in t.newTable ==> PlacedRight(s, all, nNew, t, slot);
    }
    assert Refs(t.newTable, k) == Refs(s.newTable, all[k]);
  }

  lemma {:induction false} AllPlaced(p: Params, s: State, all: seq<nat>, nNew: nat, t: State, slots: seq<Slot>)
    requires Inv(p, s) && InOrder(s, all, nNew) && PlacedSoFar(p, s, all, nNew, t, slots, |slots|)
    requires ListsSlots(s.newTable, NEW_BUCKETS, slots) && InRange(s)
    ensures Inv(p, t) && Restored(s, t, all)
  {
    forall k | 0 <= k < |all| ensures SameKept(s.mapInfo[all[k]], t.mapInfo[k]) {
      assert KeptAs(s, all, t, k);
      SameRefs(p, s, all, nNew, t, slots, k);
    }
    NoneLoose(p, s, all, nNew, t, slots);
    SameNewTable(p, s, all, nNew, t, slots);
    SameTriedTable(p, s, all, t);
    SameCountsRead(p, s, all, t);
  }

  lemma {:induction false} NoneLoose(p: Params, s: State, all: seq<nat>, nNew: nat, t: State, slots: seq<Slot>)
    requires Inv(p, s) && InOrder(s, all, nNew) && PlacedSoFar(p, s, all, nNew, t, slots, |slots|)
    requires ListsSlots(s.newTable, NEW_BUCKETS, slots) && InRange(s)
    ensures Inv(p, t)
  {
    forall k | k in t.mapInfo ensures InfoAt(t, {}, k) {
      assert KeptAs(s, all, t, k) && InfoAt(t, Fill(nNew), k) && InfoAt(s, {}, all[k]);
      SameRefs(p, s, all, nNew, t, slots, k);
    }
  }

  lemma {:induction false} SameNewTable(p: Params, s: State, all: seq<nat>, nNew: nat, t: State, slots: seq<Slot>)
    requires PlacedSoFar(p, s, all, nNew, t, slots, |slots|) && ListsSlots(s.newTable, NEW_BUCKETS, slots) && InRange(s)
    ensures SameTable(all, s.newTable, t.newTable)
  {
    assert slots[..|slots|] == slots;
    forall slot | slot in s.newTable
      ensures slot in t.newTable && t.newTable[slot] < |all| && all[t.newTable[slot]] == s.newTable[slot]
    {
      assert PlacedRight(s, all, nNew, t, slot);
    }
    forall slot | slot in t.newTable ensures slot in s.newTable {
      assert PlacedRight(s, all, nNew, t, slot);
    }
  }

  /** All entries of s are in t under their new names. */
  ghost predicate Renamed(s: State, all: seq<nat>, t: State) {
    && Distinct(all) && Elements(all) == s.mapInfo.Keys && t.mapInfo.Keys == Fill(|all|)
    && (forall k {:trigger KeptAs(s, all, t, k)} :: 0 <= k < |all| ==> KeptAs(s, all, t, k))
  }

  lemma {:induction false} SameTriedTable(p: Params, s: State, all: seq<nat>, t: State)
    requires TriedOk(p, s) && TriedOk(p, t) && Renamed(s, all, t)
    ensures SameTable(all, s.triedTable, t.triedTable)
  {
    forall slot | slot in s.triedTable
      ensures slot in t.triedTable && t.triedTable[slot] < |all| && all[t.triedTable[slot]] == s.triedTable[slot]
    {
      assert TriedEntryOk(p, s, slot);
      var k :| 0 <= k < |all| && all[k] == s.triedTable[slot];
      assert KeptAs(s, all, t, k) && InItsSlot(p, t, k);
    }
    forall slot | slot in t.triedTable ensures slot in s.triedTable {
      assert TriedEntryOk(p, t, slot);
      var k := t.triedTable[slot];
      assert KeptAs(s, all, t, k) && InItsSlot(p, s, all[k]);
    }
  }

  lemma {:induction false} SameCountsRead(p: Params, s: State, all: seq<nat>, t: State)
    requires CountsOk(p, s, {}) && CountsOk(p, t, {}) && Renamed(s, all, t)
    ensures t.nNew == s.nNew && t.nTried == s.nTried && forall net :: TallyOf(t.counts, net) == TallyOf(s.counts, net)
  {
    SameCountRead(p, s, all, t, false, None);
    SameCountRead(p, s, all, t, true, None);
    forall net ensures TallyOf(t.counts, net) == TallyOf(s.counts, net) {
      SameCountRead(p, s, all, t, false, Some(net));
      SameCountRead(p, s, all, t, true, Some(net));
    }
  }

  lemma {:induction false} SameCountRead(p: Params, s: State, all: seq<nat>, t: State, tried: bool, net: Option<nat>)
    requires CountsOk(p, s, {}) && CountsOk(p, t, {}) && Renamed(s, all, t)
    ensures CountOf(t, tried, net) == CountOf(s, tried, net)
  {
    assert CountOk(p, s, {}, tried, net) && CountOk(p, t, {}, tried, net);
    var a, b := Counted(p, t, {}, tried, net), Counted(p, s, {}, tried, net);
    forall k: nat ensures k in a <==> k < |all| && all[k] in b {
      assert k < |all| ==> KeptAs(s, all, t, k);
    }
    SameCount(all, a, b);
  }
}
