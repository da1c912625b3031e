/** Putting entries that were read into the new table: where each goes, and who comes first if buckets have changed. */
module AddrManRebuckets {
  import opened Options
  import opened Sets
  import opened AddrManStates
  import opened AddrManSteps
  import opened AddrManMoves
  import opened AddrManTables
  import opened AddrManDisk
  import opened AddrManRestores
  import opened AddrManFiles

  /** Where an entry that was in a bucket goes: to its place there if buckets are as they were and it is free, or
      else to the one its source leads to, if that is free. */
  function PlaceFor(p: Params, s: State, bucket: nat, k: nat, restore: bool): Option<Slot>
    requires k in s.mapInfo
  {
    var info := s.mapInfo[k];
    if !p.valid(info.addr) || info.refCount >= PER_ADDRESS then None
    else if restore && NewSlot(p, bucket, info.addr) !in s.newTable then Some(NewSlot(p, bucket, info.addr))
    else if SourceSlot(p, info.addr, info.source) !in s.newTable then Some(SourceSlot(p, info.addr, info.source))
    else None
  }

  /** What placing one entry does. */
  ghost predicate Placement(p: Params, t: State, u: State, bucket: nat, k: nat, restore: bool) {
    && k in t.mapInfo
    && var slot := PlaceFor(p, t, bucket, k, restore);
       if slot.None? then u == t else Referenced(t, u, k, slot.value) && SameCounts(t, u)
  }

  /** One state after another, as entries are placed. */
  ghost predicate Placements(p: Params, states: seq<State>, entries: seq<(nat, nat)>, restore: bool, n: nat) {
    && n <= |entries| && |states| == n + 1
    && forall e {:trigger PlacementAt(p, states, entries, restore, e)} :: 0 <= e < n ==>
        PlacementAt(p, states, entries, restore, e)
  }

  ghost predicate PlacementAt(p: Params, states: seq<State>, entries: seq<(nat, nat)>, restore: bool, e: nat) {
    && e < |entries| && e + 1 < |states|
    && Placement(p, states[e], states[e + 1], entries[e].0, entries[e].1, restore)
  }

  lemma {:induction false} PlacementsNext(p: Params, states: seq<State>, entries: seq<(nat, nat)>, restore: bool,
                                          n: nat, u: State)
    requires Placements(p, states, entries, restore, n) && n < |entries|
    requires Placement(p, states[n], u, entries[n].0, entries[n].1, restore)
    ensures Placements(p, states + [u], entries, restore, n + 1)
  {
    forall e | 0 <= e < n + 1 ensures PlacementAt(p, states + [u], entries, restore, e) {
      assert e < n ==> PlacementAt(p, states, entries, restore, e);
    }
  }

  // ---- whatever was read stays sound ----

  lemma {:induction false} ReferenceSound(p: Params, s: State, t: State, id: nat, slot: Slot)
    requires Sound(s) && Referenced(s, t, id, slot) && slot.bucket < NEW_BUCKETS && slot.position < BUCKET_SIZE
    ensures Sound(t)
  {
    forall k | k in t.mapInfo ensures AtItsPosition(t, k) {
      assert AtItsPosition(s, k);
    }
    forall i | 0 <= i < |t.random| ensures RandomOk(t, i) {
      assert RandomOk(s, i);
    }
  }

  lemma {:induction false} PlacementSound(p: Params, t: State, u: State, bucket: nat, k: nat, restore: bool)
    requires Sound(t) && Placement(p, t, u, bucket, k, restore) && (restore ==> bucket < NEW_BUCKETS)
    ensures Sound(u)
  {
    var slot := PlaceFor(p, t, bucket, k, restore);
    if slot.Some? {
      ReferenceSound(p, t, u, k, slot.value);
    }
  }

  lemma {:induction false} PlacementsSound(p: Params, states: seq<State>, entries: seq<(nat, nat)>, restore: bool,
                                           n: nat)
    requires Placements(p, states, entries, restore, |entries|) && n <= |entries| && Sound(states[0])
    requires restore ==> forall e :: 0 <= e < |entries| ==> entries[e].0 < NEW_BUCKETS
    ensures Sound(states[n])
  {
    if n > 0 {
      var j := n - 1;
      PlacementsSound(p, states, entries, restore, j);
      assert PlacementAt(p, states, entries, restore, j);
      PlacementSound(p, states[j], states[n], entries[j].0, entries[j].1, restore);
    }
  }

  // ---- entries of a manager ----

  /** All entries are there as they were read, with any references from the new table that agree. */
  ghost predicate PlacedAny(p: Params, s: State, all: seq<nat>, nNew: nat, t: State) {
    && nNew <= |all| && t.idCount == |all| && t.mapInfo.Keys == Fill(|all|) && t.collisions == {}
    && Agrees(p, t, Fill(nNew), {})
    && (forall k {:trigger KeptAs(s, all, t, k)} :: 0 <= k < |all| ==> KeptAs(s, all, t, k))
  }

  lemma {:induction false} AnyStart(p: Params, s: State, all: seq<nat>, nNew: nat, t: State)
    requires Loaded(p, s, all, nNew, t, |all|) && nNew <= |all|
    ensures PlacedAny(p, s, all, nNew, t)
  {
    forall k | 0 <= k < |all| ensures KeptAs(s, all, t, k) {
      assert LoadedAs(s, all, t, k);
    }
  }

  lemma {:induction false} AnyReferenced(p: Params, s: State, all: seq<nat>, nNew: nat, t: State, u: State, k: nat,
                                         slot: Slot)
    requires PlacedAny(p, s, all, nNew, t) && k < nNew && Referenced(t, u, k, slot) && SameCounts(t, u)
    requires FitsNew(p, t.mapInfo[k], slot) && t.mapInfo[k].refCount < PER_ADDRESS
    ensures PlacedAny(p, s, all, nNew, u)
  {
    ReferenceAgrees(p, t, u, k, slot, Fill(nNew), {});
    StillLoose(p, u, k, Fill(nNew));
    forall j | 0 <= j < |all| ensures KeptAs(s, all, u, j) {
      assert KeptAs(s, all, t, j);
    }
  }

  lemma {:induction false} AnyNext(p: Params, s: State, all: seq<nat>, nNew: nat, t: State, u: State, bucket: nat,
                                   k: nat, restore: bool)
    requires PlacedAny(p, s, all, nNew, t) && Ranked(s, all, nNew) && k < nNew
    requires Placement(p, t, u, bucket, k, restore) && (restore ==> bucket < NEW_BUCKETS)
    ensures PlacedAny(p, s, all, nNew, u)
  {
    var slot := PlaceFor(p, t, bucket, k, restore);
    if slot.Some? {
      assert KeptAs(s, all, t, k);
      AnyReferenced(p, s, all, nNew, t, u, k, slot.value);
    }
  }

  lemma {:induction false} AnyPlaced(p: Params, s: State, all: seq<nat>, nNew: nat, states: seq<State>,
                                     entries: seq<(nat, nat)>, restore: bool, n: nat)
    requires Placements(p, states, entries, restore, |entries|) && n <= |entries|
    requires PlacedAny(p, s, all, nNew, states[0]) && Ranked(s, all, nNew)
    requires forall e :: 0 <= e < |entries| ==> entries[e].1 < nNew && (restore ==> entries[e].0 < NEW_BUCKETS)
    ensures PlacedAny(p, s, all, nNew, states[n])
  {
    if n > 0 {
      var j := n - 1;
      AnyPlaced(p, s, all, nNew, states, entries, restore, j);
      assert PlacementAt(p, states, entries, restore, j);
      AnyNext(p, s, all, nNew, states[j], states[n], entries[j].0, entries[j].1, restore);
    }
  }

  // ---- when buckets have changed ----

  /** The entry that was in the e-th slot is valid, and its source leads to slot. */
  ghost predicate Wants(p: Params, s: State, slots: seq<Slot>, e: nat, slot: Slot) {
    && e < |slots| && slots[e] in s.newTable && s.newTable[slots[e]] in s.mapInfo
    && var info := s.mapInfo[s.newTable[slots[e]]];
       p.valid(info.addr) && SourceSlot(p, info.addr, info.source) == slot
  }

  /** It is the first of those. */
  ghost predicate FirstFor(p: Params, s: State, slots: seq<Slot>, e: nat, slot: Slot) {
    Wants(p, s, slots, e, slot) && forall f :: 0 <= f < e ==> !Wants(p, s, slots, f, slot)
  }

  /** slot has the entry that was first for it. */
  ghost predicate HeldByFirst(p: Params, s: State, all: seq<nat>, nNew: nat, t: State, slots: seq<Slot>, n: nat,
                              slot: Slot) {
    && slot in t.newTable && t.newTable[slot] < nNew <= |all|
    && exists e :: 0 <= e < n && FirstFor(p, s, slots, e, slot) && s.newTable[slots[e]] == all[t.newTable[slot]]
  }

  /** Of the first n slots, those whose entries are first have been given to them. */
  ghost predicate PlacedAnew(p: Params, s: State, all: seq<nat>, nNew: nat, t: State, slots: seq<Slot>, n: nat) {
    && (forall slot {:trigger HeldByFirst(p, s, all, nNew, t, slots, n, slot)} :: slot in t.newTable ==>
        HeldByFirst(p, s, all, nNew, t, slots, n, slot))
    && (forall e, slot {:trigger Wants(p, s, slots, e, slot)} :: 0 <= e < n && Wants(p, s, slots, e, slot) ==>
        slot in t.newTable)
  }

  /** An entry whose own slot is free has no reference. */
  lemma {:induction false} NoReferenceYet(p: Params, s: State, all: seq<nat>, nNew: nat, t: State, slots: seq<Slot>,
                                          n: nat, k: nat, slot: Slot)
    requires PlacedAny(p, s, all, nNew, t) && PlacedAnew(p, s, all, nNew, t, slots, n) && k < nNew
    requires slot !in t.newTable && k in t.mapInfo && slot == SourceSlot(p, t.mapInfo[k].addr, t.mapInfo[k].source)
    ensures t.mapInfo[k].refCount == 0
  {
    assert KeptAs(s, all, t, k) && RefsOk(t, k);
    forall x | x in t.newTable ensures t.newTable[x] != k {
      assert HeldByFirst(p, s, all, nNew, t, slots, n, x);
    }
    NoRefs(t.newTable, k);
  }

  lemma {:induction false} AnewNext(p: Params, s: State, all: seq<nat>, nNew: nat, t: State, u: State,
                                    slots: seq<Slot>, n: nat, m: nat, bucket: nat, k: nat)
    requires PlacedAny(p, s, all, nNew, t) && PlacedAnew(p, s, all, nNew, t, slots, n) && n < |slots| && m == n + 1
    requires k < nNew && slots[n] in s.newTable && all[k] == s.newTable[slots[n]]
    requires Placement(p, t, u, bucket, k, false)
    ensures PlacedAnew(p, s, all, nNew, u, slots, m)
  {
    assert KeptAs(s, all, t, k);
    var slot := SourceSlot(p, t.mapInfo[k].addr, t.mapInfo[k].source);
    if p.valid(t.mapInfo[k].addr) && slot !in t.newTable {
      NoReferenceYet(p, s, all, nNew, t, slots, n, k, slot);
      assert FirstFor(p, s, slots, n, slot);
    }
    forall x | x in u.newTable ensures HeldByFirst(p, s, all, nNew, u, slots, m, x) {
      if x in t.newTable {
        assert HeldByFirst(p, s, all, nNew, t, slots, n, x);
      }
    }
    forall e, x | 0 <= e < m && Wants(p, s, slots, e, x) ensures x in u.newTable {
      if e < n {
        assert x in t.newTable;
      }
    }
  }

  lemma {:induction false} AnewPlaced(p: Params, s: State, all: seq<nat>, nNew: nat, states: seq<State>,
                                      entries: seq<(nat, nat)>, slots: seq<Slot>, n: nat)
    requires Placements(p, states, entries, false, |entries|) && n <= |entries| == |slots|
    requires PlacedAny(p, s, all, nNew, states[0]) && states[0].newTable == map[] && Ranked(s, all, nNew)
    requires forall e :: 0 <= e < |entries| ==> entries[e].1 < nNew
    requires forall e :: 0 <= e < |slots| ==> slots[e] in s.newTable && all[entries[e].1] == s.newTable[slots[e]]
    ensures PlacedAnew(p, s, all, nNew, states[n], slots, n)
  {
    if n > 0 {
      var j := n - 1;
      AnewPlaced(p, s, all, nNew, states, entries, slots, j);
      AnyPlaced(p, s, all, nNew, states, entries, false, j);
      assert PlacementAt(p, states, entries, false, j);
      AnewNext(p, s, all, nNew, states[j], states[n], slots, j, n, entries[j].0, entries[j].1);
    }
  }
}
