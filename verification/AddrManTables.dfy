/** What becomes of the address manager's tables when an entry is deleted, cleared, or moved to the tried table. */
module AddrManTables {
  import opened AddrManStates
  import opened AddrManSteps
  import opened AddrManMoves

  // ---- deleting and clearing ----

  /** t has the entries of s but for id, reordered, and the same tables. */
  ghost predicate OnlyWithout(s: State, t: State, id: nat) {
    && t.mapInfo.Keys == s.mapInfo.Keys - {id}
    && (forall k :: k in t.mapInfo ==> SamePlaces(s.mapInfo[k], t.mapInfo[k]))
    && t.idCount == s.idCount && t.triedTable == s.triedTable && t.newTable == s.newTable && SameRest(s, t)
    && (id in s.mapInfo ==> t.mapAddr == s.mapAddr - {s.mapInfo[id].addr})
  }

  lemma {:induction false} DeletedFrame(p: Params, s: State, t: State, u: State, i: nat, j: nat, id: nat)
    requires Swapped(s, t, i, j) && Removed(p, t, u, id)
    ensures OnlyWithout(s, u, id)
  {
    assert SamePlaces(s.mapInfo[id], t.mapInfo[id]);
    forall k | k in u.mapInfo ensures SamePlaces(s.mapInfo[k], u.mapInfo[k]) {
      assert u.mapInfo[k] == t.mapInfo[k];
    }
  }

  /** The slot is empty, and of the entries only the one that was there has changed or gone. */
  ghost predicate OnlyCleared(s: State, u: State, slot: Slot) {
    && u.newTable == s.newTable - {slot} && u.triedTable == s.triedTable && u.idCount == s.idCount && SameRest(s, u)
    && (forall k :: k in u.mapInfo ==> k in s.mapInfo && SameRecord(s.mapInfo[k], u.mapInfo[k]))
    && (forall k :: k in s.mapInfo && !Holds(s, slot, k) ==> k in u.mapInfo && SamePlaces(s.mapInfo[k], u.mapInfo[k]))
  }

  ghost predicate Holds(s: State, slot: Slot, id: nat) {
    slot in s.newTable && s.newTable[slot] == id
  }

  lemma {:induction false} ClearedFrame(s: State, t: State, u: State, slot: Slot, id: nat)
    requires Unreferenced(s, t, id, slot) && (u == t || OnlyWithout(t, u, id))
    ensures OnlyCleared(s, u, slot)
  {
    forall k | k in s.mapInfo && k != id ensures k in u.mapInfo && SamePlaces(s.mapInfo[k], u.mapInfo[k]) {
      assert t.mapInfo[k] == s.mapInfo[k];
    }
    forall k | k in u.mapInfo ensures k in s.mapInfo && SameRecord(s.mapInfo[k], u.mapInfo[k]) {
      assert k in t.mapInfo && (u == t || SamePlaces(t.mapInfo[k], u.mapInfo[k]));
    }
  }

  lemma PutBack(loose: set<nat>, id: nat)
    requires id !in loose
    ensures loose + {id} - {id} == loose
  {
  }

  // ---- dropping references one bucket after another ----

  /** Some references to id have been dropped, among them those from the n buckets from start on. */
  ghost predicate Dropping(p: Params, s: State, t: State, id: nat, start: nat, n: nat) {
    && OneChanged(s, t, id) && t.triedTable == s.triedTable && SameCounts(s, t)
    && t.mapInfo[id] == s.mapInfo[id].(refCount := |Refs(t.newTable, id)|)
    && (forall slot :: slot in t.newTable ==> slot in s.newTable && t.newTable[slot] == s.newTable[slot])
    && (forall slot :: slot in s.newTable && s.newTable[slot] != id ==> slot in t.newTable)
    && (forall m {:trigger Passed(p, t, id, start, m)} :: 0 <= m < n ==> Passed(p, t, id, start, m))
  }

  ghost predicate Passed(p: Params, t: State, id: nat, start: nat, m: nat) {
    id in t.mapInfo && !Holds(t, NewSlot(p, (start + m) % NEW_BUCKETS, t.mapInfo[id].addr), id)
  }

  lemma {:induction false} DropOne(p: Params, s: State, t: State, u: State, id: nat, start: nat, n: nat, slot: Slot)
    requires Dropping(p, s, t, id, start, n) && slot == NewSlot(p, (start + n) % NEW_BUCKETS, s.mapInfo[id].addr)
    requires Unreferenced(t, u, id, slot) && SameCounts(t, u)
    ensures Dropping(p, s, u, id, start, n + 1)
  {
    RefRemoved(t.newTable, slot, id);
    forall m | 0 <= m < n + 1 ensures Passed(p, u, id, start, m) {
      assert m < n ==> Passed(p, t, id, start, m);
    }
  }

  lemma {:induction false} DropNone(p: Params, s: State, t: State, id: nat, start: nat, n: nat)
    requires Dropping(p, s, t, id, start, n) && !Holds(t, NewSlot(p, (start + n) % NEW_BUCKETS, s.mapInfo[id].addr), id)
    ensures Dropping(p, s, t, id, start, n + 1)
  {
    forall m | 0 <= m < n + 1 ensures Passed(p, t, id, start, m) {
      assert m < n ==> Passed(p, t, id, start, m);
    }
  }

  /** Once the count is zero or every bucket has been visited, no reference is left. */
  lemma {:induction false} AllDropped(p: Params, s: State, t: State, id: nat, start: nat, n: nat)
    requires NewOk(p, s) && Dropping(p, s, t, id, start, n) && start < NEW_BUCKETS
    requires (t.mapInfo[id].refCount == 0 || n == NEW_BUCKETS)
    ensures Dropped(s, t, id) && t.mapInfo[id].refCount == 0
  {
    NoRefs(t.newTable, id);
    if n == NEW_BUCKETS {
      forall slot | slot in t.newTable ensures t.newTable[slot] != id {
        assert NewEntryOk(p, s, slot);
        var m := (slot.bucket + NEW_BUCKETS - start) % NEW_BUCKETS;
        assert (start + m) % NEW_BUCKETS == slot.bucket;
        assert Passed(p, t, id, start, m);
      }
    }
    assert t.newTable == Without(s.newTable, id);
  }

  // ---- making space ----

  /** Where an address from a source goes in the new table. */
  function SourceSlot(p: Params, addr: nat, source: nat): Slot {
    NewSlot(p, NewBucket(p, addr, source), addr)
  }

  /** Where an entry goes that has to leave the tried table. */
  function HomeSlot(p: Params, info: Info): Slot {
    SourceSlot(p, info.addr, info.source)
  }

  /** Space has been made: the entry that was in the slot is in the new table, and what was there has been cleared. */
  ghost predicate SpaceMade(p: Params, s: State, t: State, slot: Slot) {
    && slot in s.triedTable && s.triedTable[slot] in s.mapInfo
    && var was := s.triedTable[slot];
       var home := HomeSlot(p, s.mapInfo[was]);
       && t.triedTable == s.triedTable - {slot} && t.newTable == s.newTable[home := was]
       && OnlyDisplaced(s, t, was, home)
  }

  /** No record has changed, and only the entry in home may have gone; and only it and was have changed
      otherwise. */
  ghost predicate OnlyDisplaced(s: State, t: State, was: nat, home: Slot) {
    && t.idCount == s.idCount && SameRest(s, t)
    && (forall k :: k in t.mapInfo ==> k in s.mapInfo && SameRecord(s.mapInfo[k], t.mapInfo[k]))
    && (forall k :: k in s.mapInfo && !Holds(s, home, k) ==> k in t.mapInfo)
    && (forall k :: k in s.mapInfo && k != was && !Holds(s, home, k) ==> SamePlaces(s.mapInfo[k], t.mapInfo[k]))
  }

  lemma Refilled(table: map<Slot, nat>, slot: Slot, id: nat)
    ensures (table - {slot})[slot := id] == table[slot := id]
  {
  }

  lemma {:induction false} SpaceFrame(p: Params, s: State, l: State, c: State, t: State, slot: Slot, was: nat,
                                      home: Slot)
    requires Left(s, l, was, slot) && OnlyCleared(l, c, home) && Referenced(c, t, was, home)
    requires home == HomeSlot(p, s.mapInfo[was])
    requires !Holds(s, home, was)
    ensures SpaceMade(p, s, t, slot)
  {
    Refilled(s.newTable, home, was);
    forall k | k in s.mapInfo && k != was && !Holds(s, home, k)
      ensures k in t.mapInfo && SamePlaces(s.mapInfo[k], t.mapInfo[k])
    {
      assert l.mapInfo[k] == s.mapInfo[k] && !Holds(l, home, k);
    }
    forall k | k in t.mapInfo ensures k in s.mapInfo && SameRecord(s.mapInfo[k], t.mapInfo[k]) {
      assert k in c.mapInfo && SameRecord(c.mapInfo[k], t.mapInfo[k]) && SameRecord(s.mapInfo[k], l.mapInfo[k]);
    }
  }

  /** Entries without references are in no slot. */
  lemma {:induction false} NotThere(p: Params, s: State, slot: Slot, id: nat)
    requires NewOk(p, s) && id in s.mapInfo && s.mapInfo[id].refCount == 0
    ensures !Holds(s, slot, id)
  {
    assert RefsOk(s, id);
    NoRefs(s.newTable, id);
  }

  // ---- the whole move ----

  /** Where the new table ends up when an entry moves to the tried table. */
  ghost function NewTableAfter(p: Params, s: State, id: nat): map<Slot, nat>
    requires id in s.mapInfo
  {
    var rest, slot := Without(s.newTable, id), TriedSlot(p, s.mapInfo[id].addr);
    if slot in s.triedTable && s.triedTable[slot] in s.mapInfo
    then rest[HomeSlot(p, s.mapInfo[s.triedTable[slot]]) := s.triedTable[slot]]
    else rest
  }

  /** id has moved to its slot of the tried table; no record has changed, and at most the entry in whose place
      the evicted one was put has gone. */
  ghost predicate MadeTried(p: Params, s: State, t: State, id: nat) {
    && id in s.mapInfo && id in t.mapInfo && t.mapInfo[id].inTried
    && t.triedTable == s.triedTable[TriedSlot(p, s.mapInfo[id].addr) := id] && t.newTable == NewTableAfter(p, s, id)
    && t.idCount == s.idCount && SameRest(s, t)
    && (forall k :: k in t.mapInfo ==> k in s.mapInfo && SameRecord(s.mapInfo[k], t.mapInfo[k]))
    && (forall k :: k in s.mapInfo && k !in t.mapInfo ==> Displaced(p, s, id, k))
  }

  /** k is in the new table where the entry that id evicts goes. */
  ghost predicate Displaced(p: Params, s: State, id: nat, k: nat) {
    && id in s.mapInfo
    && var slot := TriedSlot(p, s.mapInfo[id].addr);
       slot in s.triedTable && s.triedTable[slot] in s.mapInfo
           && Holds(s, HomeSlot(p, s.mapInfo[s.triedTable[slot]]), k)
  }

  lemma {:induction false} MadeFreely(p: Params, s: State, c: State, t: State, id: nat, slot: Slot)
    requires Dropped(s, c, id) && slot == TriedSlot(p, s.mapInfo[id].addr) && slot !in s.triedTable
    requires Entered(c, t, id, slot)
    ensures MadeTried(p, s, t, id)
  {
    forall k | k in t.mapInfo ensures k in s.mapInfo && SameRecord(s.mapInfo[k], t.mapInfo[k]) {
      assert k in c.mapInfo && SameRecord(c.mapInfo[k], t.mapInfo[k]);
    }
  }

  lemma {:induction false} RecordsBySpace(p: Params, s: State, c: State, r: State, t: State, id: nat, slot: Slot)
    requires Dropped(s, c, id) && SpaceMade(p, c, r, slot) && Entered(r, t, id, slot)
    ensures forall k :: k in t.mapInfo ==> k in s.mapInfo && SameRecord(s.mapInfo[k], t.mapInfo[k])
  {
    forall k | k in t.mapInfo ensures k in s.mapInfo && SameRecord(s.mapInfo[k], t.mapInfo[k]) {
      assert k in r.mapInfo && SameRecord(r.mapInfo[k], t.mapInfo[k]) && k in c.mapInfo
          && SameRecord(c.mapInfo[k], r.mapInfo[k]);
    }
  }

  lemma {:induction false} MadeBySpace(p: Params, s: State, c: State, r: State, t: State, id: nat, slot: Slot)
    requires Dropped(s, c, id) && slot == TriedSlot(p, s.mapInfo[id].addr) && slot in s.triedTable
    requires s.triedTable[slot] != id
    requires SpaceMade(p, c, r, slot) && Entered(r, t, id, slot) && SamePlaces(c.mapInfo[id], r.mapInfo[id])
    ensures MadeTried(p, s, t, id)
  {
    var was := s.triedTable[slot];
    assert c.mapInfo[was] == s.mapInfo[was];
    Refilled(s.triedTable, slot, id);
    RecordsBySpace(p, s, c, r, t, id, slot);
    forall k | k in s.mapInfo && k !in t.mapInfo ensures Displaced(p, s, id, k) {
      assert k in c.mapInfo && k !in r.mapInfo;
      assert Holds(c, HomeSlot(p, s.mapInfo[was]), k);
    }
  }

  // ---- adding ----

  /** No record has changed, no entry is new, and neither the tried table nor the rest have changed. */
  ghost predicate OnlyNew(s: State, t: State) {
    && t.triedTable == s.triedTable && t.idCount == s.idCount && SameRest(s, t)
    && (forall k :: k in t.mapInfo ==> k in s.mapInfo && SameRecord(s.mapInfo[k], t.mapInfo[k]))
  }

  /** The entry is referenced from the slot. */
  ghost predicate Inserted(s: State, t: State, id: nat, slot: Slot) {
    && OnlyNew(s, t) && id in t.mapInfo && t.newTable == s.newTable[slot := id]
    && (forall k :: k in s.mapInfo && !Holds(s, slot, k) ==> k in t.mapInfo)
  }

  /** The entry is not referenced from one more slot, and is gone if it had none. */
  ghost predicate Refused(s: State, t: State, id: nat) {
    && OnlyNew(s, t) && t.newTable == s.newTable && id in s.mapInfo
    && if s.mapInfo[id].refCount == 0 then t.mapAddr == s.mapAddr - {s.mapInfo[id].addr} else t == s
  }

  lemma {:induction false} InsertedFrame(s: State, c: State, t: State, id: nat, slot: Slot)
    requires OnlyCleared(s, c, slot) && Referenced(c, t, id, slot)
    ensures Inserted(s, t, id, slot)
  {
    forall k | k in t.mapInfo ensures k in s.mapInfo && SameRecord(s.mapInfo[k], t.mapInfo[k]) {
      assert k in c.mapInfo && SameRecord(c.mapInfo[k], t.mapInfo[k]);
    }
  }

  lemma {:induction false} RefusedFrame(s: State, t: State, id: nat)
    requires id in s.mapInfo && if s.mapInfo[id].refCount == 0 then OnlyWithout(s, t, id) else t == s
    ensures Refused(s, t, id)
  {
    forall k | k in t.mapInfo ensures k in s.mapInfo && SameRecord(s.mapInfo[k], t.mapInfo[k]) {
      assert t == s || SamePlaces(s.mapInfo[k], t.mapInfo[k]);
    }
  }

  /** t has an entry for the address, and if it is new that is the only one more than s has. */
  ghost predicate Known(s: State, t: State, id: nat, addr: nat) {
    && id in t.mapInfo && t.mapInfo[id].addr == addr && t.newTable == s.newTable && t.triedTable == s.triedTable
    && SameRest(s, t)
    && Grows(s, t)
    && (t.mapInfo[id].refCount == 0 ==> addr !in s.mapAddr && t.mapAddr == s.mapAddr[addr := id])
    && (t.mapInfo[id].refCount != 0 ==> t.mapAddr == s.mapAddr)
  }

  lemma {:induction false} NotedIsKnown(s: State, t: State, id: nat)
    requires Noted(s, t, id) && s.mapInfo[id].refCount != 0
    ensures Known(s, t, id, s.mapInfo[id].addr)
  {
  }

  lemma {:induction false} CreatedIsKnown(p: Params, s: State, c: State, t: State, id: nat)
    requires OneMoreEntry(p, s, c, id) && Noted(c, t, id)
    ensures Known(s, t, id, c.mapInfo[id].addr)
  {
  }

  lemma {:induction false} AddedFrame(s: State, t: State, u: State, id: nat, addr: nat, slot: Slot)
    requires Known(s, t, id, addr) && Inserted(t, u, id, slot) && Directory(u)
    ensures Grows(s, u) && u.triedTable == s.triedTable && SameRest(s, u)
    ensures addr in u.mapAddr && u.newTable == s.newTable[slot := u.mapAddr[addr]]
  {
    assert Listed(u, id);
    forall k | k in u.mapInfo && k < s.idCount ensures k in s.mapInfo && s.mapInfo[k].addr == u.mapInfo[k].addr {
      assert k in t.mapInfo && SameRecord(t.mapInfo[k], u.mapInfo[k]);
    }
  }

  lemma {:induction false} NotAddedFrame(s: State, t: State, u: State, id: nat, addr: nat)
    requires Known(s, t, id, addr) && Refused(t, u, id)
    ensures Grows(s, u) && u.triedTable == s.triedTable && SameRest(s, u) && u.newTable == s.newTable
    ensures u.mapAddr == s.mapAddr
  {
    forall k | k in u.mapInfo && k < s.idCount ensures k in s.mapInfo && s.mapInfo[k].addr == u.mapInfo[k].addr {
      assert k in t.mapInfo && SameRecord(t.mapInfo[k], u.mapInfo[k]);
    }
  }

  /** An entry that is in a slot has a reference. */
  lemma {:induction false} IsReferenced(p: Params, s: State, slot: Slot, id: nat)
    requires NewOk(p, s) && Holds(s, slot, id)
    ensures id in s.mapInfo && s.mapInfo[id].refCount != 0
  {
    assert NewEntryOk(p, s, slot) && RefsOk(s, id);
    NoRefs(s.newTable, id);
  }

  // ---- collisions ----

  lemma {:induction false} CollisionsKept(p: Params, s: State, t: State)
    requires CollisionsOk(p, s) && Grows(s, t) && t.collisions <= s.collisions
    ensures CollisionsOk(p, t)
  {
    forall id | id in t.collisions ensures Waits(p, t, id) {
      assert Waits(p, s, id);
    }
  }

  lemma {:induction false} GrowsTransitive(s: State, t: State, u: State)
    requires Grows(s, t) && Grows(t, u)
    ensures Grows(s, u)
  {
  }

  lemma {:induction false} MadeGrows(p: Params, s: State, t: State, id: nat)
    requires MadeTried(p, s, t, id) && CollisionsOk(p, s)
    ensures Grows(s, t) && CollisionsOk(p, t)
  {
    CollisionsKept(p, s, t);
  }

  lemma {:induction false} CollideInv(p: Params, s: State, t: State, id: nat)
    requires Inv(p, s) && t == s.(collisions := s.collisions + {id}) && Waits(p, s, id)
    ensures Inv(p, t)
  {
    RestChanged(p, s, t, {}, {});
    forall k | k in t.collisions ensures Waits(p, t, k) {
      assert Waits(p, s, k);
    }
  }

  /** Neither the last success nor the collisions matter to the tables. */
  lemma {:induction false} RestChanged(p: Params, s: State, t: State, loose: set<nat>, out: set<nat>)
    requires Agrees(p, s, loose, out) && t == s.(lastGood := t.lastGood, collisions := t.collisions)
    ensures Agrees(p, t, loose, out)
  {
    DirectoryKept(s, t);
    TablesKept(p, s, t);
    CountsKept(p, s, t, out);
    forall k | k in t.mapInfo ensures InfoAt(t, loose, k) {
      assert InfoAt(s, loose, k);
    }
  }

  lemma {:induction false} LastGoodSet(p: Params, s: State, t: State)
    requires Inv(p, s) && t == s.(lastGood := t.lastGood)
    ensures Inv(p, t)
  {
    RestChanged(p, s, t, {}, {});
    CollisionsKept(p, s, t);
  }
}
