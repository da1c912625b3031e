/** Moving entries of the address manager between its tables. */
module AddrManMoves {
  import opened AddrManStates
  import opened AddrManSteps

  /** Of the entries only id has changed, and neither its address nor its position in the random order. */
  ghost predicate OneChanged(s: State, t: State, id: nat) {
    && id in s.mapInfo && t.mapInfo.Keys == s.mapInfo.Keys && SameOrder(s, t) && SameRest(s, t)
    && (forall k :: k in s.mapInfo && k != id ==> t.mapInfo[k] == s.mapInfo[k])
    && t.mapInfo[id].addr == s.mapInfo[id].addr && t.mapInfo[id].randomPos == s.mapInfo[id].randomPos
  }

  lemma {:induction false} OneChangedDirectory(s: State, t: State, id: nat)
    requires Directory(s) && OneChanged(s, t, id)
    ensures Directory(t)
  {
    DirectoryKept(s, t);
  }

  lemma {:induction false} OneChangedInfos(s: State, t: State, id: nat, loose: set<nat>, loose': set<nat>)
    requires InfosOk(s, loose) && OneChanged(s, t, id) && InfoAt(t, loose', id) && loose' - {id} == loose - {id}
    ensures InfosOk(t, loose')
  {
    forall k | k in t.mapInfo ensures InfoAt(t, loose', k) {
      assert InfoAt(s, loose, k);
      assert k != id ==> (k in loose' <==> k in loose' - {id});
    }
  }

  // ---- records ----

  /** Only what is known of an address differs, not where its entry is. */
  ghost predicate OnlyRecord(i: Info, j: Info) {
    && SameInTables(i, j) && j.randomPos == i.randomPos && j.source == i.source
    && j.lastTry >= 0 && j.lastSuccess >= 0 && (i.inTried ==> j.lastSuccess > 0)
  }

  ghost predicate Noted(s: State, t: State, id: nat) {
    && OneChanged(s, t, id) && OnlyRecord(s.mapInfo[id], t.mapInfo[id])
    && t.triedTable == s.triedTable && t.newTable == s.newTable && SameCounts(s, t)
  }

  lemma {:induction false} NoteAgrees(p: Params, s: State, t: State, id: nat, loose: set<nat>, out: set<nat>)
    requires Agrees(p, s, loose, out) && Noted(s, t, id)
    ensures Agrees(p, t, loose, out)
  {
    OneChangedDirectory(s, t, id);
    TablesKept(p, s, t);
    CountsKept(p, s, t, out);
    assert InfoAt(s, loose, id);
    OneChangedInfos(s, t, id, loose, loose);
  }

  // ---- references from the new table ----

  lemma {:induction false} RefAdded(table: map<Slot, nat>, slot: Slot, id: nat, k: nat)
    requires slot !in table
    ensures |Refs(table[slot := id], k)| == |Refs(table, k)| + if k == id then 1 else 0
  {
    var a, b := Refs(table, k), Refs(table[slot := id], k);
    if k == id {
      OneMore(a, b, slot);
    } else {
      assert a == b;
    }
  }

  lemma {:induction false} RefRemoved(table: map<Slot, nat>, slot: Slot, k: nat)
    requires slot in table
    ensures |Refs(table - {slot}, k)| == |Refs(table, k)| - if k == table[slot] then 1 else 0
  {
    var a, b := Refs(table - {slot}, k), Refs(table, k);
    if k == table[slot] {
      OneMore(a, b, slot);
    } else {
      assert a == b;
    }
  }

  lemma {:induction false} TriedKept(p: Params, s: State, t: State, id: nat)
    requires TriedOk(p, s) && OneChanged(s, t, id) && t.triedTable == s.triedTable
    requires t.mapInfo[id].inTried == s.mapInfo[id].inTried
    ensures TriedOk(p, t)
  {
    forall slot | slot in t.triedTable ensures TriedEntryOk(p, t, slot) {
      assert TriedEntryOk(p, s, slot);
    }
    forall k | k in t.mapInfo ensures InItsSlot(p, t, k) {
      assert InItsSlot(p, s, k);
    }
  }

  /** The entry is referenced from one more slot, which was empty. */
  ghost predicate Referenced(s: State, t: State, id: nat, slot: Slot) {
    && OneChanged(s, t, id) && t.triedTable == s.triedTable && slot !in s.newTable
    && t.newTable == s.newTable[slot := id]
    && t.mapInfo[id] == s.mapInfo[id].(refCount := s.mapInfo[id].refCount + 1)
  }

  /** An entry may be referenced from slot. */
  predicate FitsNew(p: Params, info: Info, slot: Slot) {
    !info.inTried && slot.bucket < NEW_BUCKETS && slot == NewSlot(p, slot.bucket, info.addr)
  }

  lemma {:induction false} ReferenceNewOk(p: Params, s: State, t: State, id: nat, slot: Slot)
    requires NewOk(p, s) && Referenced(s, t, id, slot) && FitsNew(p, s.mapInfo[id], slot)
    ensures NewOk(p, t)
  {
    forall x | x in t.newTable ensures NewEntryOk(p, t, x) {
      assert x != slot ==> NewEntryOk(p, s, x);
    }
    forall k | k in t.mapInfo ensures RefsOk(t, k) {
      assert RefsOk(s, k);
      RefAdded(s.newTable, slot, id, k);
    }
  }

  lemma {:induction false} ReferenceAgrees(p: Params, s: State, t: State, id: nat, slot: Slot, loose: set<nat>,
                                           out: set<nat>)
    requires Agrees(p, s, loose, out) && Referenced(s, t, id, slot) && FitsNew(p, s.mapInfo[id], slot)
    requires SameCounts(s, t)
    requires s.mapInfo[id].refCount < PER_ADDRESS
    ensures Agrees(p, t, loose - {id}, out)
  {
    OneChangedDirectory(s, t, id);
    TriedKept(p, s, t, id);
    ReferenceNewOk(p, s, t, id, slot);
    CountsKept(p, s, t, out);
    assert InfoAt(s, loose, id) && RefsOk(s, id);
    OneChangedInfos(s, t, id, loose, loose - {id});
  }

  /** A slot has been emptied. */
  ghost predicate Unreferenced(s: State, t: State, id: nat, slot: Slot) {
    && OneChanged(s, t, id) && t.triedTable == s.triedTable && slot in s.newTable && s.newTable[slot] == id
    && t.newTable == s.newTable - {slot} && t.mapInfo[id] == s.mapInfo[id].(refCount := s.mapInfo[id].refCount - 1)
  }

  lemma {:induction false} UnreferenceNewOk(p: Params, s: State, t: State, id: nat, slot: Slot)
    requires NewOk(p, s) && Unreferenced(s, t, id, slot)
    ensures NewOk(p, t)
  {
    forall x | x in t.newTable ensures NewEntryOk(p, t, x) {
      assert NewEntryOk(p, s, x);
    }
    forall k | k in t.mapInfo ensures RefsOk(t, k) {
      assert RefsOk(s, k);
      RefRemoved(s.newTable, slot, k);
    }
  }

  /** The entry that was there may be left without any reference. */
  lemma {:induction false} UnreferenceAgrees(p: Params, s: State, t: State, id: nat, slot: Slot, loose: set<nat>,
                                             loose': set<nat>, out: set<nat>)
    requires Agrees(p, s, loose, out) && Unreferenced(s, t, id, slot) && SameCounts(s, t)
    requires loose' - {id} == loose - {id} && (t.mapInfo[id].refCount > 0 || id in loose')
    ensures Agrees(p, t, loose', out)
  {
    OneChangedDirectory(s, t, id);
    TriedKept(p, s, t, id);
    UnreferenceNewOk(p, s, t, id, slot);
    CountsKept(p, s, t, out);
    assert InfoAt(s, loose, id) && NewEntryOk(p, s, slot);
    OneChangedInfos(s, t, id, loose, loose');
  }

  /** No slot holds the entry any more. */
  ghost predicate Dropped(s: State, t: State, id: nat) {
    && OneChanged(s, t, id) && t.triedTable == s.triedTable && t.mapInfo[id] == s.mapInfo[id].(refCount := 0)
    && t.newTable == Without(s.newTable, id)
  }

  function Without(table: map<Slot, nat>, id: nat): map<Slot, nat> {
    map slot | slot in table && table[slot] != id :: table[slot]
  }

  lemma {:induction false} DropNewOk(p: Params, s: State, t: State, id: nat)
    requires NewOk(p, s) && Dropped(s, t, id)
    ensures NewOk(p, t)
  {
    forall x | x in t.newTable ensures NewEntryOk(p, t, x) {
      assert NewEntryOk(p, s, x);
    }
    forall k | k in t.mapInfo ensures RefsOk(t, k) {
      assert RefsOk(s, k);
      if k == id {
        NoRefs(t.newTable, k);
      } else {
        assert Refs(t.newTable, k) == Refs(s.newTable, k);
      }
    }
  }

  /** Leaving the new table: in no table, and not counted. */
  lemma {:induction false} DropAgrees(p: Params, s: State, t: State, id: nat, loose: set<nat>, out: set<nat>)
    requires Agrees(p, s, loose, out) && Dropped(s, t, id) && !s.mapInfo[id].inTried && id !in out
    requires Recounted(p, s, t, s.mapInfo[id].addr, false, -1)
    ensures Agrees(p, t, loose + {id}, out + {id})
  {
    OneChangedDirectory(s, t, id);
    TriedKept(p, s, t, id);
    DropNewOk(p, s, t, id);
    Leaves(p, s, out, t, out + {id}, id);
    assert InfoAt(s, loose, id);
    OneChangedInfos(s, t, id, loose, loose + {id});
  }

  /** Entering the new table from none. */
  lemma {:induction false} ReturnAgrees(p: Params, s: State, t: State, id: nat, slot: Slot, loose: set<nat>,
                                        out: set<nat>)
    requires Agrees(p, s, loose, out) && Referenced(s, t, id, slot) && FitsNew(p, s.mapInfo[id], slot) && id in out
    requires s.mapInfo[id].refCount == 0 && Recounted(p, s, t, s.mapInfo[id].addr, false, 1)
    ensures Agrees(p, t, loose - {id}, out - {id})
  {
    OneChangedDirectory(s, t, id);
    TriedKept(p, s, t, id);
    ReferenceNewOk(p, s, t, id, slot);
    Joins(p, s, out, t, out - {id}, id);
    assert InfoAt(s, loose, id);
    OneChangedInfos(s, t, id, loose, loose - {id});
  }

  // ---- entering and leaving the tried table ----

  ghost predicate Entered(s: State, t: State, id: nat, slot: Slot) {
    && OneChanged(s, t, id) && t.newTable == s.newTable && slot !in s.triedTable
    && t.triedTable == s.triedTable[slot := id]
    && t.mapInfo[id] == s.mapInfo[id].(inTried := true)
  }

  ghost predicate Left(s: State, t: State, id: nat, slot: Slot) {
    && OneChanged(s, t, id) && t.newTable == s.newTable && slot in s.triedTable && s.triedTable[slot] == id
    && t.triedTable == s.triedTable - {slot} && t.mapInfo[id] == s.mapInfo[id].(inTried := false)
  }

  lemma {:induction false} NewKept(p: Params, s: State, t: State, id: nat)
    requires NewOk(p, s) && OneChanged(s, t, id) && t.newTable == s.newTable
    requires t.mapInfo[id].refCount == s.mapInfo[id].refCount == 0
    ensures NewOk(p, t)
  {
    assert RefsOk(s, id);
    NoRefs(s.newTable, id);
    forall x | x in t.newTable ensures NewEntryOk(p, t, x) {
      assert NewEntryOk(p, s, x);
    }
    forall k | k in t.mapInfo ensures RefsOk(t, k) {
      assert RefsOk(s, k);
    }
  }

  lemma {:induction false} EnterTriedOk(p: Params, s: State, t: State, id: nat, slot: Slot)
    requires TriedOk(p, s) && Entered(s, t, id, slot) && slot == TriedSlot(p, s.mapInfo[id].addr)
    ensures TriedOk(p, t)
  {
    forall x | x in t.triedTable ensures TriedEntryOk(p, t, x) {
      assert x != slot ==> TriedEntryOk(p, s, x);
    }
    forall k | k in t.mapInfo ensures InItsSlot(p, t, k) {
      assert InItsSlot(p, s, k);
    }
  }

  lemma {:induction false} EnterAgrees(p: Params, s: State, t: State, id: nat, slot: Slot, loose: set<nat>,
                                       out: set<nat>)
    requires Agrees(p, s, loose, out) && Entered(s, t, id, slot) && slot == TriedSlot(p, s.mapInfo[id].addr)
    requires id in out
    requires s.mapInfo[id].refCount == 0 && s.mapInfo[id].lastSuccess > 0
    requires Recounted(p, s, t, s.mapInfo[id].addr, true, 1)
    ensures Agrees(p, t, loose - {id}, out - {id})
  {
    OneChangedDirectory(s, t, id);
    EnterTriedOk(p, s, t, id, slot);
    NewKept(p, s, t, id);
    Joins(p, s, out, t, out - {id}, id);
    assert InfoAt(s, loose, id);
    OneChangedInfos(s, t, id, loose, loose - {id});
  }

  lemma {:induction false} LeaveTriedOk(p: Params, s: State, t: State, id: nat, slot: Slot)
    requires TriedOk(p, s) && Left(s, t, id, slot)
    ensures TriedOk(p, t)
  {
    forall x | x in t.triedTable ensures TriedEntryOk(p, t, x) {
      assert TriedEntryOk(p, s, x) && TriedEntryOk(p, s, slot);
    }
    forall k | k in t.mapInfo ensures InItsSlot(p, t, k) {
      assert InItsSlot(p, s, k) && TriedEntryOk(p, s, slot);
    }
  }

  /** A tried entry is not in the new table. */
  lemma {:induction false} TriedHasNoRefs(p: Params, s: State, id: nat)
    requires NewOk(p, s) && id in s.mapInfo && s.mapInfo[id].inTried
    ensures s.mapInfo[id].refCount == 0
  {
    forall x | x in s.newTable ensures s.newTable[x] != id {
      assert NewEntryOk(p, s, x);
    }
    NoRefs(s.newTable, id);
    assert RefsOk(s, id);
  }

  lemma {:induction false} LeaveAgrees(p: Params, s: State, t: State, id: nat, slot: Slot, loose: set<nat>,
                                       out: set<nat>)
    requires Agrees(p, s, loose, out) && Left(s, t, id, slot) && id !in out
    requires Recounted(p, s, t, s.mapInfo[id].addr, true, -1)
    ensures s.mapInfo[id].inTried && s.mapInfo[id].refCount == 0 && Agrees(p, t, loose + {id}, out + {id})
  {
    assert TriedEntryOk(p, s, slot) && InfoAt(s, loose, id);
    OneChangedDirectory(s, t, id);
    LeaveTriedOk(p, s, t, id, slot);
    TriedHasNoRefs(p, s, id);
    NewKept(p, s, t, id);
    Leaves(p, s, out, t, out + {id}, id);
    OneChangedInfos(s, t, id, loose, loose + {id});
  }
}
