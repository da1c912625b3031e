/** The address manager's operations. */
module AddrMans {
  import opened Options
  import opened Sets
  import opened AddrManStates
  import opened AddrManSteps
  import opened AddrManMoves
  import opened AddrManTables
  import opened AddrManRecords
  import opened AddrManCollisions

  ghost predicate IsEmpty(s: State) {
    && s.mapInfo == map[] && s.mapAddr == map[] && s.random == [] && s.triedTable == map[] && s.newTable == map[]
    && s.collisions == {} && s.counts == map[]
  }

  lemma {:induction false} EmptyInv(p: Params, s: State)
    requires IsEmpty(s) && s.nTried == 0 && s.nNew == 0
    ensures Inv(p, s)
  {
    forall tried, net ensures CountOk(p, s, {}, tried, net) {
      assert Counted(p, s, {}, tried, net) == {};
    }
  }

  /** An entry to be inserted, loose if nothing refers to it yet. */
  ghost predicate Ready(p: Params, s: State, id: nat) {
    && id in s.mapInfo && !s.mapInfo[id].inTried && s.mapInfo[id].refCount < PER_ADDRESS
    && Agrees(p, s, if s.mapInfo[id].refCount == 0 then {id} else {}, {})
  }

  class AddrMan {
    const p: Params
    var idCount: nat
    var mapInfo: map<nat, Info>
    var mapAddr: map<nat, nat>
    var random: seq<nat>
    var nTried: int
    var triedTable: map<Slot, nat>
    var nNew: int
    var newTable: map<Slot, nat>
    var lastGood: int
    var collisions: set<nat>
    var counts: map<nat, Tally>

    function View(): State
      reads this
    {
      State(idCount, mapInfo, mapAddr, random, nTried, triedTable, nNew, newTable, lastGood, collisions, counts)
    }

    ghost predicate Valid()
      reads this
    {
      Inv(p, View())
    }

    constructor (params: Params)
      ensures p == params && Valid() && IsEmpty(View())
    {
      p := params;
      idCount, mapInfo, mapAddr, random := 0, map[], map[], [];
      nTried, triedTable, nNew, newTable := 0, map[], 0, map[];
      lastGood, collisions, counts := 1, {}, map[];
      new;
      EmptyInv(p, View());
    }

    // ---- entries ----

    /** The id of an address. */
    function Find(addr: nat): (r: Option<nat>)
      reads this
    {
      if addr in mapAddr && mapAddr[addr] in mapInfo then Some(mapAddr[addr]) else None
    }

    method SwapRandom(i: nat, j: nat)
      requires RandomOk(View(), i) && RandomOk(View(), j)
      modifies this
      ensures Swapped(old(View()), View(), i, j)
    {
      if i == j {
        return;
      }
      var id1, id2 := random[i], random[j];
      mapInfo := mapInfo[id1 := mapInfo[id1].(randomPos := j)];
      mapInfo := mapInfo[id2 := mapInfo[id2].(randomPos := i)];
      random := random[i := id2];
      random := random[j := id1];
    }

    method Create(addr: nat, source: nat, time: int, services: set<nat>) returns (id: nat)
      requires Agrees(p, View(), {}, {}) && addr !in mapAddr
      modifies this
      ensures id == old(idCount) && OneMoreEntry(p, old(View()), View(), id) && Agrees(p, View(), {id}, {})
      ensures mapInfo[id] == Info(addr, source, time, services, 0, 0, 0, 0, 0, false, old(|random|))
    {
      ghost var s := View();
      id := idCount;
      assert id in mapInfo ==> Listed(s, id);
      idCount := idCount + 1;
      mapInfo := mapInfo[id := Info(addr, source, time, services, 0, 0, 0, 0, 0, false, |random|)];
      mapAddr := mapAddr[addr := id];
      random := random + [id];
      nNew := nNew + 1;
      counts := Bumped(counts, p.network(addr), 1, 0);
      CreateAgrees(p, s, View(), id, {});
      assert {} + {id} == {id};
    }

    /** Delete an entry that is in no table. */
    method Delete(id: nat, ghost loose: set<nat>, ghost out: set<nat>)
      requires Agrees(p, View(), loose, out) && Deletable(View(), out, id)
      modifies this
      ensures Agrees(p, View(), loose - {id}, out) && OnlyWithout(old(View()), View(), id)
    {
      ghost var s := View();
      assert Listed(s, id);
      var pos, last := mapInfo[id].randomPos, |random| - 1;
      assert RandomOk(s, pos) && RandomOk(s, last);
      SwapRandom(pos, last);
      ghost var t := View();
      SwapAgrees(p, s, t, pos, last, loose, out);
      assert RandomOk(t, last) && SamePlaces(s.mapInfo[id], t.mapInfo[id]);
      RemoveLast(id);
      RemoveAgrees(p, t, View(), id, loose, out);
      DeletedFrame(p, s, t, View(), pos, last, id);
    }

    method RemoveLast(id: nat)
      requires id in mapInfo && random != []
      modifies this
      ensures Removed(p, old(View()), View(), id)
    {
      var addr := mapInfo[id].addr;
      counts := Bumped(counts, p.network(addr), -1, 0);
      random := random[..|random| - 1];
      mapAddr := mapAddr - {addr};
      mapInfo := mapInfo - {id};
      nNew := nNew - 1;
    }

    // ---- the new table ----

    method Unreference(slot: Slot) returns (id: nat)
      requires slot in newTable && newTable[slot] in mapInfo
      modifies this
      ensures id == old(newTable[slot]) && Unreferenced(old(View()), View(), id, slot)
      ensures SameCounts(old(View()), View())
    {
      id := newTable[slot];
      mapInfo := mapInfo[id := mapInfo[id].(refCount := mapInfo[id].refCount - 1)];
      newTable := newTable - {slot};
    }

    /** Empty a slot of the new table, and delete the entry there if that was its last. */
    method ClearNew(slot: Slot, ghost loose: set<nat>, ghost out: set<nat>)
      requires Agrees(p, View(), loose, out) && out <= loose && (slot in newTable ==> newTable[slot] !in loose)
      modifies this
      ensures Agrees(p, View(), loose, out) && OnlyCleared(old(View()), View(), slot)
    {
      ghost var s := View();
      if slot in newTable {
        assert NewEntryOk(p, s, slot);
        var id := Unreference(slot);
        ghost var t := View();
        PutBack(loose, id);
        if mapInfo[id].refCount == 0 {
          UnreferenceAgrees(p, s, t, id, slot, loose, loose + {id}, out);
          Delete(id, loose + {id}, out);
        } else {
          assert RefsOk(s, id);
          RefRemoved(s.newTable, slot, id);
          UnreferenceAgrees(p, s, t, id, slot, loose, loose, out);
        }
        ClearedFrame(s, t, View(), slot, id);
      } else {
        assert s.newTable - {slot} == s.newTable;
      }
    }

    /** Drop all references to an entry, visiting the buckets in turn until none is left. */
    method DropRefs(id: nat)
      requires NewOk(p, View()) && id in mapInfo && mapInfo[id].refCount > 0
      modifies this
      ensures Dropped(old(View()), View(), id) && SameCounts(old(View()), View())
    {
      ghost var s := View();
      assert RefsOk(s, id);
      var start := NewBucket(p, mapInfo[id].addr, mapInfo[id].source);
      for n := 0 to NEW_BUCKETS
        invariant Dropping(p, s, View(), id, start, n)
      {
        var bucket := (start + n) % NEW_BUCKETS;
        var slot := NewSlot(p, bucket, mapInfo[id].addr);
        if slot in newTable && newTable[slot] == id {
          ghost var t := View();
          var same := Unreference(slot);
          DropOne(p, s, t, View(), id, start, n, slot);
          if mapInfo[id].refCount == 0 {
            AllDropped(p, s, View(), id, start, n + 1);
            return;
          }
        } else {
          DropNone(p, s, View(), id, start, n);
        }
      }
      AllDropped(p, s, View(), id, start, NEW_BUCKETS);
    }

    // ---- moving to the tried table ----

    method LeaveTried(slot: Slot) returns (was: nat)
      requires slot in triedTable && triedTable[slot] in mapInfo
      modifies this
      ensures was == old(triedTable[slot]) && Left(old(View()), View(), was, slot)
      ensures Recounted(p, old(View()), View(), mapInfo[was].addr, true, -1)
    {
      was := triedTable[slot];
      mapInfo := mapInfo[was := mapInfo[was].(inTried := false)];
      triedTable := triedTable - {slot};
      nTried := nTried - 1;
      counts := Bumped(counts, p.network(mapInfo[was].addr), 0, -1);
    }

    method ReturnToNew(was: nat, home: Slot)
      requires was in mapInfo && mapInfo[was].refCount == 0 && home !in newTable
      modifies this
      ensures Referenced(old(View()), View(), was, home)
      ensures Recounted(p, old(View()), View(), mapInfo[was].addr, false, 1)
    {
      mapInfo := mapInfo[was := mapInfo[was].(refCount := 1)];
      newTable := newTable[home := was];
      nNew := nNew + 1;
      counts := Bumped(counts, p.network(mapInfo[was].addr), 1, 0);
    }

    /** Move the entry in a slot of the tried table to the new table, deleting whatever is there. */
    method MakeSpace(slot: Slot, ghost id: nat)
      requires Agrees(p, View(), {id}, {id}) && slot in triedTable && id in mapInfo && mapInfo[id].refCount == 0
      requires !mapInfo[id].inTried
      modifies this
      ensures Agrees(p, View(), {id}, {id}) && SpaceMade(p, old(View()), View(), slot)
      ensures id in mapInfo && SamePlaces(old(mapInfo[id]), mapInfo[id])
    {
      ghost var s := View();
      assert TriedEntryOk(p, s, slot);
      var info := mapInfo[triedTable[slot]];
      var was := LeaveTried(slot);
      ghost var l := View();
      LeaveAgrees(p, s, l, was, slot, {id}, {id});
      var home := HomeSlot(p, info);
      NotThere(p, l, home, id);
      NotThere(p, l, home, was);
      ClearNew(home, {id} + {was}, {id} + {was});
      ghost var c := View();
      assert l.mapInfo[id] == s.mapInfo[id];
      assert SamePlaces(l.mapInfo[was], c.mapInfo[was]);
      ReturnToNew(was, home);
      ReturnAgrees(p, c, View(), was, home, {id} + {was}, {id} + {was});
      PutBack({id}, was);
      SpaceFrame(p, s, l, c, View(), slot, was, home);
    }

    method EnterTried(id: nat, slot: Slot)
      requires id in mapInfo && slot !in triedTable
      modifies this
      ensures Entered(old(View()), View(), id, slot) && Recounted(p, old(View()), View(), mapInfo[id].addr, true, 1)
    {
      triedTable := triedTable[slot := id];
      nTried := nTried + 1;
      mapInfo := mapInfo[id := mapInfo[id].(inTried := true)];
      counts := Bumped(counts, p.network(mapInfo[id].addr), 0, 1);
    }

    /** Take an entry out of all its slots and of the counts. */
    method LeaveNew(id: nat)
      requires Agrees(p, View(), {}, {}) && id in mapInfo && !mapInfo[id].inTried
      modifies this
      ensures Dropped(old(View()), View(), id) && Agrees(p, View(), {id}, {id})
    {
      ghost var s := View();
      assert InfoAt(s, {}, id);
      DropRefs(id);
      nNew := nNew - 1;
      counts := Bumped(counts, p.network(mapInfo[id].addr), -1, 0);
      DropAgrees(p, s, View(), id, {}, {});
      assert {} + {id} == {id};
    }

    method MakeTried(id: nat)
      requires Agrees(p, View(), {}, {}) && id in mapInfo && !mapInfo[id].inTried && mapInfo[id].lastSuccess > 0
      modifies this
      ensures Agrees(p, View(), {}, {}) && MadeTried(p, old(View()), View(), id)
    {
      ghost var s := View();
      LeaveNew(id);
      ghost var c := View();
      var slot := TriedSlot(p, mapInfo[id].addr);
      if slot in triedTable {
        MakeSpace(slot, id);
      }
      ghost var r := View();
      EnterTried(id, slot);
      EnterAgrees(p, r, View(), id, slot, {id}, {id});
      assert {id} - {id} == {};
      if slot in s.triedTable {
        assert TriedEntryOk(p, s, slot);
        MadeBySpace(p, s, c, r, View(), id, slot);
      } else {
        MadeFreely(p, s, c, View(), id, slot);
      }
    }

    // ---- adding ----

    method Reference(id: nat, slot: Slot)
      requires id in mapInfo && slot !in newTable
      modifies this
      ensures Referenced(old(View()), View(), id, slot) && SameCounts(old(View()), View())
    {
      mapInfo := mapInfo[id := mapInfo[id].(refCount := mapInfo[id].refCount + 1)];
      newTable := newTable[slot := id];
    }

    /** Put an entry in a slot, deleting whatever is there. */
    method Place(id: nat, slot: Slot, ghost loose: set<nat>)
      requires Agrees(p, View(), loose, {}) && id in mapInfo && loose <= {id} && FitsNew(p, mapInfo[id], slot)
      requires mapInfo[id].refCount < PER_ADDRESS && !Holds(View(), slot, id)
      modifies this
      ensures Agrees(p, View(), {}, {}) && Inserted(old(View()), View(), id, slot)
    {
      ghost var s := View();
      ClearNew(slot, loose, {});
      ghost var c := View();
      assert SamePlaces(s.mapInfo[id], c.mapInfo[id]);
      Reference(id, slot);
      ReferenceAgrees(p, c, View(), id, slot, loose, {});
      assert loose - {id} == {};
      InsertedFrame(s, c, View(), id, slot);
    }

    /** Leave an entry where it is, or delete it if that is nowhere. */
    method Refuse(id: nat)
      requires id in mapInfo && !mapInfo[id].inTried
      requires Agrees(p, View(), if mapInfo[id].refCount == 0 then {id} else {}, {})
      modifies this
      ensures Agrees(p, View(), {}, {}) && Refused(old(View()), View(), id)
    {
      ghost var s := View();
      if mapInfo[id].refCount == 0 {
        Delete(id, {id}, {});
        assert {id} - {id} == {};
      }
      RefusedFrame(s, View(), id);
    }

    /** Refer to an entry from a slot, unless what is there is to stay. */
    method Insert(id: nat, slot: Slot, now: int) returns (inserted: bool)
      requires id in mapInfo && !mapInfo[id].inTried && mapInfo[id].refCount < PER_ADDRESS
      requires Agrees(p, View(), if mapInfo[id].refCount == 0 then {id} else {}, {}) && FitsNew(p, mapInfo[id], slot)
      modifies this
      ensures Agrees(p, View(), {}, {}) && (inserted <==> Inserts(old(View()), slot, id, now))
      ensures if inserted then Inserted(old(View()), View(), id, slot) else Refused(old(View()), View(), id)
    {
      ghost var loose := if mapInfo[id].refCount == 0 then {id} else {};
      inserted := slot !in newTable;
      if slot in newTable && newTable[slot] == id {
        IsReferenced(p, View(), slot, id);
      } else {
        if !inserted {
          assert NewEntryOk(p, View(), slot);
          var existing := mapInfo[newTable[slot]];
          inserted := IsTerrible(existing, now) || (existing.refCount > 1 && mapInfo[id].refCount == 0);
        }
        if inserted {
          Place(id, slot, loose);
          return;
        }
      }
      Refuse(id);
    }

    static method Update(was: Info, h: Heard, charge: int) returns (info: Info)
      ensures info == Renewed(was, h, charge)
    {
      info := was;
      var interval := if h.now - h.time < DAY then HOUR else DAY;
      if info.time < h.time - interval - charge {
        info := info.(time := Max(0, h.time - charge));
      }
      info := info.(services := info.services + h.services);
    }

    /** Note what is told of an address that is known; false if there is no more to do. */
    method Renew(id: nat, h: Heard, charge: int) returns (more: bool)
      requires Agrees(p, View(), {}, {}) && id in mapInfo
      modifies this
      ensures Agrees(p, View(), {}, {}) && Noted(old(View()), View(), id)
      ensures View() == old(View()).(mapInfo := old(mapInfo)[id := Renewed(old(mapInfo[id]), h, charge)])
      ensures more <==> IsNews(mapInfo[id], h)
    {
      ghost var s := View();
      assert InfoAt(s, {}, id);
      var info := Update(mapInfo[id], h, charge);
      mapInfo := mapInfo[id := info];
      NoteAgrees(p, s, View(), id, {}, {});
      more := !(h.time <= info.time || info.inTried || info.refCount == PER_ADDRESS || (info.refCount > 0 && !h.lucky));
    }

    /** Create an entry, and charge its time. */
    method Enlist(h: Heard, charge: int) returns (id: nat)
      requires Agrees(p, View(), {}, {}) && h.addr !in mapAddr && charge == Charge(p, h)
      modifies this
      ensures Known(old(View()), View(), id, h.addr) && Met(p, old(View()), View(), id, h)
      ensures Agrees(p, View(), {id}, {}) && !mapInfo[id].inTried
    {
      ghost var s := View();
      id := Create(h.addr, h.source, h.time, h.services);
      ghost var c := View();
      assert InfoAt(c, {id}, id);
      mapInfo := mapInfo[id := mapInfo[id].(time := Max(0, mapInfo[id].time - charge))];
      NoteAgrees(p, c, View(), id, {id}, {});
      CreatedIsKnown(p, s, c, View(), id);
    }

    /** Find or create the entry of an address; false if there is no more to do for it. */
    method Meet(h: Heard, charge: int) returns (more: bool, id: nat)
      requires Agrees(p, View(), {}, {}) && charge == Charge(p, h)
      modifies this
      ensures more <==> Knows(old(View()), h.addr) ==> IsNews(Told(p, old(View()), h), h)
      ensures more ==> Known(old(View()), View(), id, h.addr) && Met(p, old(View()), View(), id, h)
      ensures more ==> Ready(p, View(), id)
      ensures !more ==> Agrees(p, View(), {}, {}) && Noted(old(View()), View(), id)
                        && View() == Recorded(old(View()), h.addr, Told(p, old(View()), h))
    {
      ghost var s := View();
      assert h.addr in mapAddr ==> AddrOk(s, h.addr);
      var found := Find(h.addr);
      if found.Some? {
        id := found.value;
        assert InfoAt(s, {}, id);
        more := Renew(id, h, charge);
        if more {
          NotedIsKnown(s, View(), id);
        }
      } else {
        id := Enlist(h, charge);
        more := true;
      }
    }

    /** Insert the entry of an address that is new, or of which there is news. */
    method AddMet(h: Heard, id: nat, ghost s: State)
      returns (added: bool)
      requires Agrees(p, s, {}, {}) && Known(s, View(), id, h.addr) && Met(p, s, View(), id, h) && Ready(p, View(), id)
      requires p.routable(h.addr) && (Knows(s, h.addr) ==> IsNews(Told(p, s, h), h) && InfoOf(s, h.addr).refCount > 0)
      modifies this
      ensures Agrees(p, View(), {}, {}) && Grows(s, View())
      ensures HeardOf(p, s, View(), h) && (added <==> Accepted(p, s, h))
    {
      ghost var t := View();
      SameDecision(p, s, t, id, h);
      added := Insert(id, SourceSlot(p, h.addr, h.source), h.now);
      if added {
        AddedFrame(s, t, View(), id, h.addr, SourceSlot(p, h.addr, h.source));
        IsAccepted(p, s, t, View(), id, h);
      } else {
        NotAddedFrame(s, t, View(), id, h.addr);
        IsRefused(p, s, t, View(), id, h);
      }
    }

    /** Add one address, heard of from a source. */
    method AddSingle(h: Heard) returns (added: bool)
      requires Valid()
      modifies this
      ensures Valid() && Grows(old(View()), View())
      ensures HeardOf(p, old(View()), View(), h) && (added <==> Accepted(p, old(View()), h))
    {
      added := false;
      ghost var s := View();
      if p.routable(h.addr) {
        added := AddRoutable(h);
        CollisionsKept(p, s, View());
      } else {
        assert h.addr in mapAddr ==> AddrOk(s, h.addr);
        IsOldNews(p, s, View(), h);
      }
    }

    method AddRoutable(h: Heard) returns (added: bool)
      requires Agrees(p, View(), {}, {}) && p.routable(h.addr)
      modifies this
      ensures Agrees(p, View(), {}, {}) && Grows(old(View()), View())
      ensures HeardOf(p, old(View()), View(), h) && (added <==> Accepted(p, old(View()), h))
    {
      added := false;
      ghost var s := View();
      assert h.addr in mapAddr ==> AddrOk(s, h.addr) && InfoAt(s, {}, s.mapAddr[h.addr]);
      var more, id := Meet(h, if p.host(h.addr) == h.source then 0 else h.penalty);
      if more {
        added := AddMet(h, id, s);
      } else {
        IsOldNews(p, s, View(), h);
      }
    }

    method Add(addrs: seq<Heard>) returns (added: bool, ghost states: seq<State>)
      requires Valid()
      modifies this
      ensures Valid() && Grows(old(View()), View()) && triedTable == old(triedTable)
      ensures AllHeard(p, states, addrs) && states[0] == old(View()) && states[|addrs|] == View()
      ensures added <==> exists i :: 0 <= i < |addrs| && Accepted(p, states[i], addrs[i])
    {
      added, states := false, [View()];
      for n := 0 to |addrs|
        invariant Valid() && Grows(old(View()), View()) && triedTable == old(triedTable)
        invariant AllHeard(p, states, addrs[..n]) && states[0] == old(View()) && states[n] == View()
        invariant added <==> exists i :: 0 <= i < n && Accepted(p, states[i], addrs[i])
      {
        var one := AddSingle(addrs[n]);
        GrowsTransitive(old(View()), states[n], View());
        added := added || one;
        HeardNext(p, states, addrs[..n], View(), addrs[n]);
        assert addrs[..n] + [addrs[n]] == addrs[..n + 1];
        states := states + [View()];
      }
      assert addrs[..|addrs|] == addrs;
    }

    // ---- what happens to addresses ----

    /** Note a change to what is known of an entry. */
    method Note(id: nat, info: Info)
      requires Valid() && id in mapInfo && OnlyRecord(mapInfo[id], info)
      modifies this
      ensures Valid() && Noted(old(View()), View(), id)
      ensures View() == old(View()).(mapInfo := old(mapInfo)[id := info])
    {
      ghost var s := View();
      mapInfo := mapInfo[id := info];
      NoteAgrees(p, s, View(), id, {}, {});
      CollisionsKept(p, s, View());
    }

    /** A connection to an address has succeeded: move it to the tried table, unless that would evict an entry
        that is to be tested first. */
    method Good(addr: nat, testBeforeEvict: bool, time: int) returns (moved: bool)
      requires Valid() && time > 0
      modifies this
      ensures Valid() && Grows(old(View()), View())
      ensures GoodFor(p, old(View()), View(), addr, testBeforeEvict, time)
      ensures moved <==> CanMove(p, old(View()), addr, testBeforeEvict)
      ensures lastGood == time
      ensures Knows(old(View()), addr) ==> SucceededAt(old(View()), View(), old(mapAddr)[addr], time)
    {
      ghost var s := View();
      var found := NoteSuccess(addr, time);
      moved := false;
      if found.Some? && !mapInfo[found.value].inTried {
        ghost var t := View();
        moved := Promote(found.value, testBeforeEvict);
        GrowsTransitive(s, t, View());
        assert moved ==> SameRecord(t.mapInfo[found.value], mapInfo[found.value]);
      }
    }

    /** Note a successful connection. */
    method NoteSuccess(addr: nat, time: int) returns (found: Option<nat>)
      requires Valid() && time > 0
      modifies this
      ensures Valid() && Grows(old(View()), View()) && View() == Succeeded(old(View()), addr, time)
      ensures found == if Knows(old(View()), addr) then Some(mapAddr[addr]) else None
      ensures found.Some? ==> AddrOk(View(), addr)
    {
      ghost var s := View();
      lastGood := time;
      LastGoodSet(p, s, View());
      found := Find(addr);
      if found.Some? {
        var id := found.value;
        assert AddrOk(View(), addr) && InfoAt(View(), {}, id);
        Note(id, mapInfo[id].(lastSuccess := time, lastTry := time, attempts := 0));
      }
    }

    /** Move an entry to the tried table, unless that would evict one that is to be tested first. */
    method Promote(id: nat, testBeforeEvict: bool) returns (moved: bool)
      requires Valid() && id in mapInfo && !mapInfo[id].inTried && mapInfo[id].lastSuccess > 0
      modifies this
      ensures Valid() && Grows(old(View()), View())
      ensures moved <==> testBeforeEvict ==> TriedSlot(p, old(mapInfo[id].addr)) !in old(triedTable)
      ensures moved ==> MadeTried(p, old(View()), View(), id)
      ensures !moved ==> View() == old(View()).(collisions :=
                                     if |old(collisions)| < COLLISIONS_MAX then old(collisions) + {id}
                                         else old(collisions))
    {
      ghost var s := View();
      assert Listed(s, id);
      var slot := TriedSlot(p, mapInfo[id].addr);
      if testBeforeEvict && slot in triedTable {
        if |collisions| < COLLISIONS_MAX {
          Collide(id);
        }
        return false;
      }
      MakeTried(id);
      MadeGrows(p, s, View(), id);
      return true;
    }

    method Collide(id: nat)
      requires Valid() && id in mapInfo && TriedSlot(p, mapInfo[id].addr) in triedTable
      modifies this`collisions
      ensures Valid() && collisions == old(collisions) + {id}
    {
      ghost var s := View();
      assert Listed(s, id);
      collisions := collisions + {id};
      CollideInv(p, s, View(), id);
    }

    method Attempt(addr: nat, countFailure: bool, time: int)
      requires Valid() && time >= 0
      modifies this
      ensures Valid() && Grows(old(View()), View()) && View() == Attempted(old(View()), addr, countFailure, time)
      ensures Knows(old(View()), addr) ==> AttemptedAt(old(View()), View(), old(mapAddr)[addr], countFailure, time)
    {
      var found := Find(addr);
      if found.Some? {
        var info := mapInfo[found.value];
        assert InfoAt(View(), {}, found.value);
        info := info.(lastTry := time);
        if countFailure && info.lastCountAttempt < lastGood {
          info := info.(lastCountAttempt := time, attempts := info.attempts + 1);
        }
        Note(found.value, info);
      }
    }

    method Connected(addr: nat, time: int)
      requires Valid()
      modifies this
      ensures Valid() && Grows(old(View()), View())
      ensures View() == if Knows(old(View()), addr) && time - InfoOf(old(View()), addr).time > 20 * MINUTE
                        then Recorded(old(View()), addr, InfoOf(old(View()), addr).(time := time))
                        else old(View())
    {
      var found := Find(addr);
      if found.Some? && time - mapInfo[found.value].time > 20 * MINUTE {
        assert InfoAt(View(), {}, found.value);
        Note(found.value, mapInfo[found.value].(time := time));
      }
    }

    method SetServices(addr: nat, services: set<nat>)
      requires Valid()
      modifies this
      ensures Valid() && Grows(old(View()), View())
      ensures View() == if Knows(old(View()), addr)
                        then Recorded(old(View()), addr, InfoOf(old(View()), addr).(services := services))
                        else old(View())
    {
      var found := Find(addr);
      if found.Some? {
        assert InfoAt(View(), {}, found.value);
        Note(found.value, mapInfo[found.value].(services := services));
      }
    }

    // ---- collisions ----

    /** Settle a collision; true if it is settled. */
    method ResolveOne(idNew: nat, now: int) returns (erase: bool)
      requires Valid() && now > 0
      modifies this
      ensures Valid() && Grows(old(View()), View()) && (erase <==> Judge(p, old(View()), idNew, now) != Wait)
      ensures if Judge(p, old(View()), idNew, now) == Replace
              then GoodFor(p, old(View()), View(), old(mapInfo[idNew].addr), false, now) else View() == old(View())
      ensures collisions == old(collisions)
    {
      if idNew !in mapInfo {
        return true;
      }
      var infoNew := mapInfo[idNew];
      var slot := TriedSlot(p, infoNew.addr);
      if !p.valid(infoNew.addr) {
        return true;
      }
      if slot in triedTable {
        assert TriedEntryOk(p, View(), slot);
        var infoOld := mapInfo[triedTable[slot]];
        if now - infoOld.lastSuccess < 4 * HOUR {
          return true;
        } else if now - infoOld.lastTry < 4 * HOUR {
          if now - infoOld.lastTry <= 60 {
            return false;
          }
        } else if now - infoNew.lastSuccess <= 40 * MINUTE {
          return false;
        }
      }
      assert Listed(View(), idNew);
      var moved := Good(infoNew.addr, false, now);
      return true;
    }

    /** Settle a collision and forget it, or let it wait. */
    method ResolveNext(idNew: nat, now: int)
      requires Valid() && now > 0
      modifies this
      ensures Valid() && Grows(old(View()), View()) && Resolved(p, old(View()), View(), idNew, now)
    {
      var erase := ResolveOne(idNew, now);
      if erase {
        ghost var t := View();
        Settle(idNew);
        assert t == View().(collisions := t.collisions);
      }
    }

    method ResolveCollisions(now: int) returns (ghost ids: seq<nat>, ghost states: seq<State>)
      requires Valid() && now > 0
      modifies this
      ensures Valid() && Grows(old(View()), View()) && collisions <= old(collisions)
      ensures Listing(ids, old(collisions), {}) && AllResolved(p, states, ids, now)
      ensures states[0] == old(View()) && states[|ids|] == View()
      ensures FairlyResolved(p, old(View()), View(), now)
    {
      ghost var s := View();
      ids, states := [], [s];
      var rest := collisions;
      while rest != {}
        invariant Valid() && Grows(s, View()) && collisions <= s.collisions
        invariant Listing(ids, s.collisions, rest) && AllResolved(p, states, ids, now)
        invariant states[0] == s && states[|ids|] == View()
      {
        var id := First(rest);
        ghost var t := View();
        ResolveNext(id, now);
        GrowsTransitive(s, t, View());
        ResolvedNext(p, states, ids, now, View(), id);
        ListingNext(ids, s.collisions, rest, id);
        ids, states := ids + [id], states + [View()];
        rest := rest - {id};
      }
      AllFair(p, states, ids, now);
    }

    method Settle(id: nat)
      requires Valid()
      modifies this`collisions
      ensures Valid() && View() == old(View()).(collisions := old(collisions) - {id})
    {
      ghost var s := View();
      collisions := collisions - {id};
      RestChanged(p, s, View(), {}, {});
      CollisionsKept(p, s, View());
    }

    /** The entry that some waiting entry would evict: a taken slot is always found. */
    method SelectTriedCollision() returns (r: Option<Info>)
      requires Valid()
      modifies this
      ensures Valid() && Grows(old(View()), View())
      ensures r.Some? ==> View() == old(View()) && exists id :: id in collisions && IsRival(p, View(), id, r.value)
      ensures r.None? ==> if old(collisions) == {} then View() == old(View()) else
                            exists id :: id in old(collisions) && id !in mapInfo
                                && View() == old(View()).(collisions := old(collisions) - {id})
    {
      if collisions == {} {
        return None;
      }
      var idNew :| idNew in collisions;
      if idNew !in mapInfo {
        Settle(idNew);
        return None;
      }
      assert Waits(p, View(), idNew);
      var slot := TriedSlot(p, mapInfo[idNew].addr);
      assert TriedEntryOk(p, View(), slot);
      assert IsRival(p, View(), idNew, mapInfo[triedTable[slot]]);
      return Some(mapInfo[triedTable[slot]]);
    }

    // ---- a sample ----

    /** Bring a random entry of those from position n on to position n. */
    method Draw(n: nat) returns (addr: nat)
      requires Agrees(p, View(), {}, {}) && n < |random|
      modifies this
      ensures Agrees(p, View(), {}, {}) && KeepsBefore(old(View()), View(), n)
      ensures addr in mapAddr && mapAddr[addr] in mapInfo && mapInfo[mapAddr[addr]].randomPos == n
    {
      ghost var s := View();
      var k :| n <= k < |random|;
      assert RandomOk(s, n) && RandomOk(s, k);
      SwapRandom(n, k);
      SwapAgrees(p, s, View(), n, k, {}, {});
      assert RandomOk(View(), n) && Listed(View(), random[n]);
      addr := mapInfo[random[n]].addr;
    }

    /** Draw an entry for position n, and add its address to a sample if it suits. */
    method DrawNext(n: nat, sample: seq<nat>, q: Query) returns (addresses: seq<nat>)
      requires Agrees(p, View(), {}, {}) && n < |random| && Sampled(p, View(), sample, n, q)
      modifies this
      ensures Agrees(p, View(), {}, {}) && OnlyReordered(old(View()), View()) && |random| == old(|random|)
      ensures Sampled(p, View(), addresses, n + 1, q) && |addresses| <= |sample| + 1
    {
      ghost var t := View();
      var addr := Draw(n);
      SwapSampled(p, t, View(), sample, n, q);
      assert AddrOk(View(), addr);
      SampleNext(p, View(), sample, n, addr, q);
      addresses := if Suits(p, View(), addr, q) then sample + [addr] else sample;
    }

    /** Some of the addresses, in a random order that is kept. */
    method GetAddr(maxAddresses: nat, maxPct: nat, q: Query) returns (addresses: seq<nat>)
      requires Valid()
      modifies this
      ensures Valid() && OnlyReordered(old(View()), View()) && Grows(old(View()), View())
      ensures |addresses| <= SampleSize(|random|, maxAddresses, maxPct)
      ensures forall i :: 0 <= i < |addresses| ==> Suits(p, View(), addresses[i], q)
      ensures forall i, j :: 0 <= i < j < |addresses| ==> addresses[i] != addresses[j]
      ensures |addresses| < SampleSize(|random|, maxAddresses, maxPct) ==>
        forall addr :: Suits(p, View(), addr, q) ==> addr in addresses
    {
      ghost var s := View();
      var nNodes := SampleSize(|random|, maxAddresses, maxPct);
      addresses := [];
      var n := 0;
      NoSample(p, s, q);
      while n < |random| && |addresses| < nNodes
        invariant 0 <= n <= |random| == |s.random| && |addresses| <= nNodes && Agrees(p, View(), {}, {})
        invariant OnlyReordered(s, View()) && Sampled(p, View(), addresses, n, q)
      {
        ghost var t := View();
        addresses := DrawNext(n, addresses, q);
        ReorderedTransitive(s, t, View());
        n := n + 1;
      }
      ReorderedCollisions(p, s, View());
      if n == |random| {
        AllSampled(p, View(), addresses, q);
      }
    }
  }

  // ---- sampling ----

  /** So many addresses may be asked for. */
  ghost predicate WithinLimits(size: nat, maxAddresses: nat, maxPct: nat, n: nat) {
    n <= size && (maxAddresses != 0 ==> n <= maxAddresses) && (maxPct != 0 ==> 100 * n <= maxPct * size)
  }

  /** The most addresses that may be asked for. */
  function SampleSize(size: nat, maxAddresses: nat, maxPct: nat): (n: nat)
    ensures WithinLimits(size, maxAddresses, maxPct, n)
    ensures forall m: nat :: WithinLimits(size, maxAddresses, maxPct, m) ==> m <= n
  {
    var share := if maxPct == 0 then size else Share(size, maxPct);
    if maxAddresses != 0 && maxAddresses < share then maxAddresses else share
  }

  function Share(size: nat, pct: nat): (n: nat)
    ensures n <= size && 100 * n <= pct * size
    ensures forall m: nat :: WithinLimits(size, 0, pct, m) ==> m <= n || pct == 0
  {
    var capped := if pct < 100 then pct else 100;
    assert capped * size <= pct * size && capped * size <= 100 * size;
    capped * size / 100
  }

  /** What addresses are asked for. */
  datatype Query = Query(network: Option<nat>, filtered: bool, now: int)

  predicate Suits(p: Params, s: State, addr: nat, q: Query) {
    && Knows(s, addr) && (q.network.Some? ==> p.netClass(addr) == q.network.value)
    && (q.filtered ==> !IsTerrible(InfoOf(s, addr), q.now))
  }

  /** The addresses are different ones: those of the entries in the first n positions that suit. */
  ghost predicate Sampled(p: Params, s: State, addresses: seq<nat>, n: nat, q: Query) {
    && (forall i :: 0 <= i < |addresses| ==> Suits(p, s, addresses[i], q) && InfoOf(s, addresses[i]).randomPos < n)
    && (forall i, j :: 0 <= i < j < |addresses| ==> addresses[i] != addresses[j])
    && (forall addr {:trigger Reached(p, s, addresses, n, q, addr)} :: Reached(p, s, addresses, n, q, addr))
  }

  ghost predicate Reached(p: Params, s: State, addresses: seq<nat>, n: nat, q: Query, addr: nat) {
    Suits(p, s, addr, q) && InfoOf(s, addr).randomPos < n ==> addr in addresses
  }

  /** Only entries from position n on have been moved, among themselves. */
  ghost predicate KeepsBefore(s: State, t: State, n: nat) {
    && OnlyReordered(s, t) && |t.random| == |s.random|
    && forall id :: id in s.mapInfo && (s.mapInfo[id].randomPos < n || t.mapInfo[id].randomPos < n) ==>
        t.mapInfo[id].randomPos == s.mapInfo[id].randomPos
  }

  lemma {:induction false} NoSample(p: Params, s: State, q: Query)
    requires Directory(s)
    ensures Sampled(p, s, [], 0, q)
  {
    forall addr ensures Reached(p, s, [], 0, q, addr) {
      assert Knows(s, addr) ==> Listed(s, s.mapAddr[addr]);
    }
  }

  lemma {:induction false} SameSuits(p: Params, s: State, t: State, q: Query, addr: nat)
    requires OnlyReordered(s, t)
    ensures Suits(p, s, addr, q) <==> Suits(p, t, addr, q)
  {
    if Knows(s, addr) {
      assert SamePlaces(s.mapInfo[s.mapAddr[addr]], t.mapInfo[s.mapAddr[addr]]);
    }
  }

  lemma {:induction false} SwapSampled(p: Params, s: State, t: State, addresses: seq<nat>, n: nat, q: Query)
    requires KeepsBefore(s, t, n) && Sampled(p, s, addresses, n, q)
    ensures Sampled(p, t, addresses, n, q)
  {
    forall i | 0 <= i < |addresses|
      ensures Suits(p, t, addresses[i], q) && InfoOf(t, addresses[i]).randomPos < n
    {
      SameSuits(p, s, t, q, addresses[i]);
    }
    forall addr ensures Reached(p, t, addresses, n, q, addr) {
      SameSuits(p, s, t, q, addr);
      assert Reached(p, s, addresses, n, q, addr);
    }
  }

  lemma {:induction false} SampleNext(p: Params, s: State, addresses: seq<nat>, n: nat, addr: nat, q: Query)
    requires Directory(s) && Sampled(p, s, addresses, n, q) && AddrOk(s, addr) && InfoOf(s, addr).randomPos == n
    ensures Sampled(p, s, if Suits(p, s, addr, q) then addresses + [addr] else addresses, n + 1, q)
  {
    var next := if Suits(p, s, addr, q) then addresses + [addr] else addresses;
    var m := n + 1;
    forall a ensures Reached(p, s, next, m, q, a) {
      assert Reached(p, s, addresses, n, q, a);
      if Suits(p, s, a, q) && InfoOf(s, a).randomPos == n {
        SameEntryAt(s, a, addr, n);
      }
    }
  }

  lemma {:induction false} SameEntryAt(s: State, a: nat, b: nat, n: nat)
    requires Directory(s) && Knows(s, a) && Knows(s, b) && InfoOf(s, a).randomPos == InfoOf(s, b).randomPos == n
    ensures a == b
  {
    assert Listed(s, s.mapAddr[a]) && Listed(s, s.mapAddr[b]) && AddrOk(s, a) && AddrOk(s, b);
  }

  lemma {:induction false} AllSampled(p: Params, s: State, addresses: seq<nat>, q: Query)
    requires Directory(s) && Sampled(p, s, addresses, |s.random|, q)
    ensures forall addr :: Suits(p, s, addr, q) ==> addr in addresses
  {
    forall addr | Suits(p, s, addr, q) ensures addr in addresses {
      assert Listed(s, s.mapAddr[addr]) && Reached(p, s, addresses, |s.random|, q, addr);
    }
  }

  lemma {:induction false} ReorderedTransitive(s: State, t: State, u: State)
    requires OnlyReordered(s, t) && OnlyReordered(t, u)
    ensures OnlyReordered(s, u)
  {
    forall id | id in s.mapInfo ensures SamePlaces(s.mapInfo[id], u.mapInfo[id]) {
      assert SamePlaces(s.mapInfo[id], t.mapInfo[id]) && SamePlaces(t.mapInfo[id], u.mapInfo[id]);
    }
  }

  lemma {:induction false} ReorderedCollisions(p: Params, s: State, t: State)
    requires CollisionsOk(p, s) && OnlyReordered(s, t)
    ensures CollisionsOk(p, t) && Grows(s, t)
  {
    forall id | id in t.mapInfo ensures s.mapInfo[id].addr == t.mapInfo[id].addr {
      assert SamePlaces(s.mapInfo[id], t.mapInfo[id]);
    }
    CollisionsKept(p, s, t);
  }
}
