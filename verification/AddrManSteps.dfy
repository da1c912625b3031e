/** The steps that change the address manager's data, and what each keeps. */
module AddrManSteps {
  import opened AddrManStates
  import opened Options

  // ---- sets that differ by one ----

  lemma {:induction false} OneMore<T>(a: set<T>, b: set<T>, x: T)
    requires x !in a && b == a + {x}
    ensures |b| == |a| + 1
  {
  }

  // ---- counts ----

  function Bumped(counts: map<nat, Tally>, net: nat, dNew: int, dTried: int): map<nat, Tally> {
    var t := TallyOf(counts, net); counts[net := Tally(t.nNew + dNew, t.nTried + dTried)]
  }

  /** The same state with one more entry of an address counted in one of the tables, or one less. */
  ghost predicate Recounted(p: Params, s: State, t: State, addr: nat, tried: bool, d: int) {
    && t.nTried == s.nTried + (if tried then d else 0) && t.nNew == s.nNew + (if tried then 0 else d)
    && t.counts == Bumped(s.counts, p.network(addr), if tried then 0 else d, if tried then d else 0)
  }

  /** Apart from x, the same entries are counted in both states, in the same tables. */
  ghost predicate SameButOne(s: State, out: set<nat>, t: State, out': set<nat>, x: nat) {
    forall id :: id != x ==> SameEntry(s, out, t, out', id)
  }

  ghost predicate SameEntry(s: State, out: set<nat>, t: State, out': set<nat>, id: nat) {
    && (id in s.mapInfo && id !in out <==> id in t.mapInfo && id !in out')
    && (id in s.mapInfo && id !in out ==>
        s.mapInfo[id].inTried == t.mapInfo[id].inTried && s.mapInfo[id].addr == t.mapInfo[id].addr)
  }

  lemma {:induction false} CountedJoined(p: Params, s: State, out: set<nat>, t: State, out': set<nat>, x: nat,
                                         tried: bool, net: Option<nat>)
    requires SameButOne(s, out, t, out', x) && !(x in s.mapInfo && x !in out) && x in t.mapInfo && x !in out'
    ensures var a, b := Counted(p, s, out, tried, net), Counted(p, t, out', tried, net);
            b == if t.mapInfo[x].inTried == tried && InNet(p, t.mapInfo[x].addr, net) then a + {x} else a
  {
    var a, b := Counted(p, s, out, tried, net), Counted(p, t, out', tried, net);
    forall id | id != x ensures id in a <==> id in b {
      assert SameEntry(s, out, t, out', id);
    }
  }

  lemma {:induction false} CountOfBumped(p: Params, s: State, t: State, addr: nat, moved: bool, d: int, tried: bool,
                                         net: Option<nat>)
    requires Recounted(p, s, t, addr, moved, d)
    ensures CountOf(t, tried, net) == CountOf(s, tried, net) + if moved == tried && InNet(p, addr, net) then d else 0
  {
  }

  /** An entry comes to be counted. */
  lemma {:induction false} Joins(p: Params, s: State, out: set<nat>, t: State, out': set<nat>, x: nat)
    requires CountsOk(p, s, out) && SameButOne(s, out, t, out', x) && !(x in s.mapInfo && x !in out) && x in t.mapInfo
    requires x !in out'
    requires Recounted(p, s, t, t.mapInfo[x].addr, t.mapInfo[x].inTried, 1)
    ensures CountsOk(p, t, out')
  {
    forall tried, net ensures CountOk(p, t, out', tried, net) {
      assert CountOk(p, s, out, tried, net);
      CountedJoined(p, s, out, t, out', x, tried, net);
      CountOfBumped(p, s, t, t.mapInfo[x].addr, t.mapInfo[x].inTried, 1, tried, net);
      var a, b := Counted(p, s, out, tried, net), Counted(p, t, out', tried, net);
      if a != b {
        OneMore(a, b, x);
      }
    }
  }

  /** An entry ceases to be counted. */
  lemma {:induction false} Leaves(p: Params, s: State, out: set<nat>, t: State, out': set<nat>, x: nat)
    requires CountsOk(p, s, out) && SameButOne(s, out, t, out', x) && x in s.mapInfo && x !in out
    requires !(x in t.mapInfo && x !in out')
    requires Recounted(p, s, t, s.mapInfo[x].addr, s.mapInfo[x].inTried, -1)
    ensures CountsOk(p, t, out')
  {
    forall id | id != x ensures SameEntry(t, out', s, out, id) {
      assert SameEntry(s, out, t, out', id);
    }
    forall tried, net ensures CountOk(p, t, out', tried, net) {
      assert CountOk(p, s, out, tried, net);
      CountedJoined(p, t, out', s, out, x, tried, net);
      CountOfBumped(p, s, t, s.mapInfo[x].addr, s.mapInfo[x].inTried, -1, tried, net);
      var a, b := Counted(p, t, out', tried, net), Counted(p, s, out, tried, net);
      if a != b {
        OneMore(a, b, x);
      }
    }
  }

  /** No entry is counted differently. */
  lemma {:induction false} CountsKept(p: Params, s: State, t: State, out: set<nat>)
    requires CountsOk(p, s, out) && t.nTried == s.nTried && t.nNew == s.nNew && t.counts == s.counts
    requires t.mapInfo.Keys == s.mapInfo.Keys
    requires forall id :: id in s.mapInfo ==>
      s.mapInfo[id].inTried == t.mapInfo[id].inTried && s.mapInfo[id].addr == t.mapInfo[id].addr
    ensures CountsOk(p, t, out)
  {
    forall tried, net ensures CountOk(p, t, out, tried, net) {
      assert CountOk(p, s, out, tried, net);
      assert Counted(p, t, out, tried, net) == Counted(p, s, out, tried, net);
    }
  }

  // ---- changes to entries that leave others alone ----

  ghost predicate SameDirectory(s: State, t: State) {
    && t.idCount == s.idCount && t.mapAddr == s.mapAddr && t.random == s.random && t.mapInfo.Keys == s.mapInfo.Keys
    && forall id :: id in s.mapInfo ==>
        t.mapInfo[id].addr == s.mapInfo[id].addr && t.mapInfo[id].randomPos == s.mapInfo[id].randomPos
  }

  lemma {:induction false} DirectoryKept(s: State, t: State)
    requires Directory(s) && SameDirectory(s, t)
    ensures Directory(t)
  {
    forall id | id in t.mapInfo ensures Listed(t, id) {
      assert Listed(s, id);
    }
    forall a | a in t.mapAddr ensures AddrOk(t, a) {
      assert AddrOk(s, a);
    }
    forall i | 0 <= i < |t.random| ensures RandomOk(t, i) {
      assert RandomOk(s, i);
    }
  }

  /** Entries keep what the tables say of them. */
  ghost predicate SameTables(s: State, t: State) {
    && t.triedTable == s.triedTable && t.newTable == s.newTable && t.mapInfo.Keys == s.mapInfo.Keys
    && forall id :: id in s.mapInfo ==> SameInTables(s.mapInfo[id], t.mapInfo[id])
  }

  ghost predicate SameInTables(i: Info, j: Info) {
    j.addr == i.addr && j.inTried == i.inTried && j.refCount == i.refCount
  }

  lemma {:induction false} TablesKept(p: Params, s: State, t: State)
    requires TriedOk(p, s) && NewOk(p, s) && SameTables(s, t)
    ensures TriedOk(p, t) && NewOk(p, t)
  {
    forall slot | slot in t.triedTable ensures TriedEntryOk(p, t, slot) {
      assert TriedEntryOk(p, s, slot);
    }
    forall id | id in t.mapInfo ensures InItsSlot(p, t, id) {
      assert InItsSlot(p, s, id);
    }
    forall slot | slot in t.newTable ensures NewEntryOk(p, t, slot) {
      assert NewEntryOk(p, s, slot);
    }
    forall id | id in t.mapInfo ensures RefsOk(t, id) {
      assert RefsOk(s, id);
      assert SameInTables(s.mapInfo[id], t.mapInfo[id]);
    }
  }

  /** Whatever is not said to change. */
  ghost predicate SameOrder(s: State, t: State) {
    t.idCount == s.idCount && t.mapAddr == s.mapAddr && t.random == s.random
  }

  ghost predicate SameCounts(s: State, t: State) {
    t.nTried == s.nTried && t.nNew == s.nNew && t.counts == s.counts
  }

  ghost predicate SameRest(s: State, t: State) {
    t.lastGood == s.lastGood && t.collisions == s.collisions
  }

  // ---- swapping in the random order ----

  /** Entries differ in their positions in the random order only. */
  ghost predicate SamePlaces(i: Info, j: Info) {
    j == i.(randomPos := j.randomPos)
  }

  /** Entries differ in where they are only. */
  ghost predicate SameRecord(i: Info, j: Info) {
    j == i.(refCount := j.refCount, inTried := j.inTried, randomPos := j.randomPos)
  }

  ghost predicate OnlyReordered(s: State, t: State) {
    && t.mapInfo.Keys == s.mapInfo.Keys && (forall id :: id in s.mapInfo ==> SamePlaces(s.mapInfo[id], t.mapInfo[id]))
    && t.idCount == s.idCount && t.mapAddr == s.mapAddr && t.triedTable == s.triedTable && t.newTable == s.newTable
    && SameCounts(s, t) && SameRest(s, t)
  }

  ghost predicate Swapped(s: State, t: State, i: nat, j: nat) {
    && i < |s.random| && j < |s.random| && OnlyReordered(s, t)
    && t.random == s.random[i := s.random[j]][j := s.random[i]]
    && (forall id :: id in s.mapInfo ==> t.mapInfo[id].randomPos == SwappedPos(s, i, j, id))
  }

  ghost function SwappedPos(s: State, i: nat, j: nat, id: nat): int
    requires i < |s.random| && j < |s.random| && id in s.mapInfo
  {
    if id == s.random[j] then i else if id == s.random[i] then j else s.mapInfo[id].randomPos
  }

  lemma {:induction false} SwapDirectory(s: State, t: State, i: nat, j: nat)
    requires Directory(s) && Swapped(s, t, i, j)
    ensures Directory(t)
  {
    assert RandomOk(s, i) && RandomOk(s, j);
    forall id | id in t.mapInfo ensures Listed(t, id) {
      assert Listed(s, id) && SamePlaces(s.mapInfo[id], t.mapInfo[id]);
    }
    forall a | a in t.mapAddr ensures AddrOk(t, a) {
      assert AddrOk(s, a) && SamePlaces(s.mapInfo[s.mapAddr[a]], t.mapInfo[s.mapAddr[a]]);
    }
    forall k | 0 <= k < |t.random| ensures RandomOk(t, k) {
      assert RandomOk(s, k);
    }
  }

  lemma {:induction false} SwapAgrees(p: Params, s: State, t: State, i: nat, j: nat, loose: set<nat>, out: set<nat>)
    requires Agrees(p, s, loose, out) && Swapped(s, t, i, j)
    ensures Agrees(p, t, loose, out)
  {
    SwapDirectory(s, t, i, j);
    CountsKept(p, s, t, out);
    TablesKept(p, s, t);
    forall id | id in t.mapInfo ensures InfoAt(t, loose, id) {
      assert InfoAt(s, loose, id) && SamePlaces(s.mapInfo[id], t.mapInfo[id]);
    }
  }

  // ---- removing an entry ----

  /** t is s without the entry id, which is last in the random order. */
  ghost predicate Removed(p: Params, s: State, t: State, id: nat) {
    && id in s.mapInfo && s.random != [] && t.random == s.random[..|s.random| - 1]
    && t.mapInfo == s.mapInfo - {id} && t.mapAddr == s.mapAddr - {s.mapInfo[id].addr}
    && t.idCount == s.idCount && t.triedTable == s.triedTable && t.newTable == s.newTable
    && Recounted(p, s, t, s.mapInfo[id].addr, false, -1) && SameRest(s, t)
  }

  /** An entry that can be deleted: in neither table, but counted. */
  ghost predicate Deletable(s: State, out: set<nat>, id: nat) {
    id in s.mapInfo && id !in out && !s.mapInfo[id].inTried && s.mapInfo[id].refCount == 0
  }

  lemma {:induction false} NoRefs(table: map<Slot, nat>, id: nat)
    ensures |Refs(table, id)| == 0 <==> forall slot :: slot in table ==> table[slot] != id
  {
    if |Refs(table, id)| == 0 {
      forall slot | slot in table ensures table[slot] != id {
        assert slot !in Refs(table, id);
      }
    } else {
      var slot :| slot in Refs(table, id);
    }
  }

  lemma {:induction false} RemoveDirectory(p: Params, s: State, t: State, id: nat)
    requires Directory(s) && Removed(p, s, t, id) && s.mapInfo[id].randomPos == |s.random| - 1
    ensures Directory(t)
  {
    assert Listed(s, id);
    forall k | k in t.mapInfo ensures Listed(t, k) {
      assert Listed(s, k);
    }
    forall a | a in t.mapAddr ensures AddrOk(t, a) {
      assert AddrOk(s, a);
    }
    forall i | 0 <= i < |t.random| ensures RandomOk(t, i) {
      assert RandomOk(s, i);
    }
  }

  lemma {:induction false} RemoveTables(p: Params, s: State, t: State, id: nat)
    requires TriedOk(p, s) && NewOk(p, s) && Deletable(s, {}, id) && Removed(p, s, t, id)
    ensures TriedOk(p, t) && NewOk(p, t)
  {
    assert RefsOk(s, id);
    NoRefs(s.newTable, id);
    forall slot | slot in t.triedTable ensures TriedEntryOk(p, t, slot) {
      assert TriedEntryOk(p, s, slot);
    }
    forall k | k in t.mapInfo ensures InItsSlot(p, t, k) && RefsOk(t, k) {
      assert InItsSlot(p, s, k) && RefsOk(s, k);
    }
    forall slot | slot in t.newTable ensures NewEntryOk(p, t, slot) {
      assert NewEntryOk(p, s, slot);
    }
  }

  lemma {:induction false} RemoveAgrees(p: Params, s: State, t: State, id: nat, loose: set<nat>, out: set<nat>)
    requires Agrees(p, s, loose, out) && Deletable(s, out, id) && Removed(p, s, t, id)
    requires s.mapInfo[id].randomPos == |s.random| - 1
    ensures Agrees(p, t, loose - {id}, out)
  {
    RemoveDirectory(p, s, t, id);
    RemoveTables(p, s, t, id);
    forall k | k != id ensures SameEntry(s, out, t, out, k) {
    }
    Leaves(p, s, out, t, out, id);
    forall k | k in t.mapInfo ensures InfoAt(t, loose - {id}, k) {
      assert InfoAt(s, loose, k);
    }
  }

  // ---- adding an entry ----

  /** t is s with one more entry, that is in no table. */
  ghost predicate OneMoreEntry(p: Params, s: State, t: State, id: nat) {
    && id == s.idCount && id !in s.mapInfo && id in t.mapInfo && t.mapInfo == s.mapInfo[id := t.mapInfo[id]]
    && t.triedTable == s.triedTable && t.newTable == s.newTable && SameRest(s, t)
    && var info := t.mapInfo[id];
       && info.addr !in s.mapAddr && info.randomPos == |s.random| && !info.inTried && info.refCount == 0
       && info.lastTry >= 0 && info.lastSuccess >= 0
       && t.idCount == id + 1 && t.mapAddr == s.mapAddr[info.addr := id] && t.random == s.random + [id]
       && Recounted(p, s, t, info.addr, false, 1)
  }

  lemma {:induction false} CreateAgrees(p: Params, s: State, t: State, id: nat, loose: set<nat>)
    requires Agrees(p, s, loose, {}) && OneMoreEntry(p, s, t, id)
    ensures Agrees(p, t, loose + {id}, {})
  {
    CreateDirectory(p, s, t, id);
    CreateTables(p, s, t, id);
    CreateCounts(p, s, t, id);
    forall k | k in t.mapInfo ensures InfoAt(t, loose + {id}, k) {
      assert k in s.mapInfo ==> InfoAt(s, loose, k);
    }
  }

  lemma {:induction false} CreateCounts(p: Params, s: State, t: State, id: nat)
    requires CountsOk(p, s, {}) && OneMoreEntry(p, s, t, id)
    ensures CountsOk(p, t, {})
  {
    forall k | k != id ensures SameEntry(s, {}, t, {}, k) {
    }
    Joins(p, s, {}, t, {}, id);
  }

  lemma {:induction false} CreateDirectory(p: Params, s: State, t: State, id: nat)
    requires Directory(s) && OneMoreEntry(p, s, t, id)
    ensures Directory(t)
  {
    forall k | k in t.mapInfo ensures Listed(t, k) {
      assert k in s.mapInfo ==> Listed(s, k);
    }
    forall a | a in t.mapAddr ensures AddrOk(t, a) {
      assert a in s.mapAddr ==> AddrOk(s, a);
    }
    forall i | 0 <= i < |t.random| ensures RandomOk(t, i) {
      assert i < |s.random| ==> RandomOk(s, i);
    }
  }

  lemma {:induction false} CreateTables(p: Params, s: State, t: State, id: nat)
    requires TriedOk(p, s) && NewOk(p, s) && OneMoreEntry(p, s, t, id)
    ensures TriedOk(p, t) && NewOk(p, t)
  {
    forall slot | slot in t.triedTable ensures TriedEntryOk(p, t, slot) {
      assert TriedEntryOk(p, s, slot);
    }
    forall slot | slot in t.newTable ensures NewEntryOk(p, t, slot) && t.newTable[slot] != id {
      assert NewEntryOk(p, s, slot);
    }
    NoRefs(t.newTable, id);
    forall k | k in t.mapInfo ensures InItsSlot(p, t, k) && RefsOk(t, k) {
      assert k in s.mapInfo ==> InItsSlot(p, s, k) && RefsOk(s, k);
    }
  }
}
