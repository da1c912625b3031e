/** Writing the address manager, and reading it into an empty one. */
module AddrManFiles {
  import opened Options
  import opened Sets
  import opened AddrManStates
  import opened AddrManSteps
  import opened AddrManMoves
  import opened AddrManChecks
  import opened AddrManDisk
  import opened AddrMans

  // ---- writing ----

  /** The entries of one kind among ids, in their order. */
  ghost predicate Picks(s: State, order: seq<nat>, n: nat, tried: bool, ids: seq<nat>, infos: seq<Disk>) {
    && n <= |order| && |infos| == |ids| && Distinct(ids)
    && (forall i :: 0 <= i < |ids| ==>
        ids[i] in s.mapInfo && s.mapInfo[ids[i]].inTried == tried && infos[i] == ToDisk(s.mapInfo[ids[i]])
            && ids[i] in order[..n])
    && (forall i :: 0 <= i < n ==> order[i] in s.mapInfo && (s.mapInfo[order[i]].inTried == tried ==> order[i] in ids))
  }

  lemma {:induction false} PickNext(s: State, order: seq<nat>, n: nat, tried: bool, ids: seq<nat>, infos: seq<Disk>)
    requires Picks(s, order, n, tried, ids, infos) && n < |order| && Distinct(order) && order[n] in s.mapInfo
    ensures if s.mapInfo[order[n]].inTried == tried
            then Picks(s, order, n + 1, tried, ids + [order[n]], infos + [ToDisk(s.mapInfo[order[n]])])
            else Picks(s, order, n + 1, tried, ids, infos)
  {
    assert order[..n + 1] == order[..n] + [order[n]];
    assert order[n] !in order[..n];
  }

  lemma {:induction false} PickedAll(s: State, order: seq<nat>, tried: bool, ids: seq<nat>, infos: seq<Disk>)
    requires Picks(s, order, |order|, tried, ids, infos) && Elements(order) == s.mapInfo.Keys
    ensures Enumerates(s, ids, tried)
  {
    forall id | id in s.mapInfo && s.mapInfo[id].inTried == tried ensures id in ids {
      assert id in Elements(order);
    }
  }

  /** The entries in some order. */
  method Enumerate(keys: set<nat>) returns (order: seq<nat>)
    ensures Distinct(order) && Elements(order) == keys
  {
    order := [];
    var rest := keys;
    while rest != {}
      invariant rest <= keys && Distinct(order) && Elements(order) == keys - rest
    {
      var id :| id in rest;
      assert Elements(order + [id]) == Elements(order) + {id};
      order, rest := order + [id], rest - {id};
    }
  }

  /** Write the new entries, and remember their places. */
  method WriteNew(s: State, order: seq<nat>) returns (infos: seq<Disk>, places: map<nat, int>, ghost ids: seq<nat>)
    requires Distinct(order) && Elements(order) == s.mapInfo.Keys && forall id :: id in s.mapInfo ==>
      (s.mapInfo[id].refCount != 0 <==> !s.mapInfo[id].inTried)
    ensures Enumerates(s, ids, false) && Picks(s, order, |order|, false, ids, infos)
    ensures forall i :: 0 <= i < |ids| ==> ids[i] in places && places[ids[i]] == i
  {
    infos, places, ids := [], map[], [];
    for n := 0 to |order|
      invariant Picks(s, order, n, false, ids, infos) && forall i :: 0 <= i < |ids| ==>
        ids[i] in places && places[ids[i]] == i
    {
      var id := order[n];
      assert id in Elements(order);
      PickNext(s, order, n, false, ids, infos);
      places := places[id := |infos|];
      if s.mapInfo[id].refCount != 0 {
        infos, ids := infos + [ToDisk(s.mapInfo[id])], ids + [id];
      }
    }
    PickedAll(s, order, false, ids, infos);
  }

  method WriteTried(s: State, order: seq<nat>) returns (infos: seq<Disk>, ghost ids: seq<nat>)
    requires Distinct(order) && Elements(order) == s.mapInfo.Keys
    ensures Enumerates(s, ids, true) && Picks(s, order, |order|, true, ids, infos)
  {
    infos, ids := [], [];
    for n := 0 to |order|
      invariant Picks(s, order, n, true, ids, infos)
    {
      var id := order[n];
      assert id in Elements(order);
      PickNext(s, order, n, true, ids, infos);
      if s.mapInfo[id].inTried {
        infos, ids := infos + [ToDisk(s.mapInfo[id])], ids + [id];
      }
    }
    PickedAll(s, order, true, ids, infos);
  }

  /** Write the places of the entries in a bucket. */
  method WriteBucket(s: State, b: nat, places: map<nat, int>, ghost ids: seq<nat>) returns (list: seq<int>)
    requires forall i :: 0 <= i < |ids| ==> ids[i] in places && places[ids[i]] == i
    requires forall slot :: slot in s.newTable ==> s.newTable[slot] in ids
    ensures Places(s.newTable, ids, BucketSlots(s.newTable, b, BUCKET_SIZE), list)
  {
    list := [];
    for i := 0 to BUCKET_SIZE
      invariant Places(s.newTable, ids, BucketSlots(s.newTable, b, i), list)
    {
      if Slot(b, i) in s.newTable {
        list := list + [places[s.newTable[Slot(b, i)]]];
      }
    }
  }

  method Serialize(m: AddrMan, asmap: nat) returns (w: Written, ghost newIds: seq<nat>, ghost triedIds: seq<nat>)
    requires m.Valid()
    ensures IsWritten(m.View(), newIds, triedIds, w) && w.asmap == asmap
  {
    var s := m.View();
    var order := Enumerate(s.mapInfo.Keys);
    EntriesWritten(m.p, s);
    var newInfos, places, triedInfos, buckets := [], map[], [], [];
    newInfos, places, newIds := WriteNew(s, order);
    triedInfos, triedIds := WriteTried(s, order);
    forall slot | slot in s.newTable ensures s.newTable[slot] in newIds {
      assert NewEntryOk(m.p, s, slot);
    }
    for b := 0 to NEW_BUCKETS
      invariant |buckets| == b
      invariant forall k :: 0 <= k < b ==>
        Places(s.newTable, newIds, BucketSlots(s.newTable, k, BUCKET_SIZE), buckets[k])
    {
      var list := WriteBucket(s, b, places, newIds);
      buckets := buckets + [list];
    }
    SizesWritten(m.p, s, newIds, triedIds);
    w := Written(s.nNew, s.nTried, newInfos, triedInfos, buckets, asmap);
  }

  lemma {:induction false} EntriesWritten(p: Params, s: State)
    requires Inv(p, s)
    ensures forall id :: id in s.mapInfo ==> (s.mapInfo[id].refCount != 0 <==> !s.mapInfo[id].inTried)
  {
    forall id | id in s.mapInfo ensures s.mapInfo[id].refCount != 0 <==> !s.mapInfo[id].inTried {
      assert InfoAt(s, {}, id);
      if s.mapInfo[id].inTried {
        TriedHasNoRefs(p, s, id);
      }
    }
  }

  /** The counts are the numbers of entries written. */
  lemma {:induction false} SizesWritten(p: Params, s: State, newIds: seq<nat>, triedIds: seq<nat>)
    requires CountsOk(p, s, {}) && Enumerates(s, newIds, false) && Enumerates(s, triedIds, true)
    ensures s.nNew == |newIds| && s.nTried == |triedIds|
  {
    assert CountOk(p, s, {}, false, None) && CountOk(p, s, {}, true, None);
    DistinctCount(newIds);
    DistinctCount(triedIds);
    assert Elements(newIds) == Counted(p, s, {}, false, None);
    assert Elements(triedIds) == Counted(p, s, {}, true, None);
  }

  // ---- reading ----

  /** Whatever was read, the random order and the positions in it agree, and slots are in range. */
  ghost predicate Sound(s: State) {
    && (forall id {:trigger AtItsPosition(s, id)} :: id in s.mapInfo ==> AtItsPosition(s, id))
    && (forall i {:trigger RandomOk(s, i)} :: 0 <= i < |s.random| ==> RandomOk(s, i)) && InRange(s)
  }

  ghost predicate AtItsPosition(s: State, id: nat) {
    id in s.mapInfo && 0 <= s.mapInfo[id].randomPos < |s.random| && s.random[s.mapInfo[id].randomPos] == id
  }

  /** One more entry, with its position in the random order. */
  ghost predicate Appended(s: State, t: State, id: nat) {
    && id !in s.mapInfo && id in t.mapInfo && t.mapInfo == s.mapInfo[id := t.mapInfo[id]]
    && t.mapInfo[id].randomPos == |s.random| && t.random == s.random + [id]
  }

  lemma {:induction false} AppendSound(s: State, t: State, id: nat)
    requires Sound(s) && Appended(s, t, id) && InRange(t)
    ensures Sound(t)
  {
    forall k | k in t.mapInfo ensures AtItsPosition(t, k) {
      assert k != id ==> AtItsPosition(s, k);
    }
    forall i | 0 <= i < |t.random| ensures RandomOk(t, i) {
      assert i < |s.random| ==> RandomOk(s, i);
    }
  }

  /** A manager that wrote, with the order in which its entries were listed. */
  datatype Origin = Origin(p: Params, s: State, newIds: seq<nat>, triedIds: seq<nat>)

  ghost predicate Wrote(o: Origin, w: Written) {
    Inv(o.p, o.s) && IsWritten(o.s, o.newIds, o.triedIds, w)
  }

  /** What was written is read under the same circumstances, and all entries are valid. */
  ghost predicate Genuine(p: Params, o: Origin, w: Written, asmap: nat) {
    && Wrote(o, w) && o.p == p && w.asmap == asmap
    && forall id :: id in o.s.mapInfo ==> p.valid(o.s.mapInfo[id].addr)
  }

  /** The entries kept after the first j tried ones have been read, by their new names. */
  ghost function Names(p: Params, o: Origin, j: nat): seq<nat>
    requires j <= |o.triedIds|
  {
    o.newIds + KeptTried(p, o.s, o.triedIds, j)
  }

  lemma {:induction false} NamesRanked(p: Params, o: Origin, w: Written, j: nat)
    requires Wrote(o, w) && j <= |o.triedIds|
    ensures Ranked(o.s, Names(p, o, j), |o.newIds|)
  {
    var all, kept, n := Names(p, o, j), KeptTried(p, o.s, o.triedIds, j), |o.newIds|;
    KeptAmong(p, o.s, o.triedIds, j);
    forall k | 0 <= k < |all|
      ensures all[k] in o.s.mapInfo && (o.s.mapInfo[all[k]].inTried <==> k >= n)
    {
      if k >= n {
        assert kept[k - n] in o.triedIds[..j];
      }
    }
    forall i, k | 0 <= i < k < |all| ensures all[i] != all[k] {
      if i >= n {
        assert kept[i - n] != kept[k - n];
      }
    }
  }

  /** The state with counts of the entries read so far. */
  ghost function AsRead(s: State, nNew: nat, n: nat): State {
    s.(idCount := n, nNew := nNew, nTried := n - nNew)
  }

  /** The first n new entries have been read. */
  ghost predicate NewSoFar(p: Params, written: bool, o: Origin, t: State, n: nat) {
    written ==> Loaded(p, o.s, o.newIds, |o.newIds|, AsRead(t, n, n), n)
  }

  /** All new entries and some tried ones have been read. */
  ghost predicate AllRead(p: Params, o: Origin, t: State, all: seq<nat>) {
    && |o.newIds| <= |all| == t.idCount
    && Loaded(p, o.s, all, |o.newIds|, AsRead(t, |o.newIds|, |all|), |all|)
  }

  ghost predicate OnlyNewRead(t: State, n: nat) {
    Sound(t) && t.mapInfo.Keys == Fill(n) && t.newTable == map[] && t.triedTable == map[]
  }

  lemma {:induction false} SameSound(s: State, t: State)
    requires Sound(s) && t.mapInfo == s.mapInfo && t.random == s.random && t.newTable == s.newTable
    requires t.triedTable == s.triedTable
    ensures Sound(t)
  {
    forall k | k in t.mapInfo ensures AtItsPosition(t, k) {
      assert AtItsPosition(s, k);
    }
    forall i | 0 <= i < |t.random| ensures RandomOk(t, i) {
      assert RandomOk(s, i);
    }
  }

  method ReadNew(m: AddrMan, w: Written, ghost written: bool, ghost o: Origin)
    requires IsEmpty(m.View()) && w.nNew == |w.newInfos| && (written ==> Wrote(o, w))
    modifies m
    ensures OnlyNewRead(m.View(), |w.newInfos|) && m.idCount == |w.newInfos| && m.nTried == old(m.nTried)
    ensures m.nNew == old(m.nNew) && NewSoFar(m.p, written, o, m.View(), |w.newInfos|)
  {
    if written {
      NothingLoaded(m.p, o.s, o.newIds, |o.newIds|, AsRead(m.View(), 0, 0));
    }
    for n := 0 to |w.newInfos|
      invariant OnlyNewRead(m.View(), n) && m.nTried == old(m.nTried) && m.nNew == old(m.nNew)
      invariant NewSoFar(m.p, written, o, m.View(), n)
    {
      NextNew(m, w, n, written, o);
    }
    SetIdCount(m, |w.newInfos|, written, o);
  }

  method SetIdCount(m: AddrMan, n: nat, ghost written: bool, ghost o: Origin)
    requires OnlyNewRead(m.View(), n) && NewSoFar(m.p, written, o, m.View(), n)
    modifies m`idCount
    ensures m.idCount == n && OnlyNewRead(m.View(), n) && NewSoFar(m.p, written, o, m.View(), n)
  {
    ghost var t := m.View();
    m.idCount := n;
    SameSound(t, m.View());
    assert AsRead(m.View(), n, n) == AsRead(t, n, n);
  }

  method NextNew(m: AddrMan, w: Written, n: nat, ghost written: bool, ghost o: Origin)
    requires n < |w.newInfos| && OnlyNewRead(m.View(), n) && NewSoFar(m.p, written, o, m.View(), n)
    requires written ==> Wrote(o, w)
    modifies m
    ensures OnlyNewRead(m.View(), n + 1) && m.nTried == old(m.nTried) && m.nNew == old(m.nNew)
    ensures NewSoFar(m.p, written, o, m.View(), n + 1)
  {
    ghost var t := m.View();
    ReadOne(m, w.newInfos[n], n);
    AppendSound(t, m.View(), n);
    assert Fill(n) + {n} == Fill(n + 1);
    if written {
      NewRead(m.p, o, w, t, m.View(), n);
    }
  }

  /** u is t with one more entry, read from d, in no table. */
  ghost predicate NewAppended(p: Params, t: State, u: State, d: Disk, n: nat) {
    && u.mapInfo == t.mapInfo[n := FromDisk(d, false, |t.random|)] && u.mapAddr == t.mapAddr[d.addr := n]
    && u.random == t.random + [n] && u.counts == Bumped(t.counts, p.network(d.addr), 1, 0)
    && u.triedTable == t.triedTable && u.newTable == t.newTable && u.idCount == t.idCount
    && u.nTried == t.nTried && u.nNew == t.nNew && SameRest(t, u)
  }

  method ReadOne(m: AddrMan, d: Disk, n: nat)
    modifies m
    ensures NewAppended(m.p, old(m.View()), m.View(), d, n)
  {
    m.mapInfo := m.mapInfo[n := FromDisk(d, false, |m.random|)];
    m.mapAddr := m.mapAddr[d.addr := n];
    m.random := m.random + [n];
    m.counts := Bumped(m.counts, m.p.network(d.addr), 1, 0);
  }

  lemma {:induction false} NothingLoaded(p: Params, s: State, all: seq<nat>, nNew: nat, t: State)
    requires IsEmpty(t) && t.idCount == 0 && t.nNew == 0 && t.nTried == 0
    ensures Loaded(p, s, all, nNew, t, 0)
  {
    EmptyInv(p, t);
  }

  lemma {:induction false} NewRead(p: Params, o: Origin, w: Written, t: State, u: State, n: nat)
    requires Wrote(o, w) && n < |o.newIds|
    requires Loaded(p, o.s, o.newIds, |o.newIds|, AsRead(t, n, n), n) && NewAppended(p, t, u, w.newInfos[n], n)
    ensures Loaded(p, o.s, o.newIds, |o.newIds|, AsRead(u, n + 1, n + 1), n + 1)
  {
    assert InfoAt(o.s, {}, o.newIds[n]);
    assert Ranked(o.s, o.newIds, |o.newIds|);
    NextAddrIsNew(p, o.s, o.newIds, |o.newIds|, AsRead(t, n, n), n);
    NewLoaded(p, o.s, o.newIds, |o.newIds|, AsRead(t, n, n), AsRead(u, n + 1, n + 1), n);
  }

  // ---- the tried entries ----

  ghost predicate TriedRead(t: State, nNew: nat) {
    Sound(t) && t.newTable == map[] && nNew <= t.idCount && t.mapInfo.Keys == Fill(t.idCount)
  }

  /** u is t with one more entry, read from d, in a slot of the tried table. */
  ghost predicate TriedAppended(p: Params, t: State, u: State, d: Disk, slot: Slot) {
    && u.idCount == t.idCount + 1 && u.mapInfo == t.mapInfo[t.idCount := FromDisk(d, true, |t.random|)]
    && u.mapAddr == t.mapAddr[d.addr := t.idCount] && u.random == t.random + [t.idCount]
    && u.triedTable == t.triedTable[slot := t.idCount] && u.counts == Bumped(t.counts, p.network(d.addr), 0, 1)
    && u.newTable == t.newTable && u.nTried == t.nTried && u.nNew == t.nNew && SameRest(t, u)
  }

  method ReadTriedOne(m: AddrMan, d: Disk, slot: Slot)
    modifies m
    ensures TriedAppended(m.p, old(m.View()), m.View(), d, slot)
  {
    m.random := m.random + [m.idCount];
    m.mapInfo := m.mapInfo[m.idCount := FromDisk(d, true, |m.random| - 1)];
    m.mapAddr := m.mapAddr[d.addr := m.idCount];
    m.triedTable := m.triedTable[slot := m.idCount];
    m.idCount := m.idCount + 1;
    m.counts := Bumped(m.counts, m.p.network(d.addr), 0, 1);
  }

  lemma {:induction false} AppendedIsOneMore(p: Params, t: State, u: State, d: Disk, nNew: nat, n: nat, n': nat)
    requires TriedAppended(p, t, u, d, TriedSlot(p, d.addr)) && t.idCount == n && n' == n + 1
    requires n !in t.mapInfo && d.addr !in t.mapAddr && TriedSlot(p, d.addr) !in t.triedTable && d.lastSuccess > 0
    ensures OneMoreTried(p, AsRead(t, nNew, n), AsRead(u, nNew, n'), n)
    ensures u.mapInfo[n] == FromDisk(d, true, |t.random|)
  {
  }

  /** One more entry has been read under the name of its position among those kept. */
  lemma {:induction false} TriedOneRead(p: Params, s: State, t: State, u: State, all: seq<nat>, nNew: nat, n: nat,
                                        n': nat, id: nat, d: Disk)
    requires nNew <= n == |all| == t.idCount && n' == n + 1 && Loaded(p, s, all, nNew, AsRead(t, nNew, n), n)
    requires Ranked(s, all + [id], nNew) && id in s.mapInfo && d == ToDisk(s.mapInfo[id])
    requires TriedAppended(p, t, u, d, TriedSlot(p, d.addr)) && TriedSlot(p, d.addr) !in t.triedTable
    requires d.addr !in t.mapAddr && d.lastSuccess > 0 && n !in t.mapInfo
    ensures Loaded(p, s, all + [id], nNew, AsRead(u, nNew, n'), n')
  {
    AppendedIsOneMore(p, t, u, d, nNew, n, n');
    TriedOneLoaded(p, s, AsRead(t, nNew, n), AsRead(u, nNew, n'), all, id, nNew, n, n');
  }

  lemma {:induction false} NextTriedIs(p: Params, o: Origin, w: Written, v: State, all: seq<nat>, id: nat, n: nat)
    requires Wrote(o, w) && n == |all| && |o.newIds| <= n && Loaded(p, o.s, all, |o.newIds|, v, n)
    requires Ranked(o.s, all + [id], |o.newIds|) && id in o.s.mapInfo && o.s.mapInfo[id].inTried
    ensures o.s.mapInfo[id].addr !in v.mapAddr && o.s.mapInfo[id].lastSuccess > 0 && n !in v.mapInfo
  {
    LoadedOfMore(p, o.s, all, all + [id], |o.newIds|, v, n);
    NextAddrIsNew(p, o.s, all + [id], |o.newIds|, v, n);
    assert InfoAt(o.s, {}, id);
  }

  lemma {:induction false} TriedOneLoaded(p: Params, s: State, v: State, v': State, all: seq<nat>, id: nat, nNew: nat,
                                          n: nat, n': nat)
    requires n == |all| && n' == n + 1 && nNew <= n && Loaded(p, s, all, nNew, v, n) && OneMoreTried(p, v, v', n)
    requires Ranked(s, all + [id], nNew) && id in s.mapInfo
    requires v'.mapInfo[n] == FromDisk(ToDisk(s.mapInfo[id]), true, |v.random|)
    ensures Loaded(p, s, all + [id], nNew, v', n')
  {
    LoadedOfMore(p, s, all, all + [id], nNew, v, n);
    TriedLoaded(p, s, all + [id], nNew, v, v', n);
  }

  lemma {:induction false} AppendedSound(p: Params, t: State, u: State, d: Disk, nNew: nat)
    requires TriedRead(t, nNew) && TriedAppended(p, t, u, d, TriedSlot(p, d.addr))
    ensures TriedRead(u, nNew)
  {
    AppendSound(t, u, t.idCount);
    assert Fill(t.idCount) + {t.idCount} == Fill(t.idCount + 1);
  }

  /** What reading one tried entry does. */
  ghost predicate TriedStep(p: Params, t: State, u: State, d: Disk) {
    if p.valid(d.addr) && TriedSlot(p, d.addr) !in t.triedTable then TriedAppended(p, t, u, d, TriedSlot(p, d.addr))
    else u == t
  }

  method NextTried(m: AddrMan, d: Disk) returns (lost: bool)
    modifies m
    ensures TriedStep(m.p, old(m.View()), m.View(), d) && m.idCount == old(m.idCount) + if lost then 0 else 1
  {
    var slot := TriedSlot(m.p, d.addr);
    lost := !(m.p.valid(d.addr) && slot !in m.triedTable);
    if !lost {
      ReadTriedOne(m, d, slot);
    }
  }

  /** One state after another, as tried entries are read. */
  ghost predicate TriedSteps(p: Params, states: seq<State>, ds: seq<Disk>, n: nat) {
    && n <= |ds| && |states| == n + 1
    && forall j {:trigger TriedStepAt(p, states, ds, j)} :: 0 <= j < n ==> TriedStepAt(p, states, ds, j)
  }

  ghost predicate TriedStepAt(p: Params, states: seq<State>, ds: seq<Disk>, j: nat) {
    j < |ds| && j + 1 < |states| && TriedStep(p, states[j], states[j + 1], ds[j])
  }

  lemma {:induction false} TriedStepsNext(p: Params, states: seq<State>, ds: seq<Disk>, n: nat, u: State)
    requires TriedSteps(p, states, ds, n) && n < |ds| && TriedStep(p, states[n], u, ds[n])
    ensures TriedSteps(p, states + [u], ds, n + 1)
  {
    forall j | 0 <= j < n + 1 ensures TriedStepAt(p, states + [u], ds, j) {
      assert j < n ==> TriedStepAt(p, states, ds, j);
    }
  }

  method ReadEachTried(m: AddrMan, ds: seq<Disk>) returns (nLost: nat, ghost states: seq<State>)
    modifies m
    ensures TriedSteps(m.p, states, ds, |ds|) && states[0] == old(m.View()) && states[|ds|] == m.View()
    ensures m.idCount + nLost == old(m.idCount) + |ds|
  {
    nLost, states := 0, [m.View()];
    for j := 0 to |ds|
      invariant TriedSteps(m.p, states, ds, j) && states[0] == old(m.View()) && states[j] == m.View()
      invariant m.idCount + nLost == old(m.idCount) + j
    {
      var lost := NextTried(m, ds[j]);
      if lost {
        nLost := nLost + 1;
      }
      TriedStepsNext(m.p, states, ds, j, m.View());
      states := states + [m.View()];
    }
  }

  // ---- what has been read then ----

  lemma {:induction false} StepSound(p: Params, t: State, u: State, d: Disk, nNew: nat)
    requires TriedRead(t, nNew) && TriedStep(p, t, u, d)
    ensures TriedRead(u, nNew) && u.nTried == t.nTried && u.nNew == t.nNew
  {
    if u != t {
      AppendedSound(p, t, u, d, nNew);
    }
  }

  lemma {:induction false} StepsSound(p: Params, states: seq<State>, ds: seq<Disk>, n: nat, nNew: nat)
    requires TriedSteps(p, states, ds, |ds|) && n <= |ds| && TriedRead(states[0], nNew)
    ensures TriedRead(states[n], nNew) && states[n].nTried == states[0].nTried && states[n].nNew == states[0].nNew
  {
    if n > 0 {
      StepsSound(p, states, ds, n - 1, nNew);
      assert TriedStepAt(p, states, ds, n - 1);
      StepSound(p, states[n - 1], states[n], ds[n - 1], nNew);
    }
  }

  lemma {:induction false} LostIffNotKept(p: Params, o: Origin, w: Written, t: State, j: nat)
    requires Wrote(o, w) && j < |o.triedIds| && AllRead(p, o, t, Names(p, o, j))
    ensures var d := w.triedInfos[j];
            p.valid(d.addr) && TriedSlot(p, d.addr) !in t.triedTable <==>
            Keeps(p, o.s, KeptTried(p, o.s, o.triedIds, j), o.triedIds[j])
  {
    var kept := KeptTried(p, o.s, o.triedIds, j);
    NamesRanked(p, o, w, j);
    SlotTaken(p, o.s, o.newIds, kept, AsRead(t, |o.newIds|, |o.newIds| + |kept|), o.triedIds[j]);
  }

  /** An entry that is kept gets the next name. */
  lemma {:induction false} KeptRead(p: Params, o: Origin, w: Written, t: State, u: State, j: nat, all: seq<nat>,
                                    more: seq<nat>)
    requires Wrote(o, w) && j < |o.triedIds| && AllRead(p, o, t, all)
    requires more == all + [o.triedIds[j]] && Ranked(o.s, more, |o.newIds|)
    requires var d := w.triedInfos[j];
             TriedSlot(p, d.addr) !in t.triedTable && TriedAppended(p, t, u, d, TriedSlot(p, d.addr))
    ensures AllRead(p, o, u, more)
  {
    var id := o.triedIds[j];
    NextTriedIs(p, o, w, AsRead(t, |o.newIds|, |all|), all, id, |all|);
    TriedOneRead(p, o.s, t, u, all, |o.newIds|, |all|, |more|, id, w.triedInfos[j]);
  }

  lemma {:induction false} NamesNext(p: Params, o: Origin, j: nat)
    requires j < |o.triedIds|
    ensures if Keeps(p, o.s, KeptTried(p, o.s, o.triedIds, j), o.triedIds[j])
            then Names(p, o, j + 1) == Names(p, o, j) + [o.triedIds[j]] else Names(p, o, j + 1) == Names(p, o, j)
  {
  }

  lemma {:induction false} StepRead(p: Params, o: Origin, w: Written, t: State, u: State, j: nat, all: seq<nat>,
                                    more: seq<nat>)
    requires Wrote(o, w) && j < |o.triedIds| && AllRead(p, o, t, all) && TriedStep(p, t, u, w.triedInfos[j])
    requires all == Names(p, o, j) && more == Names(p, o, j + 1)
    ensures AllRead(p, o, u, more)
  {
    LostIffNotKept(p, o, w, t, j);
    NamesNext(p, o, j);
    if u != t {
      NamesRanked(p, o, w, j + 1);
      KeptRead(p, o, w, t, u, j, all, more);
    } else {
      assert more == all;
    }
  }

  ghost predicate ReadAt(p: Params, o: Origin, states: seq<State>, n: nat) {
    n < |states| && n <= |o.triedIds| && AllRead(p, o, states[n], Names(p, o, n))
  }

  lemma {:induction false} StepReadAt(p: Params, o: Origin, w: Written, states: seq<State>, j: nat, n: nat)
    requires Wrote(o, w) && j < |o.triedIds| && n == j + 1 && ReadAt(p, o, states, j)
    requires TriedStepAt(p, states, w.triedInfos, j)
    ensures ReadAt(p, o, states, n)
  {
    StepRead(p, o, w, states[j], states[n], j, Names(p, o, j), Names(p, o, n));
  }

  lemma {:induction false} StepsRead(p: Params, o: Origin, w: Written, states: seq<State>, n: nat)
    requires Wrote(o, w) && TriedSteps(p, states, w.triedInfos, |w.triedInfos|) && n <= |w.triedInfos|
    requires ReadAt(p, o, states, 0)
    ensures ReadAt(p, o, states, n)
  {
    if n > 0 {
      var j: nat := n - 1;
      StepsRead(p, o, w, states, j);
      assert TriedStepAt(p, states, w.triedInfos, j);
      StepReadAt(p, o, w, states, j, n);
    }
  }

  method ReadTried(m: AddrMan, w: Written, ghost written: bool, ghost o: Origin)
    requires OnlyNewRead(m.View(), |w.newInfos|) && (written ==> Wrote(o, w))
    requires NewSoFar(m.p, written, o, m.View(), |w.newInfos|) && m.idCount == |w.newInfos|
    requires m.nTried == |w.triedInfos|
    modifies m
    ensures TriedRead(m.View(), |w.newInfos|) && m.nNew == old(m.nNew) && m.nTried == m.idCount - |w.newInfos|
    ensures written ==> AllRead(m.p, o, m.View(), Names(m.p, o, |o.triedIds|))
  {
    var nLost;
    ghost var states;
    nLost, states := ReadEachTried(m, w.triedInfos);
    ghost var t := m.View();
    StepsSound(m.p, states, w.triedInfos, |w.triedInfos|, |w.newInfos|);
    m.nTried := m.nTried - nLost;
    SameSound(t, m.View());
    if written {
      StartTried(m.p, o, states[0]);
      StepsRead(m.p, o, w, states, |w.triedInfos|);
      SameRead(m.p, o, t, m.View(), Names(m.p, o, |w.triedInfos|));
    }
  }

  lemma {:induction false} StartTried(p: Params, o: Origin, t: State)
    requires NewSoFar(p, true, o, t, |o.newIds|) && t.idCount == |o.newIds|
    ensures AllRead(p, o, t, Names(p, o, 0))
  {
    assert Names(p, o, 0) == o.newIds;
  }

  lemma {:induction false} SameRead(p: Params, o: Origin, t: State, u: State, all: seq<nat>)
    requires AllRead(p, o, t, all) && u == t.(nTried := u.nTried)
    ensures AllRead(p, o, u, all)
  {
    assert AsRead(u, |o.newIds|, |all|) == AsRead(t, |o.newIds|, |all|);
  }
}
