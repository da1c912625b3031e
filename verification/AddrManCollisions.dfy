/** Entries of the address manager that wait for a slot of the tried table, and when they get it. */
module AddrManCollisions {
  import opened Sets
  import opened AddrManStates
  import opened AddrManSteps
  import opened AddrManTables
  import opened AddrManRecords

  // ---- one collision ----

  datatype Verdict = Wait | Forget | Replace

  /** What becomes of an entry that waits for a slot. */
  function Judge(p: Params, s: State, id: nat, now: int): Verdict {
    if id !in s.mapInfo || !p.valid(s.mapInfo[id].addr) then Forget
    else
      var slot := TriedSlot(p, s.mapInfo[id].addr);
      if slot !in s.triedTable || s.triedTable[slot] !in s.mapInfo then Replace
      else
        var rival := s.mapInfo[s.triedTable[slot]];
        if now - rival.lastSuccess < 4 * HOUR then Forget
        else if now - rival.lastTry < 4 * HOUR then if now - rival.lastTry > MINUTE then Replace else Wait
        else if now - s.mapInfo[id].lastSuccess > 40 * MINUTE then Replace else Wait
  }

  ghost predicate Resolved(p: Params, s: State, t: State, id: nat, now: int) {
    match Judge(p, s, id, now)
    case Wait => t == s
    case Forget => t == s.(collisions := s.collisions - {id})
    case Replace =>
      && id in s.mapInfo && t.collisions == s.collisions - {id}
      && GoodFor(p, s, t.(collisions := s.collisions), s.mapInfo[id].addr, false, now)
  }

  /** One state after another, as collisions are resolved. */
  ghost predicate AllResolved(p: Params, states: seq<State>, ids: seq<nat>, now: int) {
    && |states| == |ids| + 1
    && forall i {:trigger ResolvedAt(p, states, ids, now, i)} :: 0 <= i < |ids| ==> ResolvedAt(p, states, ids, now, i)
  }

  ghost predicate ResolvedAt(p: Params, states: seq<State>, ids: seq<nat>, now: int, i: nat) {
    && |states| == |ids| + 1 && i < |ids| && Inv(p, states[i]) && Inv(p, states[i + 1])
    && Resolved(p, states[i], states[i + 1], ids[i], now)
  }

  lemma {:induction false} ResolvedNext(p: Params, states: seq<State>, ids: seq<nat>, now: int, t: State, id: nat)
    requires AllResolved(p, states, ids, now) && Resolved(p, states[|ids|], t, id, now)
    requires Inv(p, states[|ids|]) && Inv(p, t)
    ensures AllResolved(p, states + [t], ids + [id], now)
  {
    forall i | 0 <= i < |ids| + 1 ensures ResolvedAt(p, states + [t], ids + [id], now, i) {
      assert i < |ids| ==> ResolvedAt(p, states, ids, now, i);
    }
  }

  /** ids lists all but the rest in ascending order, and those in the rest are greater. */
  ghost predicate Listing(ids: seq<nat>, all: set<nat>, rest: set<nat>) {
    && Elements(ids) == all - rest && rest <= all && (forall i, j :: 0 <= i < j < |ids| ==> ids[i] < ids[j])
    && (forall i, x :: 0 <= i < |ids| && x in rest ==> ids[i] < x)
  }

  lemma {:induction false} ListingNext(ids: seq<nat>, all: set<nat>, rest: set<nat>, id: nat)
    requires Listing(ids, all, rest) && id in rest && forall x :: x in rest ==> id <= x
    ensures Listing(ids + [id], all, rest - {id})
  {
    assert Elements(ids + [id]) == Elements(ids) + {id};
  }

  // ---- what one leaves alone ----

  /** Other entries keep their records, and no other collision is forgotten. */
  lemma {:induction false} OtherKept(p: Params, t: State, u: State, id: nat, now: int, x: nat)
    requires Resolved(p, t, u, id, now) && Inv(p, t) && x != id
    ensures x in u.mapInfo ==> x in t.mapInfo && SameRecord(t.mapInfo[x], u.mapInfo[x])
    ensures x in u.collisions <==> x in t.collisions
  {
    if Judge(p, t, id, now) == Replace && x in u.mapInfo {
      var addr := t.mapInfo[id].addr;
      var n := Succeeded(t, addr, now);
      assert Listed(t, id);
      if CanMove(p, t, addr, false) {
        assert SameRecord(n.mapInfo[x], u.mapInfo[x]);
      }
    }
  }

  /** Other slots keep their entries. */
  lemma {:induction false} OtherSlot(p: Params, t: State, u: State, id: nat, now: int, slot: Slot)
    requires Resolved(p, t, u, id, now) && Inv(p, t)
    requires id in t.mapInfo ==> slot != TriedSlot(p, t.mapInfo[id].addr)
    ensures slot in u.triedTable <==> slot in t.triedTable
    ensures slot in t.triedTable ==> u.triedTable[slot] == t.triedTable[slot]
  {
    if Judge(p, t, id, now) == Replace {
      assert Listed(t, id);
    }
  }

  // ---- who leaves, and for whom ----

  /** No success in four hours, and no attempt in a minute. */
  predicate Stale(info: Info, now: int) {
    now - info.lastSuccess >= 4 * HOUR && now - info.lastTry > MINUTE
  }

  /** What one entry has to give way to another for: it is stale, and has either been tried lately, without success
      then, or could not be tested in the forty minutes since the last success of the other. */
  predicate GivesWayTo(info: Info, other: Info, now: int) {
    Stale(info, now) && (now - info.lastTry < 4 * HOUR || now - other.lastSuccess > 40 * MINUTE)
  }

  lemma {:induction false} ReplacedGivesWay(p: Params, t: State, id: nat, now: int)
    requires Judge(p, t, id, now) == Replace && TriedSlot(p, t.mapInfo[id].addr) in t.triedTable
    requires t.triedTable[TriedSlot(p, t.mapInfo[id].addr)] in t.mapInfo
    ensures GivesWayTo(t.mapInfo[t.triedTable[TriedSlot(p, t.mapInfo[id].addr)]], t.mapInfo[id], now)
  {
  }

  /** The slot has the entry it had, with the same record or a success now, or one that has succeeded now, in place of
      one that had to give way to it. */
  ghost predicate FairlyHeld(s: State, t: State, slot: Slot, now: int) {
    && slot in s.triedTable && s.triedTable[slot] in s.mapInfo && slot in t.triedTable
    && t.triedTable[slot] in t.mapInfo
    && var i, j := s.mapInfo[s.triedTable[slot]], t.mapInfo[t.triedTable[slot]];
       && (t.triedTable[slot] == s.triedTable[slot]
           || (t.triedTable[slot] in s.mapInfo && GivesWayTo(i, s.mapInfo[t.triedTable[slot]], now)))
       && (j.lastSuccess == now || (t.triedTable[slot] == s.triedTable[slot] && SameRecord(i, j)))
  }

  ghost predicate FairlyEvicted(s: State, t: State, now: int) {
    forall slot {:trigger FairlyHeld(s, t, slot, now)} :: slot in s.triedTable ==> FairlyHeld(s, t, slot, now)
  }

  /** A slot when the entry id moves to the tried table, perhaps to this slot. */
  lemma {:induction false} HeldMoved(p: Params, s: State, t: State, n: State, u: State, id: nat, now: int, slot: Slot)
    requires FairlyHeld(s, t, slot, now) && TriedEntryOk(p, t, slot) && slot in u.triedTable
    requires id in n.mapInfo && !n.mapInfo[id].inTried && n.mapInfo[id].lastSuccess == now
    requires id in t.mapInfo && id in s.mapInfo && SameRecord(s.mapInfo[id], t.mapInfo[id])
    requires t.triedTable[slot] in n.mapInfo && n.mapInfo[t.triedTable[slot]] == t.mapInfo[t.triedTable[slot]]
    requires u.triedTable[slot] in n.mapInfo && u.triedTable[slot] in u.mapInfo
    requires SameRecord(n.mapInfo[u.triedTable[slot]], u.mapInfo[u.triedTable[slot]])
    requires u.triedTable[slot] == t.triedTable[slot]
          || (u.triedTable[slot] == id && GivesWayTo(t.mapInfo[t.triedTable[slot]], t.mapInfo[id], now))
    ensures FairlyHeld(s, u, slot, now)
  {
  }

  lemma {:induction false} HeldByMove(p: Params, s: State, t: State, u: State, id: nat, now: int, slot: Slot)
    requires FairlyHeld(s, t, slot, now) && Listed(t, id) && TriedEntryOk(p, t, slot) && TriedEntryOk(p, u, slot)
    requires id in s.mapInfo && SameRecord(s.mapInfo[id], t.mapInfo[id])
    requires !t.mapInfo[id].inTried && MadeTried(p, Succeeded(t, t.mapInfo[id].addr, now), u, id)
    requires Judge(p, t, id, now) == Replace
    ensures FairlyHeld(s, u, slot, now)
  {
    var n, k := Succeeded(t, t.mapInfo[id].addr, now), u.triedTable[slot];
    assert SameRecord(n.mapInfo[k], u.mapInfo[k]);
    if slot == TriedSlot(p, t.mapInfo[id].addr) {
      ReplacedGivesWay(p, t, id, now);
    }
    HeldMoved(p, s, t, n, u, id, now, slot);
  }

  lemma {:induction false} HeldNext(p: Params, s: State, t: State, u: State, id: nat, now: int, slot: Slot)
    requires FairlyHeld(s, t, slot, now) && TriedEntryOk(p, t, slot) && Resolved(p, t, u, id, now)
    requires (id in t.mapInfo ==> Listed(t, id)) && (slot in u.triedTable ==> TriedEntryOk(p, u, slot))
    requires id in t.mapInfo ==> id in s.mapInfo && SameRecord(s.mapInfo[id], t.mapInfo[id])
    ensures FairlyHeld(s, u, slot, now)
  {
    if Judge(p, t, id, now) == Replace && CanMove(p, t, t.mapInfo[id].addr, false) {
      assert MadeTried(p, Succeeded(t, t.mapInfo[id].addr, now), u.(collisions := t.collisions), id);
      assert TriedEntryOk(p, u.(collisions := t.collisions), slot);
      HeldByMove(p, s, t, u.(collisions := t.collisions), id, now, slot);
    }
  }

  // ---- all of them, one after another ----

  /** The collisions of the first state, each once, are resolved. */
  ghost predicate Resolution(p: Params, states: seq<State>, ids: seq<nat>, now: int) {
    AllResolved(p, states, ids, now) && Listing(ids, states[0].collisions, {}) && Inv(p, states[0])
  }

  /** Until its turn a collision waits, and the record of its entry stays. */
  ghost predicate Untouched(s: State, t: State, id: nat) {
    id in t.collisions && (id in t.mapInfo ==> id in s.mapInfo && SameRecord(s.mapInfo[id], t.mapInfo[id]))
  }

  lemma {:induction false} UntouchedNext(p: Params, s: State, t: State, u: State, id: nat, now: int, x: nat)
    requires Untouched(s, t, x) && Resolved(p, t, u, id, now) && Inv(p, t) && x != id
    ensures Untouched(s, u, x)
  {
    OtherKept(p, t, u, id, now, x);
  }

  lemma {:induction false} NotYet(p: Params, states: seq<State>, ids: seq<nat>, now: int, n: nat, i: nat)
    requires Resolution(p, states, ids, now) && n <= i < |ids|
    ensures Untouched(states[0], states[n], ids[i])
  {
    if n == 0 {
      assert ids[i] in Elements(ids);
    } else {
      NotYet(p, states, ids, now, n - 1, i);
      assert ResolvedAt(p, states, ids, now, n - 1);
      UntouchedNext(p, states[0], states[n - 1], states[n], ids[n - 1], now, ids[i]);
    }
  }

  lemma {:induction false} HeldAt(p: Params, states: seq<State>, ids: seq<nat>, now: int, n: nat, slot: Slot)
    requires Resolution(p, states, ids, now) && n <= |ids| && slot in states[0].triedTable
    ensures FairlyHeld(states[0], states[n], slot, now)
  {
    if n == 0 {
      assert TriedEntryOk(p, states[0], slot);
    } else {
      var t, u, id := states[n - 1], states[n], ids[n - 1];
      HeldAt(p, states, ids, now, n - 1, slot);
      NotYet(p, states, ids, now, n - 1, n - 1);
      assert ResolvedAt(p, states, ids, now, n - 1);
      assert TriedEntryOk(p, t, slot);
      assert id in t.mapInfo ==> Listed(t, id);
      assert slot in u.triedTable ==> TriedEntryOk(p, u, slot);
      HeldNext(p, states[0], t, u, id, now, slot);
    }
  }

  /** The slot a waiting entry waits for. */
  function SlotOf(p: Params, s: State, id: nat): Slot
    requires id in s.mapInfo
  {
    TriedSlot(p, s.mapInfo[id].addr)
  }

  /** A waiting entry whose rival has succeeded in the last four hours, or that has itself had no success in forty
      minutes while its rival has not been tried in the last minute. */
  ghost predicate Due(p: Params, s: State, id: nat, now: int) {
    && id in s.mapInfo && SlotOf(p, s, id) in s.triedTable && s.triedTable[SlotOf(p, s, id)] in s.mapInfo
    && var rival := s.mapInfo[s.triedTable[SlotOf(p, s, id)]];
       || now - rival.lastSuccess < 4 * HOUR
       || (now - s.mapInfo[id].lastSuccess > 40 * MINUTE && now - rival.lastTry > MINUTE)
  }

  lemma {:induction false} DueIsSettled(p: Params, s: State, t: State, id: nat, now: int)
    requires Due(p, s, id, now) && Untouched(s, t, id) && FairlyHeld(s, t, SlotOf(p, s, id), now)
    ensures Judge(p, t, id, now) != Wait
  {
  }

  /** A collision that is due is settled. */
  lemma {:induction false} DueAt(p: Params, states: seq<State>, ids: seq<nat>, now: int, n: nat, i: nat)
    requires Resolution(p, states, ids, now) && i < n <= |ids| && Due(p, states[0], ids[i], now)
    ensures ids[i] !in states[n].collisions
  {
    var t, u, id := states[n - 1], states[n], ids[n - 1];
    assert ResolvedAt(p, states, ids, now, n - 1);
    if i < n - 1 {
      DueAt(p, states, ids, now, n - 1, i);
      OtherKept(p, t, u, id, now, ids[i]);
    } else {
      NotYet(p, states, ids, now, i, i);
      HeldAt(p, states, ids, now, i, SlotOf(p, states[0], id));
      DueIsSettled(p, states[0], t, id, now);
    }
  }

  /** A valid waiting entry whose rival has had no success in four hours, and has either been tried in the last minute
      or neither been tried in the last four hours nor had forty minutes to be. */
  ghost predicate Pending(p: Params, s: State, id: nat, now: int) {
    && id in s.mapInfo && p.valid(s.mapInfo[id].addr)
    && SlotOf(p, s, id) in s.triedTable && s.triedTable[SlotOf(p, s, id)] in s.mapInfo
    && var rival := s.mapInfo[s.triedTable[SlotOf(p, s, id)]];
       && now - rival.lastSuccess >= 4 * HOUR
       && (now - rival.lastTry <= MINUTE
           || (now - rival.lastTry >= 4 * HOUR && now - s.mapInfo[id].lastSuccess <= 40 * MINUTE))
  }

  /** No other entry waits for the same slot. */
  ghost predicate Alone(p: Params, s: State, id: nat) {
    && id in s.mapInfo
    && forall x :: x in s.collisions && x != id && x in s.mapInfo ==> SlotOf(p, s, x) != SlotOf(p, s, id)
  }

  /** The slot has the entry it had, with the same record. */
  ghost predicate Calm(s: State, t: State, slot: Slot) {
    && slot in s.triedTable && s.triedTable[slot] in s.mapInfo && slot in t.triedTable
    && t.triedTable[slot] == s.triedTable[slot] && t.triedTable[slot] in t.mapInfo
    && SameRecord(s.mapInfo[s.triedTable[slot]], t.mapInfo[t.triedTable[slot]])
  }

  lemma {:induction false} CalmNext(p: Params, s: State, t: State, u: State, id: nat, now: int, slot: Slot)
    requires Calm(s, t, slot) && Resolved(p, t, u, id, now) && Inv(p, t) && Inv(p, u)
    requires id in t.mapInfo ==> slot != TriedSlot(p, t.mapInfo[id].addr)
    ensures Calm(s, u, slot)
  {
    assert TriedEntryOk(p, t, slot);
    OtherSlot(p, t, u, id, now, slot);
    assert TriedEntryOk(p, u, slot);
    OtherKept(p, t, u, id, now, t.triedTable[slot]);
  }

  lemma {:induction false} PendingWaits(p: Params, s: State, t: State, id: nat, now: int)
    requires Pending(p, s, id, now) && Untouched(s, t, id) && Calm(s, t, SlotOf(p, s, id)) && id in t.mapInfo
    ensures Judge(p, t, id, now) == Wait
  {
  }

  /** A collision that is pending, and the only one for its slot, waits on, unless its entry is gone. */
  lemma {:induction false} PendingAt(p: Params, states: seq<State>, ids: seq<nat>, now: int, n: nat, i: nat)
    requires Resolution(p, states, ids, now) && i < |ids| && n <= |ids|
    requires Pending(p, states[0], ids[i], now) && Alone(p, states[0], ids[i])
    ensures Calm(states[0], states[n], SlotOf(p, states[0], ids[i]))
    ensures ids[i] in states[n].mapInfo ==> ids[i] in states[n].collisions
  {
    if n == 0 {
      assert ids[i] in Elements(ids);
    } else {
      var s, t, u, id, x := states[0], states[n - 1], states[n], ids[n - 1], ids[i];
      PendingAt(p, states, ids, now, n - 1, i);
      NotYet(p, states, ids, now, n - 1, n - 1);
      assert ResolvedAt(p, states, ids, now, n - 1);
      if id != x {
        assert id in Elements(ids);
        CalmNext(p, s, t, u, id, now, SlotOf(p, s, x));
        OtherKept(p, t, u, id, now, x);
      } else if x in t.mapInfo {
        PendingWaits(p, s, t, x, now);
      }
    }
  }

  /** What resolving all collisions comes to. */
  ghost predicate FairlyResolved(p: Params, s: State, t: State, now: int) {
    && FairlyEvicted(s, t, now)
    && (forall id :: id in s.collisions && Due(p, s, id, now) ==> id !in t.collisions)
    && (forall id :: id in s.collisions && Pending(p, s, id, now) && Alone(p, s, id) && id in t.mapInfo ==>
        id in t.collisions)
  }

  lemma {:induction false} AllFair(p: Params, states: seq<State>, ids: seq<nat>, now: int)
    requires Resolution(p, states, ids, now)
    ensures FairlyResolved(p, states[0], states[|ids|], now)
  {
    var s, t, n := states[0], states[|ids|], |ids|;
    forall slot | slot in s.triedTable ensures FairlyHeld(s, t, slot, now) {
      HeldAt(p, states, ids, now, n, slot);
    }
    forall id | id in s.collisions && Due(p, s, id, now) ensures id !in t.collisions {
      var i := PlaceOf(ids, s.collisions, id);
      DueAt(p, states, ids, now, n, i);
    }
    forall id | id in s.collisions && Pending(p, s, id, now) && Alone(p, s, id) && id in t.mapInfo
      ensures id in t.collisions
    {
      var i := PlaceOf(ids, s.collisions, id);
      PendingAt(p, states, ids, now, n, i);
    }
  }

  lemma {:induction false} PlaceOf(ids: seq<nat>, all: set<nat>, id: nat) returns (i: nat)
    requires Listing(ids, all, {}) && id in all
    ensures i < |ids| && ids[i] == id
  {
    assert id in Elements(ids);
    i :| i < |ids| && ids[i] == id;
  }

  /** The entry of the tried table that id would evict. */
  ghost predicate IsRival(p: Params, s: State, id: nat, info: Info) {
    && id in s.mapInfo
    && var slot := TriedSlot(p, s.mapInfo[id].addr);
       slot in s.triedTable && s.triedTable[slot] in s.mapInfo && s.mapInfo[s.triedTable[slot]] == info && info.inTried
  }
}
