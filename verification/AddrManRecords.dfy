/** What the address manager records of addresses, and what it decides by that. */
module AddrManRecords {
  import opened Sets
  import opened AddrManStates
  import opened AddrManSteps
  import opened AddrManTables

  const MINUTE := 60
  const HOUR := 60 * MINUTE
  const DAY := 24 * HOUR
  const COLLISIONS_MAX := 10

  /** An entry whose record is bad enough to be replaced. */
  predicate IsTerrible(info: Info, now: int) {
    && now - info.lastTry > MINUTE
    && (info.time > now + 10 * MINUTE || now - info.time > 30 * DAY || (info.lastSuccess == 0 && info.attempts >= 3)
        || (now - info.lastSuccess > 7 * DAY && info.attempts >= 10))
  }

  function Max(a: int, b: int): int {
    if a < b then b else a
  }

  predicate Knows(s: State, addr: nat) {
    addr in s.mapAddr && s.mapAddr[addr] in s.mapInfo
  }

  function InfoOf(s: State, addr: nat): Info
    requires Knows(s, addr)
  {
    s.mapInfo[s.mapAddr[addr]]
  }

  /** s with another record of an address. */
  function Recorded(s: State, addr: nat, info: Info): State
    requires Knows(s, addr)
  {
    s.(mapInfo := s.mapInfo[s.mapAddr[addr] := info])
  }

  // ---- what is heard of an address ----

  datatype Heard = Heard(addr: nat, time: int, services: set<nat>, source: nat, penalty: int, now: int, lucky: bool)

  /** A source is not charged for announcing itself. */
  function Charge(p: Params, h: Heard): int {
    if p.host(h.addr) == h.source then 0 else h.penalty
  }

  function Renewed(info: Info, h: Heard, charge: int): Info {
    var interval := if h.now - h.time < DAY then HOUR else DAY;
    info.(time := if info.time < h.time - interval - charge then Max(0, h.time - charge) else info.time,
    services := info.services + h.services)
  }

  predicate IsNews(info: Info, h: Heard) {
    h.time > info.time && !info.inTried && info.refCount != PER_ADDRESS && (info.refCount > 0 ==> h.lucky)
  }

  /** What is recorded of the address then. */
  function Told(p: Params, s: State, h: Heard): Info {
    if Knows(s, h.addr) then Renewed(InfoOf(s, h.addr), h, Charge(p, h))
    else Info(h.addr, h.source, Max(0, h.time - Charge(p, h)), h.services, 0, 0, 0, 0, 0, false, 0)
  }

  predicate Replaceable(existing: Info, refs: int, now: int) {
    IsTerrible(existing, now) || (existing.refCount > 1 && refs == 0)
  }

  /** The slot is free, or has the entry of another address that is to be replaced. */
  predicate GivesWay(p: Params, s: State, h: Heard) {
    var slot := SourceSlot(p, h.addr, h.source);
    slot in s.newTable ==>
      && s.newTable[slot] in s.mapInfo && s.mapInfo[s.newTable[slot]].addr != h.addr
      && Replaceable(s.mapInfo[s.newTable[slot]], Told(p, s, h).refCount, h.now)
  }

  predicate Accepted(p: Params, s: State, h: Heard) {
    p.routable(h.addr) && (Knows(s, h.addr) ==> IsNews(Told(p, s, h), h)) && GivesWay(p, s, h)
  }

  /** What hearing of an address does: if it is accepted, its entry is in the slot that its source leads to, and at
      most the entry there has gone; otherwise no entry comes or goes. */
  ghost predicate HeardOf(p: Params, s: State, t: State, h: Heard) {
    && t.triedTable == s.triedTable && SameRest(s, t) && OthersKept(s, t, h.addr)
    && if Accepted(p, s, h) then AcceptedAs(p, s, t, h) else RefusedAs(p, s, t, h)
  }

  ghost predicate OthersKept(s: State, t: State, addr: nat) {
    forall k :: k in t.mapInfo && t.mapInfo[k].addr != addr ==> k in s.mapInfo && SameRecord(s.mapInfo[k], t.mapInfo[k])
  }

  ghost predicate AcceptedAs(p: Params, s: State, t: State, h: Heard) {
    var slot := SourceSlot(p, h.addr, h.source);
    && Knows(t, h.addr) && t.newTable == s.newTable[slot := t.mapAddr[h.addr]]
    && SameRecord(Told(p, s, h), InfoOf(t, h.addr))
    && (forall k :: k in s.mapInfo && !Holds(s, slot, k) ==> k in t.mapInfo)
  }

  ghost predicate RefusedAs(p: Params, s: State, t: State, h: Heard) {
    && t.newTable == s.newTable && t.mapAddr == s.mapAddr
    && (Knows(s, h.addr) ==> t == if p.routable(h.addr) then Recorded(s, h.addr, Told(p, s, h)) else s)
  }

  /** The address has an entry that is recorded as told; all others are as before. */
  ghost predicate Met(p: Params, s: State, t: State, id: nat, h: Heard) {
    && id in t.mapInfo && SameRecord(Told(p, s, h), t.mapInfo[id]) && t.mapInfo[id].refCount == Told(p, s, h).refCount
    && (forall k :: k in s.mapInfo ==> k in t.mapInfo)
    && (forall k :: k in t.mapInfo && k != id ==> k in s.mapInfo && t.mapInfo[k] == s.mapInfo[k])
    && (if Knows(s, h.addr) then id == s.mapAddr[h.addr]
        && t == Recorded(s, h.addr, Told(p, s, h)) else id == s.idCount)
    && t.newTable == s.newTable
  }

  /** What happens to an entry that is to be inserted in a slot. */
  predicate Inserts(s: State, slot: Slot, id: nat, now: int) {
    && id in s.mapInfo
    && (slot in s.newTable ==>
        && s.newTable[slot] != id && s.newTable[slot] in s.mapInfo
        && Replaceable(s.mapInfo[s.newTable[slot]], s.mapInfo[id].refCount, now))
  }

  lemma {:induction false} SameDecision(p: Params, s: State, t: State, id: nat, h: Heard)
    requires Agrees(p, s, {}, {}) && Met(p, s, t, id, h)
    ensures Inserts(t, SourceSlot(p, h.addr, h.source), id, h.now) <==> GivesWay(p, s, h)
  {
    var slot := SourceSlot(p, h.addr, h.source);
    if slot in s.newTable {
      assert NewEntryOk(p, s, slot) && Listed(s, s.newTable[slot]);
      assert h.addr in s.mapAddr ==> AddrOk(s, h.addr);
    }
  }

  lemma {:induction false} IsAccepted(p: Params, s: State, t: State, u: State, id: nat, h: Heard)
    requires Met(p, s, t, id, h) && Known(s, t, id, h.addr) && Accepted(p, s, h) && Directory(u)
    requires Inserted(t, u, id, SourceSlot(p, h.addr, h.source))
    ensures HeardOf(p, s, u, h)
  {
    var slot := SourceSlot(p, h.addr, h.source);
    assert Listed(u, id) && SameRecord(t.mapInfo[id], u.mapInfo[id]);
    forall k | k in u.mapInfo && u.mapInfo[k].addr != h.addr
      ensures k in s.mapInfo && SameRecord(s.mapInfo[k], u.mapInfo[k])
    {
      assert k in t.mapInfo && SameRecord(t.mapInfo[k], u.mapInfo[k]);
    }
    forall k | k in s.mapInfo && !Holds(s, slot, k) ensures k in u.mapInfo {
      assert !Holds(t, slot, k);
    }
  }

  lemma {:induction false} IsRefused(p: Params, s: State, t: State, u: State, id: nat, h: Heard)
    requires Met(p, s, t, id, h) && Known(s, t, id, h.addr) && !Accepted(p, s, h) && p.routable(h.addr)
    requires Refused(t, u, id) && u.mapAddr == s.mapAddr && (Knows(s, h.addr) ==> t.mapInfo[id].refCount != 0)
    ensures HeardOf(p, s, u, h)
  {
    forall k | k in u.mapInfo && u.mapInfo[k].addr != h.addr
      ensures k in s.mapInfo && SameRecord(s.mapInfo[k], u.mapInfo[k])
    {
      assert k in t.mapInfo && SameRecord(t.mapInfo[k], u.mapInfo[k]);
    }
  }

  lemma {:induction false} IsOldNews(p: Params, s: State, t: State, h: Heard)
    requires !Accepted(p, s, h) && (p.routable(h.addr) ==> Knows(s, h.addr)) && (Knows(s, h.addr) ==> AddrOk(s, h.addr))
    requires t == if p.routable(h.addr) then Recorded(s, h.addr, Told(p, s, h)) else s
    ensures HeardOf(p, s, t, h)
  {
    forall k | k in t.mapInfo && t.mapInfo[k].addr != h.addr
      ensures k in s.mapInfo && SameRecord(s.mapInfo[k], t.mapInfo[k])
    {
      assert t.mapInfo[k] == s.mapInfo[k];
    }
  }

  /** One state after another, as addresses are heard of. */
  ghost predicate AllHeard(p: Params, states: seq<State>, addrs: seq<Heard>) {
    && |states| == |addrs| + 1
    && forall i {:trigger HeardAt(p, states, addrs, i)} :: 0 <= i < |addrs| ==> HeardAt(p, states, addrs, i)
  }

  ghost predicate HeardAt(p: Params, states: seq<State>, addrs: seq<Heard>, i: nat) {
    |states| == |addrs| + 1 && i < |addrs| && HeardOf(p, states[i], states[i + 1], addrs[i])
  }

  lemma {:induction false} HeardNext(p: Params, states: seq<State>, addrs: seq<Heard>, t: State, h: Heard)
    requires AllHeard(p, states, addrs) && HeardOf(p, states[|addrs|], t, h)
    ensures AllHeard(p, states + [t], addrs + [h])
  {
    forall i | 0 <= i < |addrs| + 1 ensures HeardAt(p, states + [t], addrs + [h], i) {
      assert i < |addrs| ==> HeardAt(p, states, addrs, i);
    }
  }

  // ---- connections ----

  function Attempted(s: State, addr: nat, countFailure: bool, time: int): State {
    if !Knows(s, addr) then s
    else if countFailure && InfoOf(s, addr).lastCountAttempt < s.lastGood
    then Recorded(s, addr, InfoOf(s, addr).(lastTry := time, lastCountAttempt := time,
    attempts := InfoOf(s, addr).attempts + 1))
    else Recorded(s, addr, InfoOf(s, addr).(lastTry := time))
  }

  function Succeeded(s: State, addr: nat, time: int): State {
    var t := s.(lastGood := time);
    if Knows(t, addr) then Recorded(t, addr, InfoOf(t, addr).(lastSuccess := time, lastTry := time, attempts := 0))
        else t
  }

  predicate IsNew(s: State, addr: nat) {
    Knows(s, addr) && !InfoOf(s, addr).inTried
  }

  predicate CanMove(p: Params, s: State, addr: nat, testBeforeEvict: bool) {
    IsNew(s, addr) && (testBeforeEvict ==> TriedSlot(p, addr) !in s.triedTable)
  }

  /** What a success does: an entry that is not in the tried table moves there, unless that has to wait. */
  ghost predicate GoodFor(p: Params, s: State, t: State, addr: nat, testBeforeEvict: bool, time: int) {
    var n := Succeeded(s, addr, time);
    if CanMove(p, s, addr, testBeforeEvict) then MadeTried(p, n, t, s.mapAddr[addr])
    else t == n.(collisions := if IsNew(s, addr)
                 && |s.collisions| < COLLISIONS_MAX then s.collisions + {s.mapAddr[addr]}
    else s.collisions)
  }

  /** The entry has succeeded: that is when it was last tried, and no failure is counted since; the rest of its record
      is as before. */
  ghost predicate SucceededAt(s: State, t: State, id: nat, time: int) {
    && id in s.mapInfo && id in t.mapInfo
    && var i, j := s.mapInfo[id], t.mapInfo[id];
       && j.lastSuccess == time && j.lastTry == time && j.attempts == 0
       && j.addr == i.addr && j.source == i.source && j.time == i.time && j.services == i.services
       && j.lastCountAttempt == i.lastCountAttempt
  }

  /** The entry was tried; a failure is counted if none has been since the last success of any. */
  ghost predicate AttemptedAt(s: State, t: State, id: nat, countFailure: bool, time: int) {
    && id in s.mapInfo && id in t.mapInfo
    && var i, j, counted := s.mapInfo[id], t.mapInfo[id], countFailure && s.mapInfo[id].lastCountAttempt < s.lastGood;
       && j.lastTry == time && j.attempts == i.attempts + (if counted then 1 else 0)
       && j.lastCountAttempt == (if counted then time else i.lastCountAttempt)
       && j.lastSuccess == i.lastSuccess && j.time == i.time && j.services == i.services
  }

  // ---- what the rules come to ----

  /** Hearing of an address never makes it older, nor newer than it is said to be; what is recorded lags by no more than
      an hour, or a day if the address was last seen more than a day ago; and services are only added. */
  lemma {:induction false} TimesTold(p: Params, s: State, h: Heard)
    requires Knows(s, h.addr)
    ensures var was, told, said := InfoOf(s, h.addr).time, Told(p, s, h).time, h.time - Charge(p, h);
            && told >= was && (told == was || told == said || told == 0)
            && said - told <= (if h.now - h.time < 86400 then 3600 else 86400)
            && (said - was <= (if h.now - h.time < 86400 then 3600 else 86400) ==> told == was)
    ensures Told(p, s, h).services == InfoOf(s, h.addr).services + h.services
  {
  }

  /** An entry is terrible if it was not tried in the last minute and was last seen more than ten minutes in the future
      or thirty days in the past, has failed three times without ever succeeding, or ten times and not succeeded in a
      week; and in no other case. */
  lemma {:induction false} TerribleExactly(info: Info, now: int)
    ensures now - info.lastTry <= 60 ==> !IsTerrible(info, now)
    ensures now - info.lastTry > 60 && info.time - now > 600 ==> IsTerrible(info, now)
    ensures now - info.lastTry > 60 && now - info.time > 2592000 ==> IsTerrible(info, now)
    ensures now - info.lastTry > 60 && info.lastSuccess == 0 && info.attempts >= 3 ==> IsTerrible(info, now)
    ensures now - info.lastTry > 60 && now - info.lastSuccess > 604800 && info.attempts >= 10 ==> IsTerrible(info, now)
    ensures now - 2592000 <= info.time <= now + 600 && info.attempts < 3 ==> !IsTerrible(info, now)
    ensures now - 2592000 <= info.time <= now + 600 && info.lastSuccess != 0 && info.attempts < 10 ==>
      !IsTerrible(info, now)
    ensures now - 2592000 <= info.time <= now + 600 && info.lastSuccess != 0 && now - info.lastSuccess <= 604800 ==>
      !IsTerrible(info, now)
  {
  }

  /** A routable address that is not known gets the slot its source leads to if that is free; one that is known gets
      another only if it is seen later than recorded, not in the tried table, and referred to from fewer than eight. */
  lemma {:induction false} WhoGetsASlot(p: Params, s: State, t: State, h: Heard)
    requires Inv(p, s) && Inv(p, t) && HeardOf(p, s, t, h)
    ensures var slot := SourceSlot(p, h.addr, h.source);
            && (p.routable(h.addr) && !Knows(s, h.addr) && slot !in s.newTable ==>
                Knows(t, h.addr) && slot in t.newTable && t.newTable[slot] == t.mapAddr[h.addr])
            && (Knows(s, h.addr) && t.newTable != s.newTable ==>
                h.time > InfoOf(s, h.addr).time && !InfoOf(s, h.addr).inTried && InfoOf(s, h.addr).refCount < 8)
            && (!p.routable(h.addr) ==> t.mapAddr == s.mapAddr && t.newTable == s.newTable)
  {
    if Knows(s, h.addr) {
      assert InfoAt(s, {}, s.mapAddr[h.addr]);
    }
  }

  /** Hearing of an address deletes no entry but a terrible one. */
  lemma {:induction false} OnlyTerribleDeleted(p: Params, s: State, t: State, h: Heard, k: nat)
    requires Inv(p, s) && Inv(p, t) && HeardOf(p, s, t, h) && k in s.mapInfo && !IsTerrible(s.mapInfo[k], h.now)
    ensures k in t.mapInfo
  {
    var slot := SourceSlot(p, h.addr, h.source);
    assert Listed(s, k);
    if !Accepted(p, s, h) {
      assert AddrOk(t, s.mapInfo[k].addr);
    } else if Holds(s, slot, k) {
      var other := AnotherSlot(p, s, k, slot);
      assert t.newTable[other] == k;
      assert NewEntryOk(p, t, other);
    }
  }

  lemma {:induction false} AnotherSlot(p: Params, s: State, k: nat, slot: Slot) returns (other: Slot)
    requires NewOk(p, s) && k in s.mapInfo && s.mapInfo[k].refCount > 1
    ensures other in s.newTable && s.newTable[other] == k && other != slot
  {
    assert RefsOk(s, k);
    var refs := Refs(s.newTable, k);
    if refs <= {slot} {
      Subset(refs, {slot});
    }
    other :| other in refs && other != slot;
  }
}
