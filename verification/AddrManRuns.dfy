/** Runs of the address manager. */
module AddrManRuns {
  import opened AddrManStates
  import opened AddrManRecords
  import opened AddrManCollisions
  import opened AddrManChecks
  import opened AddrMans

  datatype Op =
    | Add(addrs: seq<Heard>)
    | Good(addr: nat, testBeforeEvict: bool, time: int)
    | Attempt(addr: nat, countFailure: bool, time: int)
    | Connected(addr: nat, time: int)
    | SetServices(addr: nat, services: set<nat>)
    | ResolveCollisions(now: int)
    | SelectTriedCollision
    | GetAddr(maxAddresses: nat, maxPct: nat, query: Query)

  /** Times are after the epoch. */
  predicate Timely(op: Op) {
    match op
    case Good(_, _, time) => time > 0
    case Attempt(_, _, time) => time >= 0
    case ResolveCollisions(now) => now > 0
    case _ => true
  }

  /** The slot keeps its entry, unless that has to give way when collisions are resolved, or a success is not to
      wait. */
  ghost predicate KeepsOrEvicts(op: Op, s: State, t: State, slot: Slot) {
    && slot in s.triedTable && s.triedTable[slot] in s.mapInfo && slot in t.triedTable
    && (t.triedTable[slot] != s.triedTable[slot] ==>
        || (op.Good? && !op.testBeforeEvict)
        || (op.ResolveCollisions? && t.triedTable[slot] in s.mapInfo
            && GivesWayTo(s.mapInfo[s.triedTable[slot]], s.mapInfo[t.triedTable[slot]], op.now)))
  }

  ghost predicate Evictions(op: Op, s: State, t: State) {
    forall slot {:trigger KeepsOrEvicts(op, s, t, slot)} :: slot in s.triedTable ==> KeepsOrEvicts(op, s, t, slot)
  }

  /** Resolving collisions is fair. */
  ghost predicate Collided(p: Params, op: Op, s: State, t: State) {
    op.ResolveCollisions? ==> FairlyResolved(p, s, t, op.now)
  }

  lemma {:induction false} NoEvictions(p: Params, op: Op, s: State, t: State)
    requires Inv(p, s) && t.triedTable == s.triedTable
    ensures Evictions(op, s, t)
  {
    forall slot | slot in s.triedTable ensures KeepsOrEvicts(op, s, t, slot) {
      assert TriedEntryOk(p, s, slot);
    }
  }

  lemma {:induction false} GoodEvictions(p: Params, op: Op, s: State, t: State)
    requires op.Good? && Inv(p, s) && GoodFor(p, s, t, op.addr, op.testBeforeEvict, op.time)
    ensures Evictions(op, s, t)
  {
    forall slot | slot in s.triedTable ensures KeepsOrEvicts(op, s, t, slot) {
      assert TriedEntryOk(p, s, slot);
      assert Knows(s, op.addr) ==> AddrOk(s, op.addr);
    }
  }

  lemma {:induction false} ResolveEvictions(p: Params, op: Op, s: State, t: State)
    requires op.ResolveCollisions? && FairlyResolved(p, s, t, op.now)
    ensures Evictions(op, s, t)
  {
    forall slot | slot in s.triedTable ensures KeepsOrEvicts(op, s, t, slot) {
      assert FairlyHeld(s, t, slot, op.now);
    }
  }

  method Perform(m: AddrMan, op: Op)
    requires m.Valid() && Timely(op)
    modifies m
    ensures m.Valid() && Grows(old(m.View()), m.View()) && Evictions(op, old(m.View()), m.View())
    ensures Collided(m.p, op, old(m.View()), m.View())
  {
    ghost var s := m.View();
    match op
    case Good(addr, test, time) =>
      var moved := m.Good(addr, test, time);
      GoodEvictions(m.p, op, s, m.View());
    case ResolveCollisions(now) =>
      var _, _ := m.ResolveCollisions(now);
      ResolveEvictions(m.p, op, s, m.View());
    case _ =>
      PerformOther(m, op);
      NoEvictions(m.p, op, s, m.View());
  }

  method PerformOther(m: AddrMan, op: Op)
    requires m.Valid() && Timely(op) && !op.Good? && !op.ResolveCollisions?
    modifies m
    ensures m.Valid() && Grows(old(m.View()), m.View()) && m.triedTable == old(m.triedTable)
  {
    match op
    case Add(addrs) => var added, _ := m.Add(addrs);
    case Attempt(addr, countFailure, time) => m.Attempt(addr, countFailure, time);
    case Connected(addr, time) => m.Connected(addr, time);
    case SetServices(addr, services) => m.SetServices(addr, services);
    case SelectTriedCollision => var r := m.SelectTriedCollision();
    case GetAddr(maxAddresses, maxPct, query) => var r := m.GetAddr(maxAddresses, maxPct, query);
  }

  /** An operation and the check. */
  method Step(m: AddrMan, op: Op) returns (code: int)
    requires m.Valid() && Timely(op) && !m.p.keyIsNull
    modifies m
    ensures m.Valid() && Grows(old(m.View()), m.View()) && Evictions(op, old(m.View()), m.View()) && code == 0
    ensures Collided(m.p, op, old(m.View()), m.View())
  {
    Perform(m, op);
    InvPasses(m.p, m.View());
    code := CheckAddrman(m.p, m.View());
  }

  /** Each state agrees, and in the next one no id has been given out again, no slot of the tried table has been
      emptied, and only some entries have been evicted. */
  ghost predicate IsRun(p: Params, ops: seq<Op>, states: seq<State>) {
    && |states| == |ops| + 1 && (forall i :: 0 <= i < |states| ==> Inv(p, states[i]))
    && (forall i {:trigger Follows(p, ops, states, i)} :: 0 <= i < |ops| ==> Follows(p, ops, states, i))
  }

  ghost predicate Follows(p: Params, ops: seq<Op>, states: seq<State>, i: nat) {
    && i < |ops| && i + 1 < |states| && Grows(states[i], states[i + 1])
    && Evictions(ops[i], states[i], states[i + 1]) && Collided(p, ops[i], states[i], states[i + 1])
  }

  lemma {:induction false} NextState(p: Params, ops: seq<Op>, states: seq<State>, op: Op, t: State)
    requires IsRun(p, ops, states) && Inv(p, t) && Grows(states[|ops|], t) && Evictions(op, states[|ops|], t)
    requires Collided(p, op, states[|ops|], t)
    ensures IsRun(p, ops + [op], states + [t])
  {
    forall i | 0 <= i < |ops| + 1 ensures Follows(p, ops + [op], states + [t], i) {
      assert i < |ops| ==> Follows(p, ops, states, i);
    }
  }

  /** Any operations, one after another, each followed by the check, which never finds anything wrong. */
  method Run(p: Params, ops: seq<Op>) returns (m: AddrMan, codes: seq<int>, ghost states: seq<State>)
    requires !p.keyIsNull && forall i :: 0 <= i < |ops| ==> Timely(ops[i])
    ensures fresh(m) && m.p == p && IsRun(p, ops, states) && m.View() == states[|ops|]
    ensures |codes| == |ops| && forall i :: 0 <= i < |ops| ==> codes[i] == 0
  {
    m := new AddrMan(p);
    codes, states := [], [m.View()];
    for n := 0 to |ops|
      invariant fresh(m) && m.p == p && IsRun(p, ops[..n], states) && m.View() == states[n]
      invariant |codes| == n && forall i :: 0 <= i < n ==> codes[i] == 0
    {
      var code := Step(m, ops[n]);
      NextState(p, ops[..n], states, ops[n], m.View());
      assert ops[..n] + [ops[n]] == ops[..n + 1];
      codes, states := codes + [code], states + [m.View()];
    }
    assert ops[..|ops|] == ops;
  }

  /** At no point of a run is an entry waiting for a slot of the tried table that is empty: what
      SelectTriedCollision looks up is there. */
  lemma {:induction false} NeverLooksUpNothing(p: Params, ops: seq<Op>, states: seq<State>, i: nat, id: nat)
    requires IsRun(p, ops, states) && i < |states| && id in states[i].collisions && id in states[i].mapInfo
    ensures var slot := TriedSlot(p, states[i].mapInfo[id].addr);
            slot in states[i].triedTable && states[i].triedTable[slot] in states[i].mapInfo
                && states[i].mapInfo[states[i].triedTable[slot]].inTried
  {
    var s := states[i];
    assert Waits(p, s, id);
    assert TriedEntryOk(p, s, TriedSlot(p, s.mapInfo[id].addr));
  }

  /** A slot of the tried table that is taken at one point of a run is taken at every later one. */
  lemma {:induction false} StaysTaken(p: Params, ops: seq<Op>, states: seq<State>, i: nat, j: nat, slot: Slot)
    requires IsRun(p, ops, states) && i <= j < |states| && slot in states[i].triedTable
    ensures slot in states[j].triedTable
    decreases j
  {
    if i < j {
      StaysTaken(p, ops, states, i, j - 1, slot);
      assert Follows(p, ops, states, j - 1);
    }
  }

  /** The entry in a slot at i is still there at k, and has to give way to another when collisions are resolved. */
  ghost predicate EvictedAt(ops: seq<Op>, states: seq<State>, i: nat, k: nat, slot: Slot) {
    && i <= k < |ops| && |states| == |ops| + 1 && ops[k].ResolveCollisions? && slot in states[i].triedTable
    && slot in states[k].triedTable && states[k].triedTable[slot] == states[i].triedTable[slot]
    && slot in states[k + 1].triedTable
    && var s, was, next := states[k], states[k].triedTable[slot], states[k + 1].triedTable[slot];
       was in s.mapInfo && next in s.mapInfo && GivesWayTo(s.mapInfo[was], s.mapInfo[next], ops[k].now)
  }

  /** If successes wait for entries to be tested, an entry only ever leaves its slot of the tried table when
      collisions are resolved while it has had no success in four hours and no attempt in a minute, and either has
      been tried in the last four hours or the entry that takes its slot has had no success in forty minutes. */
  lemma {:induction false} OnlyStaleEntriesLeave(p: Params, ops: seq<Op>, states: seq<State>, i: nat, j: nat,
                                                 slot: Slot)
    requires IsRun(p, ops, states) && i <= j < |states| && slot in states[i].triedTable
    requires forall k :: i <= k < j && ops[k].Good? ==> ops[k].testBeforeEvict
    ensures slot in states[j].triedTable
    ensures states[j].triedTable[slot] != states[i].triedTable[slot] ==> exists k :: EvictedAt(ops, states, i, k, slot)
    decreases j
  {
    if i < j {
      OnlyStaleEntriesLeave(p, ops, states, i, j - 1, slot);
      assert Follows(p, ops, states, j - 1);
      assert KeepsOrEvicts(ops[j - 1], states[j - 1], states[j], slot);
      if states[j - 1].triedTable[slot] == states[i].triedTable[slot] != states[j].triedTable[slot] {
        assert EvictedAt(ops, states, i, j - 1, slot);
      }
    }
  }

  /** Whenever in a run collisions are resolved, an entry waits no longer if its rival has succeeded in the last four
      hours, or if it has itself had no success in forty minutes and its rival has not been tried in the last minute;
      and it waits on if it is the only one for its slot, valid and not gone, and its rival has had no success in four
      hours and has either been tried in the last minute or neither in four hours nor had forty minutes to be. */
  lemma {:induction false} WaitsAsLongAsItShould(p: Params, ops: seq<Op>, states: seq<State>, k: nat, id: nat)
    requires IsRun(p, ops, states) && k < |ops| && ops[k].ResolveCollisions? && id in states[k].collisions
    ensures Due(p, states[k], id, ops[k].now) ==> id !in states[k + 1].collisions
    ensures Pending(p, states[k], id, ops[k].now) && Alone(p, states[k], id) && id in states[k + 1].mapInfo ==>
      id in states[k + 1].collisions
  {
    assert Follows(p, ops, states, k);
  }
}
