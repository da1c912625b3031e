/** The address manager's check of itself. */
module AddrManChecks {
  import opened Options
  import opened Sets
  import opened AddrManStates
  import opened AddrManSteps
  import opened AddrManMoves

  // ---- what is checked ----

  /** The code for an entry, zero if nothing is wrong. */
  function EntryCode(s: State, id: nat): int
    requires id in s.mapInfo
  {
    var info := s.mapInfo[id];
    if info.inTried && info.lastSuccess == 0 then -1
    else if info.inTried && info.refCount != 0 then -2
    else if !info.inTried && (info.refCount < 0 || info.refCount > PER_ADDRESS) then -3
    else if !info.inTried && info.refCount == 0 then -4
    else if info.addr !in s.mapAddr || s.mapAddr[info.addr] != id then -5
    else if info.randomPos < 0 || info.randomPos >= |s.random| || s.random[info.randomPos] != id then -14
    else if info.lastTry < 0 then -6
    else if info.lastSuccess < 0 then -8
    else 0
  }

  ghost predicate EntriesPass(s: State) {
    forall id :: id in s.mapInfo ==> EntryCode(s, id) == 0
  }

  ghost predicate TriedPass(p: Params, s: State) {
    && (forall slot :: slot in s.triedTable ==> TriedEntryOk(p, s, slot))
    && (forall id :: id in s.mapInfo && s.mapInfo[id].inTried ==>
        exists slot :: slot in s.triedTable && s.triedTable[slot] == id)
  }

  ghost predicate NewPass(p: Params, s: State) {
    && (forall slot :: slot in s.newTable ==> NewEntryOk(p, s, slot))
    && (forall id :: id in s.mapInfo && !s.mapInfo[id].inTried ==> s.mapInfo[id].refCount == |Refs(s.newTable, id)|)
  }

  /** The networks of the entries that are not out. */
  ghost function Nets(p: Params, s: State, out: set<nat>): set<nat> {
    set id | id in s.mapInfo && id !in out :: p.network(s.mapInfo[id].addr)
  }

  ghost predicate CountsPass(p: Params, s: State) {
    && |s.counts| >= |Nets(p, s, {})|
    && forall net :: net in s.counts ==> CountOk(p, s, {}, true, Some(net)) && CountOk(p, s, {}, false, Some(net))
  }

  ghost predicate Passes(p: Params, s: State) {
    && |s.random| == s.nTried + s.nNew && EntriesPass(s)
    && CountOk(p, s, {}, true, None) && CountOk(p, s, {}, false, None)
    && TriedPass(p, s) && NewPass(p, s) && !p.keyIsNull && CountsPass(p, s)
  }

  // ---- the entries ----

  ghost function RefCounts(s: State, out: set<nat>): map<nat, int> {
    map id | id in s.mapInfo && id !in out && !s.mapInfo[id].inTried :: s.mapInfo[id].refCount
  }

  ghost predicate Tallied(p: Params, s: State, out: set<nat>, local: map<nat, Tally>) {
    && local.Keys == Nets(p, s, out)
    && forall net {:trigger TalliedNet(p, s, out, local, net)} :: TalliedNet(p, s, out, local, net)
  }

  ghost predicate TalliedNet(p: Params, s: State, out: set<nat>, local: map<nat, Tally>, net: nat) {
    TallyOf(local, net) == Tally(|Counted(p, s, out, false, Some(net))|, |Counted(p, s, out, true, Some(net))|)
  }

  lemma {:induction false} CountedNext(p: Params, s: State, rest: set<nat>, id: nat, tried: bool, net: Option<nat>)
    requires id in rest && id in s.mapInfo
    ensures var joins := s.mapInfo[id].inTried == tried && InNet(p, s.mapInfo[id].addr, net);
            var a, b := Counted(p, s, rest, tried, net), Counted(p, s, rest - {id}, tried, net);
            b == (if joins then a + {id} else a) && |b| == |a| + if joins then 1 else 0
  {
    var a, b := Counted(p, s, rest, tried, net), Counted(p, s, rest - {id}, tried, net);
    var joins := s.mapInfo[id].inTried == tried && InNet(p, s.mapInfo[id].addr, net);
    assert b == if joins then a + {id} else a;
    if joins {
      OneMore(a, b, id);
    }
  }

  lemma {:induction false} TalliedNext(p: Params, s: State, rest: set<nat>, id: nat, local: map<nat, Tally>,
                                       next: map<nat, Tally>)
    requires Tallied(p, s, rest, local) && id in rest && id in s.mapInfo
    requires var tried := s.mapInfo[id].inTried;
             next == Bumped(local, p.network(s.mapInfo[id].addr), if tried then 0 else 1, if tried then 1 else 0)
    ensures Tallied(p, s, rest - {id}, next)
  {
    forall net ensures TalliedNet(p, s, rest - {id}, next, net) {
      assert TalliedNet(p, s, rest, local, net);
      CountedNext(p, s, rest, id, false, Some(net));
      CountedNext(p, s, rest, id, true, Some(net));
    }
    NetsNext(p, s, rest, id);
  }

  lemma {:induction false} NetsNext(p: Params, s: State, rest: set<nat>, id: nat)
    requires id in rest && id in s.mapInfo
    ensures Nets(p, s, rest - {id}) == Nets(p, s, rest) + {p.network(s.mapInfo[id].addr)}
  {
    var n := p.network(s.mapInfo[id].addr);
    assert n in Nets(p, s, rest - {id});
  }

  lemma {:induction false} NothingTallied(p: Params, s: State)
    ensures Tallied(p, s, s.mapInfo.Keys, map[]) && Counted(p, s, s.mapInfo.Keys, true, None) == {}
    ensures RefCounts(s, s.mapInfo.Keys) == map[]
  {
    forall net ensures TalliedNet(p, s, s.mapInfo.Keys, map[], net) {
      assert Counted(p, s, s.mapInfo.Keys, false, Some(net)) == {} == Counted(p, s, s.mapInfo.Keys, true, Some(net));
    }
  }

  /** The entries that are not in rest have been surveyed. */
  ghost predicate Surveyed(p: Params, s: State, rest: set<nat>, setTried: set<nat>, mapNew: map<nat, int>,
                           local: map<nat, Tally>) {
    setTried == Counted(p, s, rest, true, None) && mapNew == RefCounts(s, rest) && Tallied(p, s, rest, local)
  }

  lemma {:induction false} SurveyTried(p: Params, s: State, rest: set<nat>, id: nat, setTried: set<nat>,
                                       mapNew: map<nat, int>, local: map<nat, Tally>)
    requires Surveyed(p, s, rest, setTried, mapNew, local) && id in rest && id in s.mapInfo && s.mapInfo[id].inTried
    ensures Surveyed(p, s, rest - {id}, setTried + {id}, mapNew, Bumped(local, p.network(s.mapInfo[id].addr), 0, 1))
  {
    CountedNext(p, s, rest, id, true, None);
    TalliedNext(p, s, rest, id, local, Bumped(local, p.network(s.mapInfo[id].addr), 0, 1));
    assert RefCounts(s, rest - {id}) == RefCounts(s, rest);
  }

  lemma {:induction false} SurveyNew(p: Params, s: State, rest: set<nat>, id: nat, setTried: set<nat>,
                                     mapNew: map<nat, int>, local: map<nat, Tally>)
    requires Surveyed(p, s, rest, setTried, mapNew, local) && id in rest && id in s.mapInfo && !s.mapInfo[id].inTried
    ensures Surveyed(p, s, rest - {id}, setTried, mapNew[id := s.mapInfo[id].refCount],
                     Bumped(local, p.network(s.mapInfo[id].addr), 1, 0))
  {
    CountedNext(p, s, rest, id, true, None);
    TalliedNext(p, s, rest, id, local, Bumped(local, p.network(s.mapInfo[id].addr), 1, 0));
    RefCountsNext(s, rest, id);
  }

  lemma {:induction false} RefCountsNext(s: State, rest: set<nat>, id: nat)
    requires id in rest && id in s.mapInfo && !s.mapInfo[id].inTried
    ensures RefCounts(s, rest - {id}) == RefCounts(s, rest)[id := s.mapInfo[id].refCount]
  {
  }

  method CheckEntries(p: Params, s: State)
    returns (code: int, setTried: set<nat>, mapNew: map<nat, int>, local: map<nat, Tally>)
    ensures code == 0 <==> EntriesPass(s)
    ensures code == 0 ==> Surveyed(p, s, {}, setTried, mapNew, local)
  {
    setTried, mapNew, local := {}, map[], map[];
    var rest := s.mapInfo.Keys;
    NothingTallied(p, s);
    while rest != {}
      invariant rest <= s.mapInfo.Keys && forall id :: id in s.mapInfo && id !in rest ==> EntryCode(s, id) == 0
      invariant Surveyed(p, s, rest, setTried, mapNew, local)
    {
      var id := First(rest);
      var info := s.mapInfo[id];
      code := EntryCode(s, id);
      if code != 0 {
        return;
      }
      if info.inTried {
        SurveyTried(p, s, rest, id, setTried, mapNew, local);
        setTried := setTried + {id};
        local := Bumped(local, p.network(info.addr), 0, 1);
      } else {
        SurveyNew(p, s, rest, id, setTried, mapNew, local);
        mapNew := mapNew[id := info.refCount];
        local := Bumped(local, p.network(info.addr), 1, 0);
      }
      rest := rest - {id};
    }
    code := 0;
  }

  // ---- the tables ----

  /** The tables are arrays of these sizes. */
  ghost predicate InRange(s: State) {
    && (forall slot :: slot in s.triedTable ==> slot.bucket < TRIED_BUCKETS && slot.position < BUCKET_SIZE)
    && (forall slot :: slot in s.newTable ==> slot.bucket < NEW_BUCKETS && slot.position < BUCKET_SIZE)
  }

  /** The slots before position i of bucket n. */
  predicate Before(slot: Slot, n: nat, i: nat) {
    slot.bucket < n || (slot.bucket == n && slot.position < i)
  }

  /** The slots before are right, and the entries in them have been taken from setTried. */
  ghost predicate TriedSoFar(p: Params, s: State, n: nat, i: nat, setTried: set<nat>) {
    && (forall slot :: slot in s.triedTable && Before(slot, n, i) ==> TriedEntryOk(p, s, slot))
    && setTried == TriedLeft(s, n, i)
  }

  /** The tried entries that are in no slot before. */
  ghost function TriedLeft(s: State, n: nat, i: nat): set<nat> {
    set id | id in s.mapInfo && s.mapInfo[id].inTried && !InSlotBefore(s, id, n, i)
  }

  ghost predicate InSlotBefore(s: State, id: nat, n: nat, i: nat) {
    exists slot :: slot in s.triedTable && s.triedTable[slot] == id && Before(slot, n, i)
  }

  /** Whether the entry in a slot of the tried table is still expected, and belongs there. */
  function TriedCode(p: Params, s: State, slot: Slot, setTried: set<nat>): int
    requires slot in s.triedTable
  {
    var id := s.triedTable[slot];
    if id !in setTried then -11
    else if id !in s.mapInfo || TriedBucket(p, s.mapInfo[id].addr) != slot.bucket then -17
    else if Position(p, false, slot.bucket, s.mapInfo[id].addr) != slot.position then -18
    else 0
  }

  lemma {:induction false} TriedCodeIs(p: Params, s: State, n: nat, i: nat, setTried: set<nat>)
    requires TriedSoFar(p, s, n, i, setTried) && Slot(n, i) in s.triedTable
    ensures TriedCode(p, s, Slot(n, i), setTried) == 0 <==> TriedEntryOk(p, s, Slot(n, i))
  {
    var slot := Slot(n, i);
    var id := s.triedTable[slot];
    if TriedEntryOk(p, s, slot) {
      forall other | other in s.triedTable && Before(other, n, i) ensures s.triedTable[other] != id {
        assert TriedEntryOk(p, s, other);
      }
    }
  }

  lemma {:induction false} TriedNext(p: Params, s: State, n: nat, i: nat, setTried: set<nat>)
    requires TriedSoFar(p, s, n, i, setTried) && (Slot(n, i) in s.triedTable ==> TriedEntryOk(p, s, Slot(n, i)))
    ensures var slot := Slot(n, i);
            TriedSoFar(p, s, n, i + 1, if slot in s.triedTable then setTried - {s.triedTable[slot]} else setTried)
  {
    var slot := Slot(n, i);
    forall x | x in s.triedTable && Before(x, n, i + 1) ensures TriedEntryOk(p, s, x) {
      assert x == slot || Before(x, n, i);
    }
    forall id | id in s.mapInfo
      ensures InSlotBefore(s, id, n, i + 1) <==>
        InSlotBefore(s, id, n, i) || (slot in s.triedTable && s.triedTable[slot] == id)
    {
      if InSlotBefore(s, id, n, i + 1) {
        var x :| x in s.triedTable && s.triedTable[x] == id && Before(x, n, i + 1);
        assert x == slot || Before(x, n, i);
      }
      if slot in s.triedTable && s.triedTable[slot] == id {
        assert Before(slot, n, i + 1);
      }
    }
  }

  lemma {:induction false} TriedBucketDone(p: Params, s: State, n: nat, setTried: set<nat>)
    requires InRange(s) && TriedSoFar(p, s, n, BUCKET_SIZE, setTried)
    ensures TriedSoFar(p, s, n + 1, 0, setTried)
  {
    assert forall slot :: slot in s.triedTable ==> (Before(slot, n + 1, 0) <==> Before(slot, n, BUCKET_SIZE));
    assert forall id :: InSlotBefore(s, id, n + 1, 0) <==> InSlotBefore(s, id, n, BUCKET_SIZE);
  }

  method CheckTried(p: Params, s: State, tried: set<nat>) returns (code: int, setTried: set<nat>)
    requires InRange(s) && tried == Counted(p, s, {}, true, None)
    ensures code == 0 && setTried == {} <==> TriedPass(p, s)
  {
    setTried := tried;
    for n := 0 to TRIED_BUCKETS
      invariant TriedSoFar(p, s, n, 0, setTried)
    {
      for i := 0 to BUCKET_SIZE
        invariant TriedSoFar(p, s, n, i, setTried)
      {
        var slot := Slot(n, i);
        if slot in s.triedTable {
          code := TriedCode(p, s, slot, setTried);
          TriedCodeIs(p, s, n, i, setTried);
          if code != 0 {
            return;
          }
        }
        TriedNext(p, s, n, i, setTried);
        if slot in s.triedTable {
          setTried := setTried - {s.triedTable[slot]};
        }
      }
      TriedBucketDone(p, s, n, setTried);
    }
    TriedDone(p, s, setTried);
    code := 0;
  }

  lemma {:induction false} TriedDone(p: Params, s: State, setTried: set<nat>)
    requires InRange(s) && TriedSoFar(p, s, TRIED_BUCKETS, 0, setTried)
    ensures setTried == {} <==> TriedPass(p, s)
  {
    forall slot | slot in s.triedTable ensures Before(slot, TRIED_BUCKETS, 0) && TriedEntryOk(p, s, slot) {
    }
    if setTried == {} {
      forall id | id in s.mapInfo && s.mapInfo[id].inTried
        ensures exists slot :: slot in s.triedTable && s.triedTable[slot] == id
      {
        assert id !in TriedLeft(s, TRIED_BUCKETS, 0);
      }
    }
  }

  ghost function RefsBefore(s: State, id: nat, n: nat, i: nat): set<Slot> {
    set slot | slot in s.newTable && s.newTable[slot] == id && Before(slot, n, i)
  }

  /** The references still expected. */
  ghost function RefsLeft(s: State, n: nat, i: nat): map<nat, int> {
    map id | id in s.mapInfo && !s.mapInfo[id].inTried && s.mapInfo[id].refCount > |RefsBefore(s, id, n, i)|
      :: s.mapInfo[id].refCount - |RefsBefore(s, id, n, i)|
  }

  ghost predicate NotTooMany(s: State, id: nat, n: nat, i: nat) {
    id in s.mapInfo && (!s.mapInfo[id].inTried ==> |RefsBefore(s, id, n, i)| <= s.mapInfo[id].refCount)
  }

  ghost predicate NewSoFar(p: Params, s: State, n: nat, i: nat, mapNew: map<nat, int>) {
    && (forall slot :: slot in s.newTable && Before(slot, n, i) ==> NewEntryOk(p, s, slot))
    && (forall id {:trigger NotTooMany(s, id, n, i)} :: id in s.mapInfo ==> NotTooMany(s, id, n, i))
    && mapNew == RefsLeft(s, n, i)
  }

  function NewCode(p: Params, s: State, slot: Slot, mapNew: map<nat, int>): int
    requires slot in s.newTable
  {
    var id := s.newTable[slot];
    if id !in mapNew then -12
    else if id !in s.mapInfo || Position(p, true, slot.bucket, s.mapInfo[id].addr) != slot.position then -19
    else 0
  }

  function OneLess(mapNew: map<nat, int>, id: nat): map<nat, int>
    requires id in mapNew
  {
    if mapNew[id] == 1 then mapNew - {id} else mapNew[id := mapNew[id] - 1]
  }

  lemma {:induction false} RefsBeforeNext(s: State, id: nat, n: nat, i: nat)
    ensures var here := Slot(n, i) in s.newTable && s.newTable[Slot(n, i)] == id;
            |RefsBefore(s, id, n, i + 1)| == |RefsBefore(s, id, n, i)| + if here then 1 else 0
  {
    var slot := Slot(n, i);
    var a, b := RefsBefore(s, id, n, i), RefsBefore(s, id, n, i + 1);
    forall x | x in s.newTable && Before(x, n, i + 1) ensures x == slot || Before(x, n, i) {
    }
    if slot in s.newTable && s.newTable[slot] == id {
      assert b == a + {slot};
      OneMore(a, b, slot);
    } else {
      assert a == b;
    }
  }

  /** A slot that is refused is wrong, or one too many. */
  lemma {:induction false} NewCodeIs(p: Params, s: State, n: nat, i: nat, mapNew: map<nat, int>)
    requires n < NEW_BUCKETS && NewSoFar(p, s, n, i, mapNew) && Slot(n, i) in s.newTable
    ensures NewCode(p, s, Slot(n, i), mapNew) == 0 ==> NewEntryOk(p, s, Slot(n, i))
    ensures NewCode(p, s, Slot(n, i), mapNew) != 0 ==> !NewPass(p, s)
  {
    var slot := Slot(n, i);
    var id := s.newTable[slot];
    if NewCode(p, s, slot, mapNew) != 0 && NewEntryOk(p, s, slot) {
      RefsBeforeNext(s, id, n, i);
      Subset(RefsBefore(s, id, n, i + 1), Refs(s.newTable, id));
    }
  }

  lemma {:induction false} NewNext(p: Params, s: State, n: nat, i: nat, mapNew: map<nat, int>)
    requires NewSoFar(p, s, n, i, mapNew)
    requires Slot(n, i) in s.newTable ==> NewEntryOk(p, s, Slot(n, i)) && s.newTable[Slot(n, i)] in mapNew
    ensures var slot := Slot(n, i);
            NewSoFar(p, s, n, i + 1, if slot in s.newTable then OneLess(mapNew, s.newTable[slot]) else mapNew)
  {
    var slot := Slot(n, i);
    forall x | x in s.newTable && Before(x, n, i + 1) ensures NewEntryOk(p, s, x) {
      assert x == slot || Before(x, n, i);
    }
    forall id | id in s.mapInfo ensures NotTooMany(s, id, n, i + 1) {
      assert NotTooMany(s, id, n, i);
      RefsBeforeNext(s, id, n, i);
    }
    if slot in s.newTable {
      OneLessIs(s, n, i, mapNew, s.newTable[slot]);
    } else {
      SameLeft(s, n, i);
    }
  }

  lemma {:induction false} OneLessIs(s: State, n: nat, i: nat, mapNew: map<nat, int>, id: nat)
    requires mapNew == RefsLeft(s, n, i) && Slot(n, i) in s.newTable && id == s.newTable[Slot(n, i)] && id in mapNew
    ensures OneLess(mapNew, id) == RefsLeft(s, n, i + 1)
  {
    var next, left := OneLess(mapNew, id), RefsLeft(s, n, i + 1);
    forall k ensures k in next <==> k in left {
      RefsBeforeNext(s, k, n, i);
    }
    forall k | k in next ensures next[k] == left[k] {
      RefsBeforeNext(s, k, n, i);
    }
  }

  lemma {:induction false} SameLeft(s: State, n: nat, i: nat)
    requires Slot(n, i) !in s.newTable
    ensures RefsLeft(s, n, i + 1) == RefsLeft(s, n, i)
  {
    forall k ensures |RefsBefore(s, k, n, i + 1)| == |RefsBefore(s, k, n, i)| {
      RefsBeforeNext(s, k, n, i);
    }
  }

  lemma {:induction false} NewBucketDone(p: Params, s: State, n: nat, mapNew: map<nat, int>)
    requires InRange(s) && NewSoFar(p, s, n, BUCKET_SIZE, mapNew)
    ensures NewSoFar(p, s, n + 1, 0, mapNew)
  {
    forall id ensures RefsBefore(s, id, n + 1, 0) == RefsBefore(s, id, n, BUCKET_SIZE) {
      assert forall slot :: slot in s.newTable ==> (Before(slot, n + 1, 0) <==> Before(slot, n, BUCKET_SIZE));
    }
    forall id | id in s.mapInfo ensures NotTooMany(s, id, n + 1, 0) {
      assert NotTooMany(s, id, n, BUCKET_SIZE);
    }
    assert RefsLeft(s, n + 1, 0) == RefsLeft(s, n, BUCKET_SIZE);
  }

  method CheckNew(p: Params, s: State, counts: map<nat, int>) returns (code: int, mapNew: map<nat, int>)
    requires InRange(s) && EntriesPass(s) && counts == RefCounts(s, {})
    ensures code == 0 && mapNew == map[] <==> NewPass(p, s)
  {
    mapNew := counts;
    NewStart(p, s);
    for n := 0 to NEW_BUCKETS
      invariant NewSoFar(p, s, n, 0, mapNew)
    {
      for i := 0 to BUCKET_SIZE
        invariant NewSoFar(p, s, n, i, mapNew)
      {
        var slot := Slot(n, i);
        if slot in s.newTable {
          code := NewCode(p, s, slot, mapNew);
          NewCodeIs(p, s, n, i, mapNew);
          if code != 0 {
            return;
          }
        }
        NewNext(p, s, n, i, mapNew);
        if slot in s.newTable {
          mapNew := OneLess(mapNew, s.newTable[slot]);
        }
      }
      NewBucketDone(p, s, n, mapNew);
    }
    NewDone(p, s, mapNew);
    code := 0;
  }

  lemma {:induction false} NewStart(p: Params, s: State)
    requires EntriesPass(s)
    ensures NewSoFar(p, s, 0, 0, RefCounts(s, {}))
  {
    forall id | id in s.mapInfo ensures NotTooMany(s, id, 0, 0) && RefsBefore(s, id, 0, 0) == {} {
      assert EntryCode(s, id) == 0;
    }
    assert RefsLeft(s, 0, 0) == RefCounts(s, {});
  }

  lemma {:induction false} NewDone(p: Params, s: State, mapNew: map<nat, int>)
    requires InRange(s) && NewSoFar(p, s, NEW_BUCKETS, 0, mapNew)
    ensures mapNew == map[] <==> NewPass(p, s)
  {
    forall slot | slot in s.newTable ensures NewEntryOk(p, s, slot) {
      assert Before(slot, NEW_BUCKETS, 0);
    }
    forall id | id in s.mapInfo
      ensures RefsBefore(s, id, NEW_BUCKETS, 0) == Refs(s.newTable, id) && NotTooMany(s, id, NEW_BUCKETS, 0)
    {
    }
    if mapNew == map[] {
      forall id | id in s.mapInfo && !s.mapInfo[id].inTried ensures s.mapInfo[id].refCount == |Refs(s.newTable, id)| {
        assert id !in RefsLeft(s, NEW_BUCKETS, 0);
      }
    }
  }

  // ---- the counts, and all of it ----

  method CheckCounts(p: Params, s: State, local: map<nat, Tally>) returns (code: int)
    requires Tallied(p, s, {}, local)
    ensures code == 0 <==> CountsPass(p, s)
  {
    if |s.counts| < |local| {
      return -20;
    }
    var rest := s.counts.Keys;
    while rest != {}
      invariant rest <= s.counts.Keys
      invariant forall net :: net in s.counts && net !in rest ==>
        CountOk(p, s, {}, true, Some(net)) && CountOk(p, s, {}, false, Some(net))
    {
      var net := First(rest);
      assert TalliedNet(p, s, {}, local, net);
      var tally := TallyOf(local, net);
      if tally.nNew != s.counts[net].nNew || tally.nTried != s.counts[net].nTried {
        return -21;
      }
      rest := rest - {net};
    }
    return 0;
  }

  /** The check, with the code of the first thing that is wrong. */
  method CheckTables(p: Params, s: State, tried: set<nat>, counts: map<nat, int>) returns (code: int)
    requires InRange(s) && EntriesPass(s)
    requires tried == Counted(p, s, {}, true, None) && counts == RefCounts(s, {})
    ensures code == 0 <==> TriedPass(p, s) && NewPass(p, s)
  {
    var setTried, mapNew;
    code, setTried := CheckTried(p, s, tried);
    if code != 0 {
      return;
    }
    code, mapNew := CheckNew(p, s, counts);
    if code != 0 {
      return;
    }
    if |setTried| != 0 {
      return -13;
    }
    if |mapNew| != 0 {
      return -15;
    }
  }

  method CheckAddrman(p: Params, s: State) returns (code: int)
    requires InRange(s)
    ensures code == 0 <==> Passes(p, s)
  {
    if |s.random| != s.nTried + s.nNew {
      return -7;
    }
    var setTried, mapNew, local;
    code, setTried, mapNew, local := CheckEntries(p, s);
    if code != 0 {
      return;
    }
    RefCountsSize(p, s);
    if |setTried| != s.nTried {
      return -9;
    }
    if |mapNew| != s.nNew {
      return -10;
    }
    code := CheckTables(p, s, setTried, mapNew);
    if code != 0 {
      return;
    }
    if p.keyIsNull {
      return -16;
    }
    code := CheckCounts(p, s, local);
  }

  lemma {:induction false} RefCountsSize(p: Params, s: State)
    ensures |RefCounts(s, {})| == |Counted(p, s, {}, false, None)|
  {
    assert RefCounts(s, {}).Keys == Counted(p, s, {}, false, None);
  }

  // ---- what the invariant says of it ----

  /** The check finds nothing wrong with a state that the invariant holds of. */
  lemma {:induction false} InvPasses(p: Params, s: State)
    requires Inv(p, s) && !p.keyIsNull
    ensures InRange(s) && Passes(p, s)
  {
    InvEntries(p, s);
    InvTables(p, s);
    InvSizes(p, s);
    InvCounts(p, s);
  }

  lemma {:induction false} InvEntries(p: Params, s: State)
    requires Directory(s) && InfosOk(s, {}) && NewOk(p, s)
    ensures EntriesPass(s)
  {
    forall id | id in s.mapInfo ensures EntryCode(s, id) == 0 {
      assert Listed(s, id) && InfoAt(s, {}, id) && RefsOk(s, id);
      if s.mapInfo[id].inTried {
        TriedHasNoRefs(p, s, id);
      }
    }
  }

  lemma {:induction false} InvTables(p: Params, s: State)
    requires TriedOk(p, s) && NewOk(p, s)
    ensures InRange(s) && TriedPass(p, s) && NewPass(p, s)
  {
    forall slot | slot in s.triedTable
      ensures TriedEntryOk(p, s, slot) && slot.bucket < TRIED_BUCKETS && slot.position < BUCKET_SIZE
    {
    }
    forall slot | slot in s.newTable
      ensures NewEntryOk(p, s, slot) && slot.bucket < NEW_BUCKETS && slot.position < BUCKET_SIZE
    {
    }
    forall id | id in s.mapInfo && s.mapInfo[id].inTried
      ensures exists slot :: slot in s.triedTable && s.triedTable[slot] == id
    {
      assert InItsSlot(p, s, id);
    }
    forall id | id in s.mapInfo ensures s.mapInfo[id].refCount == |Refs(s.newTable, id)| {
      assert RefsOk(s, id);
    }
  }

  /** The random order has each entry once. */
  lemma {:induction false} InvSizes(p: Params, s: State)
    requires Directory(s) && CountsOk(p, s, {})
    ensures |s.random| == s.nTried + s.nNew && CountOk(p, s, {}, true, None) && CountOk(p, s, {}, false, None)
  {
    assert CountOk(p, s, {}, true, None) && CountOk(p, s, {}, false, None);
    RandomHasAll(s);
    TriedOrNew(p, s);
  }

  lemma {:induction false} TriedOrNew(p: Params, s: State)
    ensures |s.mapInfo.Keys| == |Counted(p, s, {}, true, None)| + |Counted(p, s, {}, false, None)|
  {
    var a, b := Counted(p, s, {}, true, None), Counted(p, s, {}, false, None);
    assert s.mapInfo.Keys == a + b;
    Disjoint(a, b);
  }

  lemma Disjoint<T>(a: set<T>, b: set<T>)
    requires a !! b
    ensures |a + b| == |a| + |b|
  {
  }

  lemma {:induction false} RandomHasAll(s: State)
    requires Directory(s)
    ensures |s.random| == |s.mapInfo.Keys|
  {
    forall i, j | 0 <= i < j < |s.random| ensures s.random[i] != s.random[j] {
      assert RandomOk(s, i) && RandomOk(s, j);
    }
    DistinctCount(s.random);
    forall id | id in s.mapInfo ensures id in Elements(s.random) {
      assert Listed(s, id);
    }
    forall id | id in Elements(s.random) ensures id in s.mapInfo {
      var i :| 0 <= i < |s.random| && s.random[i] == id;
      assert RandomOk(s, i);
    }
    assert Elements(s.random) == s.mapInfo.Keys;
  }

  lemma {:induction false} InvCounts(p: Params, s: State)
    requires CountsOk(p, s, {})
    ensures CountsPass(p, s)
  {
    forall net ensures CountOk(p, s, {}, true, Some(net)) && CountOk(p, s, {}, false, Some(net)) {
    }
    forall net | net in Nets(p, s, {}) ensures net in s.counts {
      var id :| id in s.mapInfo && p.network(s.mapInfo[id].addr) == net;
      assert id in Counted(p, s, {}, s.mapInfo[id].inTried, Some(net));
      assert CountOk(p, s, {}, s.mapInfo[id].inTried, Some(net));
    }
    Subset(Nets(p, s, {}), s.counts.Keys);
  }
}
