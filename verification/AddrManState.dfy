/** The address manager's data, and what has to agree in it. */
module AddrManStates {
  import opened Options

  const TRIED_BUCKETS: nat := 256
  const NEW_BUCKETS: nat := 1024
  const BUCKET_SIZE: nat := 64
  const PER_ADDRESS: nat := 8

  /** What does not depend on the manager: hashes, keyed with its secret, and properties of addresses. */
  datatype Params = Params(
    triedHash: nat -> nat, newHash: (nat, nat) -> nat, positionHash: (bool, nat, nat) -> nat,
    network: nat -> nat, netClass: nat -> nat, host: nat -> nat, routable: nat -> bool, valid: nat -> bool,
    keyIsNull: bool)

  datatype Slot = Slot(bucket: nat, position: nat)

  function TriedBucket(p: Params, addr: nat): nat {
    p.triedHash(addr) % TRIED_BUCKETS
  }

  function NewBucket(p: Params, addr: nat, source: nat): nat {
    p.newHash(addr, source) % NEW_BUCKETS
  }

  function Position(p: Params, isNew: bool, bucket: nat, addr: nat): nat {
    p.positionHash(isNew, bucket, addr) % BUCKET_SIZE
  }

  function TriedSlot(p: Params, addr: nat): Slot {
    Slot(TriedBucket(p, addr), Position(p, false, TriedBucket(p, addr), addr))
  }

  function NewSlot(p: Params, bucket: nat, addr: nat): Slot {
    Slot(bucket, Position(p, true, bucket, addr))
  }

  datatype Info = Info(
    addr: nat, source: nat, time: int, services: set<nat>,
    lastTry: int, lastCountAttempt: int, lastSuccess: int, attempts: int,
    refCount: int, inTried: bool, randomPos: int)

  datatype Tally = Tally(nNew: int, nTried: int)

  /** Empty slots are absent from the tables. */
  datatype State = State(
    idCount: nat, mapInfo: map<nat, Info>, mapAddr: map<nat, nat>, random: seq<nat>,
    nTried: int, triedTable: map<Slot, nat>, nNew: int, newTable: map<Slot, nat>,
    lastGood: int, collisions: set<nat>, counts: map<nat, Tally>)

  // ---- the directory: ids, addresses and the random order ----

  ghost predicate Listed(s: State, id: nat) {
    && id in s.mapInfo && id < s.idCount && s.mapInfo[id].addr in s.mapAddr && s.mapAddr[s.mapInfo[id].addr] == id
    && 0 <= s.mapInfo[id].randomPos < |s.random| && s.random[s.mapInfo[id].randomPos] == id
  }

  ghost predicate AddrOk(s: State, a: nat) {
    a in s.mapAddr && s.mapAddr[a] in s.mapInfo && s.mapInfo[s.mapAddr[a]].addr == a
  }

  ghost predicate RandomOk(s: State, i: nat) {
    i < |s.random| && s.random[i] in s.mapInfo && s.mapInfo[s.random[i]].randomPos == i
  }

  ghost predicate Directory(s: State) {
    && (forall id {:trigger Listed(s, id)} :: id in s.mapInfo ==> Listed(s, id))
    && (forall a {:trigger AddrOk(s, a)} :: a in s.mapAddr ==> AddrOk(s, a))
    && (forall i {:trigger RandomOk(s, i)} :: 0 <= i < |s.random| ==> RandomOk(s, i))
  }

  // ---- the tables ----

  ghost predicate TriedEntryOk(p: Params, s: State, slot: Slot) {
    && slot in s.triedTable && s.triedTable[slot] in s.mapInfo
    && s.mapInfo[s.triedTable[slot]].inTried && slot == TriedSlot(p, s.mapInfo[s.triedTable[slot]].addr)
  }

  ghost predicate InItsSlot(p: Params, s: State, id: nat) {
    && id in s.mapInfo
    && (s.mapInfo[id].inTried ==>
        var slot := TriedSlot(p, s.mapInfo[id].addr); slot in s.triedTable && s.triedTable[slot] == id)
  }

  ghost predicate TriedOk(p: Params, s: State) {
    && (forall slot {:trigger TriedEntryOk(p, s, slot)} :: slot in s.triedTable ==> TriedEntryOk(p, s, slot))
    && (forall id {:trigger InItsSlot(p, s, id)} :: id in s.mapInfo ==> InItsSlot(p, s, id))
  }

  ghost predicate NewEntryOk(p: Params, s: State, slot: Slot) {
    && slot in s.newTable && s.newTable[slot] in s.mapInfo && !s.mapInfo[s.newTable[slot]].inTried
    && slot.bucket < NEW_BUCKETS && slot == NewSlot(p, slot.bucket, s.mapInfo[s.newTable[slot]].addr)
  }

  /** The slots of the new table that hold id. */
  function Refs(table: map<Slot, nat>, id: nat): set<Slot> {
    set slot | slot in table && table[slot] == id
  }

  ghost predicate NewOk(p: Params, s: State) {
    && (forall slot {:trigger NewEntryOk(p, s, slot)} :: slot in s.newTable ==> NewEntryOk(p, s, slot))
    && (forall id {:trigger RefsOk(s, id)} :: id in s.mapInfo ==> RefsOk(s, id))
  }

  ghost predicate RefsOk(s: State, id: nat) {
    id in s.mapInfo && s.mapInfo[id].refCount == |Refs(s.newTable, id)|
  }

  // ---- the entries ----

  /** What an entry says of itself; one that is loose may be in neither table. */
  ghost predicate InfoOk(info: Info, loose: bool) {
    && info.refCount <= PER_ADDRESS && info.lastTry >= 0 && info.lastSuccess >= 0
    && if info.inTried then info.lastSuccess > 0 && !loose else info.refCount >= 1 || loose
  }

  ghost predicate InfoAt(s: State, loose: set<nat>, id: nat) {
    id in s.mapInfo && InfoOk(s.mapInfo[id], id in loose)
  }

  ghost predicate InfosOk(s: State, loose: set<nat>) {
    forall id {:trigger InfoAt(s, loose, id)} :: id in s.mapInfo ==> InfoAt(s, loose, id)
  }

  // ---- the counts ----

  /** The entries counted in one table, of one network or of all; those out are not counted. */
  ghost function Counted(p: Params, s: State, out: set<nat>, tried: bool, net: Option<nat>): set<nat> {
    set id | id in s.mapInfo && id !in out && s.mapInfo[id].inTried == tried && InNet(p, s.mapInfo[id].addr, net)
  }

  predicate InNet(p: Params, addr: nat, net: Option<nat>) {
    net.None? || p.network(addr) == net.value
  }

  function TallyOf(counts: map<nat, Tally>, net: nat): Tally {
    if net in counts then counts[net] else Tally(0, 0)
  }

  /** The count that is kept. */
  function CountOf(s: State, tried: bool, net: Option<nat>): int {
    match net
    case None => if tried then s.nTried else s.nNew
    case Some(n) => if tried then TallyOf(s.counts, n).nTried else TallyOf(s.counts, n).nNew
  }

  ghost predicate CountOk(p: Params, s: State, out: set<nat>, tried: bool, net: Option<nat>) {
    CountOf(s, tried, net) == |Counted(p, s, out, tried, net)|
  }

  ghost predicate CountsOk(p: Params, s: State, out: set<nat>) {
    forall tried, net :: CountOk(p, s, out, tried, net)
  }

  // ---- collisions ----

  /** A waiting entry that still exists waits for a slot that is taken. */
  ghost predicate Waits(p: Params, s: State, id: nat) {
    id < s.idCount && (id in s.mapInfo ==> TriedSlot(p, s.mapInfo[id].addr) in s.triedTable)
  }

  ghost predicate CollisionsOk(p: Params, s: State) {
    forall id {:trigger Waits(p, s, id)} :: id in s.collisions ==> Waits(p, s, id)
  }

  // ---- all of it ----

  /** Everything agrees, but for entries that are loose: in neither table, and, if out, not counted. */
  ghost predicate Agrees(p: Params, s: State, loose: set<nat>, out: set<nat>) {
    Directory(s) && TriedOk(p, s) && NewOk(p, s) && InfosOk(s, loose) && CountsOk(p, s, out)
  }

  ghost predicate Inv(p: Params, s: State) {
    Agrees(p, s, {}, {}) && CollisionsOk(p, s)
  }

  /** Ids are not given out again, addresses do not change, and a taken slot of the tried table stays taken. */
  ghost predicate Grows(s: State, t: State) {
    && s.idCount <= t.idCount && s.triedTable.Keys <= t.triedTable.Keys
    && forall id :: id in t.mapInfo && id < s.idCount ==> id in s.mapInfo && s.mapInfo[id].addr == t.mapInfo[id].addr
  }
}
