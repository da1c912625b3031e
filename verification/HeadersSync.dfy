/** Downloading a peer's headers twice: commit to them in PRESYNC until they show enough work, then
    check them against the commitments in REDOWNLOAD and release them from a lookahead buffer. */
module HeadersSyncs {

  /** Store one commitment per this many headers. */
  const HEADER_COMMITMENT_PERIOD := 632
  /** Release a header once this many on top of it have been checked. */
  const REDOWNLOAD_BUFFER_SIZE := 15009

  datatype Header = Header(version: int, prev: nat, merkleRoot: nat, time: nat, bits: nat, nonce: nat)

  /** A header without the hash of its predecessor. */
  datatype CompressedHeader = CompressedHeader(version: int, merkleRoot: nat, time: nat, bits: nat, nonce: nat) {
    function GetFullHeader(prev: nat): Header {
      Header(version, prev, merkleRoot, time, bits, nonce)
    }
  }

  function Compress(h: Header): CompressedHeader {
    CompressedHeader(h.version, h.merkleRoot, h.time, h.bits, h.nonce)
  }

  lemma CompressRoundTrip(h: Header)
    ensures Compress(h).GetFullHeader(h.prev) == h
  {
  }

  /** What does not change during a sync. Hashing, the salted commitment bit, the work of a header,
      the difficulty rule and the block pins are left to the environment. */
  datatype Config = Config(
    start: Header, startHeight: nat, startWork: nat, minWork: nat, maxCommitments: nat, offset: nat, signet: bool,
    hash: Header -> nat, bit: nat -> bool, work: nat -> nat,
    permitted: (nat, nat, nat) -> bool, pinned: (nat, nat) -> bool)

  datatype Phase = PRESYNC | REDOWNLOAD | FINAL

  datatype Sync = Sync(
    phase: Phase,
    commitments: seq<bool>, lastHeader: Header, height: nat, work: nat,
    buffer: seq<CompressedHeader>, bufferLastHeight: nat, bufferLastHash: nat, bufferFirstPrev: nat,
    redownloadWork: nat, processAll: bool)

  datatype Result = Result(success: bool, requestMore: bool, released: seq<Header>)

  function NullHeader(): Header {
    Header(0, 0, 0, 0, 0, 0)
  }

  function Start(c: Config): Sync {
    Sync(PRESYNC, [], c.start, c.startHeight, c.startWork, [], 0, 0, 0, 0, false)
  }

  predicate IsCommitted(c: Config, height: nat) {
    height % HEADER_COMMITMENT_PERIOD == c.offset
  }

  predicate PinOk(c: Config, height: nat, h: Header) {
    c.signet ==> c.pinned(height, c.hash(h))
  }

  // ---- one header ----

  /** PRESYNC: the new state, and whether the header was accepted. */
  function PresyncOne(c: Config, s: Sync, h: Header): (Sync, bool) {
    var next := s.height + 1;
    if s.phase != PRESYNC || !PinOk(c, next, h) || !c.permitted(next, s.lastHeader.bits, h.bits) then (s, false)
    else
      var commitments := if IsCommitted(c, next) then s.commitments + [c.bit(c.hash(h))] else s.commitments;
      if IsCommitted(c, next) && |commitments| > c.maxCommitments then (s.(commitments := commitments), false)
      else (s.(commitments := commitments, work := s.work + c.work(h.bits), lastHeader := h, height := next), true)
  }

  function PreviousBits(c: Config, s: Sync): nat {
    if s.buffer != [] then s.buffer[|s.buffer| - 1].bits else c.start.bits
  }

  /** REDOWNLOAD: the new state, and whether the header was accepted. */
  function RedownloadOne(c: Config, s: Sync, h: Header): (Sync, bool) {
    var next := s.bufferLastHeight + 1;
    if s.phase != REDOWNLOAD || (!s.processAll && !PinOk(c, next, h)) || h.prev != s.bufferLastHash
       || !c.permitted(next, PreviousBits(c, s), h.bits) then (s, false)
    else
      var work := s.redownloadWork + c.work(h.bits);
      var all := s.processAll || work >= c.minWork;
      var s1 := s.(redownloadWork := work, processAll := all);
      var checked := !all && IsCommitted(c, next);
      if checked && s.commitments == [] then (s1, false)
      else
        var s2 := if checked then s1.(commitments := s.commitments[1..]) else s1;
        if checked && c.bit(c.hash(h)) != s.commitments[0] then (s2, false)
        else (s2.(buffer := s.buffer + [Compress(h)], bufferLastHeight := next, bufferLastHash := c.hash(h)), true)
  }

  // ---- one message ----

  /** PRESYNC over a message; a signet sync stops looking once there is enough work. */
  function PresyncAll(c: Config, s: Sync, hs: seq<Header>): (Sync, bool)
    decreases |hs|
  {
    if hs == [] || (c.signet && s.work >= c.minWork) then (s, true)
    else
      var (s', ok) := PresyncOne(c, s, hs[0]);
      if ok then PresyncAll(c, s', hs[1..]) else (s', false)
  }

  /** The switch to REDOWNLOAD once the work suffices. */
  function MaybeSwitch(c: Config, s: Sync): Sync {
    if s.work >= c.minWork then
      s.(phase := REDOWNLOAD, buffer := [], bufferLastHeight := c.startHeight, bufferFirstPrev := c.hash(c.start),
         bufferLastHash := c.hash(c.start), redownloadWork := c.startWork)
    else s
  }

  function StoreCommitments(c: Config, s: Sync, hs: seq<Header>): (Sync, bool) {
    if hs == [] then (s, true)
    else if s.phase != PRESYNC || hs[0].prev != c.hash(s.lastHeader) then (s, false)
    else
      var (s', ok) := PresyncAll(c, s, hs);
      if ok then (MaybeSwitch(c, s'), true) else (s', false)
  }

  function RedownloadAll(c: Config, s: Sync, hs: seq<Header>): (Sync, bool)
    decreases |hs|
  {
    if hs == [] then (s, true)
    else
      var (s', ok) := RedownloadOne(c, s, hs[0]);
      if ok then RedownloadAll(c, s', hs[1..]) else (s', false)
  }

  /** Full headers for a stretch of the buffer that starts after prev. */
  function Rebuild(c: Config, hs: seq<CompressedHeader>, prev: nat): (r: seq<Header>)
    ensures |r| == |hs|
  {
    if hs == [] then [] else var h := hs[0].GetFullHeader(prev); [h] + Rebuild(c, hs[1..], c.hash(h))
  }

  /** How many buffered headers are ready. */
  function ReadyCount(s: Sync): (n: nat)
    ensures n <= |s.buffer|
  {
    if s.processAll then |s.buffer|
    else if |s.buffer| > REDOWNLOAD_BUFFER_SIZE then |s.buffer| - REDOWNLOAD_BUFFER_SIZE
    else 0
  }

  function LastHash(c: Config, hs: seq<Header>, prev: nat): nat {
    if hs == [] then prev else c.hash(hs[|hs| - 1])
  }

  function Popped(c: Config, s: Sync): (Sync, seq<Header>) {
    var out := Rebuild(c, s.buffer[..ReadyCount(s)], s.bufferFirstPrev);
    (s.(buffer := s.buffer[ReadyCount(s)..], bufferFirstPrev := LastHash(c, out, s.bufferFirstPrev)), out)
  }

  function Finalized(s: Sync): Sync {
    s.(phase := FINAL, commitments := [], lastHeader := NullHeader(), buffer := [], bufferLastHash := 0,
       bufferFirstPrev := 0,
       processAll := false, height := 0)
  }

  function Finish(s: Sync, r: Result): (Sync, Result) {
    (if r.success && r.requestMore then s else Finalized(s), r)
  }

  function Process(c: Config, s: Sync, hs: seq<Header>, full: bool): (Sync, Result) {
    if hs == [] || s.phase == FINAL then (s, Result(false, false, []))
    else if s.phase == PRESYNC then
      var (s', ok) := StoreCommitments(c, s, hs);
      Finish(s', Result(ok, ok && (full || s'.phase == REDOWNLOAD), []))
    else
      var (s', ok) := RedownloadAll(c, s, hs);
      if !ok then Finish(s', Result(false, false, []))
      else
        var (s'', out) := Popped(c, s');
        Finish(s'', Result(true, !(s''.buffer == [] && s''.processAll) && full, out))
  }

  // ---- the object ----

  class HeadersSyncState {
    const c: Config
    var phase: Phase
    var commitments: seq<bool>
    var lastHeader: Header
    var height: nat
    var work: nat
    var buffer: seq<CompressedHeader>
    var bufferLastHeight: nat
    var bufferLastHash: nat
    var bufferFirstPrev: nat
    var redownloadWork: nat
    var processAll: bool

    function Value(): Sync
      reads this
    {
      Sync(phase, commitments, lastHeader, height, work, buffer, bufferLastHeight, bufferLastHash, bufferFirstPrev,
           redownloadWork, processAll)
    }

    constructor (config: Config)
      ensures Value() == Start(config) && c == config
    {
      c := config;
      phase, commitments, lastHeader, height, work := PRESYNC, [], config.start, config.startHeight, config.startWork;
      buffer, bufferLastHeight, bufferLastHash, bufferFirstPrev, redownloadWork, processAll := [], 0, 0, 0, 0, false;
    }

    method Finalize()
      modifies this
      ensures Value() == Finalized(old(Value()))
    {
      commitments := [];
      lastHeader := NullHeader();
      buffer := [];
      bufferLastHash := 0;
      bufferFirstPrev := 0;
      processAll := false;
      height := 0;
      phase := FINAL;
    }

    method ValidateAndProcessSingleHeader(current: Header) returns (ok: bool)
      modifies this
      ensures (Value(), ok) == PresyncOne(c, old(Value()), current)
    {
      if phase != PRESYNC {
        return false;
      }
      var next := height + 1;
      if c.signet && !c.pinned(next, c.hash(current)) {
        return false;
      }
      if !c.permitted(next, lastHeader.bits, current.bits) {
        return false;
      }
      if next % HEADER_COMMITMENT_PERIOD == c.offset {
        commitments := commitments + [c.bit(c.hash(current))];
        if |commitments| > c.maxCommitments {
          return false;
        }
      }
      work := work + c.work(current.bits);
      lastHeader := current;
      height := next;
      return true;
    }

    method ValidateAndStoreHeadersCommitments(headers: seq<Header>) returns (ok: bool)
      modifies this
      ensures (Value(), ok) == StoreCommitments(c, old(Value()), headers)
    {
      if |headers| == 0 {
        return true;
      }
      if phase != PRESYNC {
        return false;
      }
      if headers[0].prev != c.hash(lastHeader) {
        return false;
      }
      var i := 0;
      assert headers[0..] == headers;
      while i < |headers|
        invariant 0 <= i <= |headers|
        invariant PresyncAll(c, Value(), headers[i..]) == PresyncAll(c, old(Value()), headers)
      {
        if c.signet && work >= c.minWork {
          break;
        }
        ghost var rest := headers[i..];
        assert rest[0] == headers[i] && rest[1..] == headers[i + 1..];
        var accepted := ValidateAndProcessSingleHeader(headers[i]);
        if !accepted {
          return false;
        }
        i := i + 1;
      }
      if work >= c.minWork {
        buffer := [];
        bufferLastHeight := c.startHeight;
        bufferFirstPrev := c.hash(c.start);
        bufferLastHash := c.hash(c.start);
        redownloadWork := c.startWork;
        phase := REDOWNLOAD;
      }
      return true;
    }

    method ValidateAndStoreRedownloadedHeader(header: Header) returns (ok: bool)
      modifies this
      ensures (Value(), ok) == RedownloadOne(c, old(Value()), header)
    {
      if phase != REDOWNLOAD {
        return false;
      }
      var next := bufferLastHeight + 1;
      if c.signet && !processAll && !c.pinned(next, c.hash(header)) {
        return false;
      }
      if header.prev != bufferLastHash {
        return false;
      }
      var previousBits := if |buffer| > 0 then buffer[|buffer| - 1].bits else c.start.bits;
      if !c.permitted(next, previousBits, header.bits) {
        return false;
      }
      redownloadWork := redownloadWork + c.work(header.bits);
      if redownloadWork >= c.minWork {
        processAll := true;
      }
      if !processAll && next % HEADER_COMMITMENT_PERIOD == c.offset {
        if |commitments| == 0 {
          return false;
        }
        var commitment := c.bit(c.hash(header));
        var expected := commitments[0];
        commitments := commitments[1..];
        if commitment != expected {
          return false;
        }
      }
      buffer := buffer + [Compress(header)];
      bufferLastHeight := next;
      bufferLastHash := c.hash(header);
      return true;
    }

    method PopHeadersReadyForAcceptance() returns (ret: seq<Header>)
      requires phase == REDOWNLOAD
      modifies this
      ensures (Value(), ret) == Popped(c, old(Value()))
    {
      ret := [];
      ghost var s := Value();
      ghost var n := ReadyCount(s);
      while |buffer| > REDOWNLOAD_BUFFER_SIZE || (|buffer| > 0 && processAll)
        invariant |ret| <= n && buffer == s.buffer[|ret|..]
        invariant bufferFirstPrev == LastHash(c, ret, s.bufferFirstPrev)
        invariant ret == Rebuild(c, s.buffer[..|ret|], s.bufferFirstPrev)
        invariant Value() == s.(buffer := buffer, bufferFirstPrev := bufferFirstPrev)
        decreases |buffer|
      {
        RebuildNext(c, s.buffer[..|ret|], buffer[0], s.bufferFirstPrev);
        assert s.buffer[..|ret| + 1] == s.buffer[..|ret|] + [buffer[0]];
        ret := ret + [buffer[0].GetFullHeader(bufferFirstPrev)];
        buffer := buffer[1..];
        bufferFirstPrev := c.hash(ret[|ret| - 1]);
      }
    }

    method ProcessNextHeaders(received: seq<Header>, full: bool) returns (r: Result)
      modifies this
      ensures (Value(), r) == Process(c, old(Value()), received, full)
    {
      r := Result(false, false, []);
      if |received| == 0 || phase == FINAL {
        return;
      }
      if phase == PRESYNC {
        var ok := ValidateAndStoreHeadersCommitments(received);
        r := Result(ok, ok && (full || phase == REDOWNLOAD), []);
      } else {
        var ok := StoreAll(received);
        if ok {
          var out := PopHeadersReadyForAcceptance();
          r := Result(true, !(|buffer| == 0 && processAll) && full, out);
        }
      }
      if !(r.success && r.requestMore) {
        Finalize();
      }
    }

    /** The loop over a message in REDOWNLOAD. */
    method StoreAll(received: seq<Header>) returns (ok: bool)
      requires phase == REDOWNLOAD
      modifies this
      ensures (Value(), ok) == RedownloadAll(c, old(Value()), received) && phase == REDOWNLOAD
    {
      var i := 0;
      assert received[0..] == received;
      while i < |received|
        invariant 0 <= i <= |received| && phase == REDOWNLOAD
        invariant RedownloadAll(c, Value(), received[i..]) == RedownloadAll(c, old(Value()), received)
      {
        ghost var rest := received[i..];
        assert rest[0] == received[i] && rest[1..] == received[i + 1..];
        var stored := ValidateAndStoreRedownloadedHeader(received[i]);
        if !stored {
          return false;
        }
        i := i + 1;
      }
      return true;
    }
  }

  lemma {:induction false} RebuildNext(c: Config, hs: seq<CompressedHeader>, h: CompressedHeader, prev: nat)
    ensures var out := Rebuild(c, hs, prev);
            Rebuild(c, hs + [h], prev) == out + [h.GetFullHeader(LastHash(c, out, prev))]
  {
    if hs != [] {
      var first := hs[0].GetFullHeader(prev);
      assert (hs + [h])[0] == hs[0] && (hs + [h])[1..] == hs[1..] + [h];
      RebuildNext(c, hs[1..], h, c.hash(first));
    } else {
      assert hs + [h] == [h];
    }
  }
}
