/** Whole header syncs: what any sequence of messages leads to, and that an honest peer succeeds. */
module HeadersSyncRuns {
  import opened HeadersSyncs

  // ---- chains of headers ----

  /** The header before position i. */
  function Before(c: Config, hs: seq<Header>, i: nat): Header
    requires i <= |hs|
  {
    if i == 0 then c.start else hs[i - 1]
  }

  function Tip(c: Config, hs: seq<Header>): Header {
    Before(c, hs, |hs|)
  }

  function HeightOf(c: Config, i: nat): nat {
    c.startHeight + i + 1
  }

  /** hs continues from the start of the chain, each header naming the hash of the one before. */
  ghost predicate Linked(c: Config, hs: seq<Header>) {
    forall i {:trigger LinkedAt(c, hs, i)} :: 0 <= i < |hs| ==> LinkedAt(c, hs, i)
  }

  ghost predicate LinkedAt(c: Config, hs: seq<Header>, i: nat)
    requires i < |hs|
  {
    hs[i].prev == c.hash(Before(c, hs, i))
  }

  /** Every header of hs passes the difficulty rule and the block pins. */
  ghost predicate Permitted(c: Config, hs: seq<Header>) {
    forall i {:trigger PermittedAt(c, hs, i)} :: 0 <= i < |hs| ==> PermittedAt(c, hs, i)
  }

  ghost predicate PermittedAt(c: Config, hs: seq<Header>, i: nat)
    requires i < |hs|
  {
    c.permitted(HeightOf(c, i), Before(c, hs, i).bits, hs[i].bits) && PinOk(c, HeightOf(c, i), hs[i])
  }

  /** The commitment bits of a chain. */
  ghost function Commitments(c: Config, hs: seq<Header>): seq<bool> {
    if hs == [] then []
    else
      var n := |hs| - 1;
      Commitments(c, hs[..n]) + if IsCommitted(c, HeightOf(c, n)) then [c.bit(c.hash(hs[n]))] else []
  }

  /** The chain work at the end of a chain. */
  ghost function Work(c: Config, hs: seq<Header>): nat {
    if hs == [] then c.startWork else Work(c, hs[..|hs| - 1]) + c.work(hs[|hs| - 1].bits)
  }

  lemma {:induction false} Extend(c: Config, hs: seq<Header>, h: Header)
    ensures var hs' := hs + [h];
            && Tip(c, hs') == h && Work(c, hs') == Work(c, hs) + c.work(h.bits)
            && Commitments(c, hs')
                == Commitments(c, hs) + (if IsCommitted(c, HeightOf(c, |hs|)) then [c.bit(c.hash(h))] else [])
            && (Linked(c, hs') <==> Linked(c, hs) && h.prev == c.hash(Tip(c, hs)))
            && (Permitted(c, hs') <==>
                Permitted(c, hs) && c.permitted(HeightOf(c, |hs|), Tip(c, hs).bits, h.bits)
                    && PinOk(c, HeightOf(c, |hs|), h))
  {
    var hs' := hs + [h];
    assert hs'[..|hs|] == hs;
    forall i | 0 <= i < |hs| ensures Before(c, hs', i) == Before(c, hs, i) {
    }
    if Linked(c, hs') {
      assert LinkedAt(c, hs', |hs|);
      forall i | 0 <= i < |hs| ensures LinkedAt(c, hs, i) {
        assert LinkedAt(c, hs', i);
      }
    }
    if Linked(c, hs) && h.prev == c.hash(Tip(c, hs)) {
      forall i | 0 <= i < |hs'| ensures LinkedAt(c, hs', i) {
        if i < |hs| {
          assert LinkedAt(c, hs, i);
        }
      }
    }
    ExtendPermitted(c, hs, h);
  }

  lemma {:induction false} ExtendPermitted(c: Config, hs: seq<Header>, h: Header)
    ensures Permitted(c, hs + [h]) <==>
      Permitted(c, hs) && c.permitted(HeightOf(c, |hs|), Tip(c, hs).bits, h.bits) && PinOk(c, HeightOf(c, |hs|), h)
  {
    var hs' := hs + [h];
    forall i | 0 <= i < |hs| ensures PermittedAt(c, hs', i) <==> PermittedAt(c, hs, i) {
    }
    if Permitted(c, hs') {
      assert PermittedAt(c, hs', |hs|);
      forall i | 0 <= i < |hs| ensures PermittedAt(c, hs, i) {
        assert PermittedAt(c, hs', i);
      }
    }
    if Permitted(c, hs) && c.permitted(HeightOf(c, |hs|), Tip(c, hs).bits, h.bits) && PinOk(c, HeightOf(c, |hs|), h) {
      forall i | 0 <= i < |hs'| ensures PermittedAt(c, hs', i) {
        if i < |hs| {
          assert PermittedAt(c, hs, i);
        }
      }
    }
  }

  /** Every header of hs passes the difficulty rule after its predecessor, and until the work suffices the block
      pins. */
  ghost predicate Checked(c: Config, hs: seq<Header>) {
    forall i {:trigger CheckedAt(c, hs, i)} :: 0 <= i < |hs| ==> CheckedAt(c, hs, i)
  }

  ghost predicate CheckedAt(c: Config, hs: seq<Header>, i: nat)
    requires i < |hs|
  {
    && c.permitted(HeightOf(c, i), Before(c, hs, i).bits, hs[i].bits)
    && (!Suffices(c, hs[..i]) ==> PinOk(c, HeightOf(c, i), hs[i]))
  }

  ghost predicate Suffices(c: Config, hs: seq<Header>) {
    hs != [] && Work(c, hs) >= c.minWork
  }

  lemma {:induction false} ExtendChecked(c: Config, hs: seq<Header>, h: Header)
    requires Checked(c, hs) && c.permitted(HeightOf(c, |hs|), Tip(c, hs).bits, h.bits)
    requires !Suffices(c, hs) ==> PinOk(c, HeightOf(c, |hs|), h)
    ensures Checked(c, hs + [h])
  {
    var hs' := hs + [h];
    forall i | 0 <= i < |hs'| ensures CheckedAt(c, hs', i) {
      assert hs'[..i] == hs[..i];
      assert hs[..|hs|] == hs;
      if i < |hs| {
        assert CheckedAt(c, hs, i);
      }
    }
  }

  // ---- PRESYNC ----

  /** In PRESYNC, having accepted the headers p. */
  ghost predicate InPresync(c: Config, s: Sync, p: seq<Header>) {
    && s.phase == PRESYNC && s.commitments == Commitments(c, p) && s.lastHeader == Tip(c, p)
    && s.height == c.startHeight + |p| && s.work == Work(c, p) && Permitted(c, p) && !s.processAll
  }

  lemma {:induction false} PresyncStep(c: Config, s: Sync, p: seq<Header>, h: Header, s': Sync)
    requires InPresync(c, s, p) && PresyncOne(c, s, h) == (s', true)
    ensures InPresync(c, s', p + [h])
  {
    assert HeightOf(c, |p|) == s.height + 1;
    PresyncFields(c, s, h, s', s.height + 1);
    Extend(c, p, h);
  }

  lemma {:induction false} PresyncFields(c: Config, s: Sync, h: Header, s': Sync, next: nat)
    requires PresyncOne(c, s, h) == (s', true) && next == s.height + 1
    ensures s.phase == PRESYNC && PinOk(c, next, h) && c.permitted(next, s.lastHeader.bits, h.bits)
    ensures s'.commitments == s.commitments + (if IsCommitted(c, next) then [c.bit(c.hash(h))] else [])
    ensures s' == s.(commitments := s'.commitments, work := s.work + c.work(h.bits), lastHeader := h, height := next)
  {
  }

  /** What a message adds to the accepted headers: all of it, or the part before the work sufficed. */
  ghost function Accepted(c: Config, s: Sync, hs: seq<Header>): seq<Header>
    decreases |hs|
  {
    if hs == [] || (c.signet && s.work >= c.minWork) then []
        else [hs[0]] + Accepted(c, PresyncOne(c, s, hs[0]).0, hs[1..])
  }

  lemma {:induction false} PresyncMessage(c: Config, s: Sync, p: seq<Header>, hs: seq<Header>)
    requires InPresync(c, s, p) && PresyncAll(c, s, hs).1
    ensures InPresync(c, PresyncAll(c, s, hs).0, p + Accepted(c, s, hs))
    decreases |hs|
  {
    if hs == [] || (c.signet && s.work >= c.minWork) {
      assert p + [] == p;
    } else {
      var s' := FirstAccepted(c, s, hs);
      PresyncStep(c, s, p, hs[0], s');
      PresyncMessage(c, s', p + [hs[0]], hs[1..]);
      AppendAfter(p, hs[0], Accepted(c, s', hs[1..]));
    }
  }

  lemma {:induction false} FirstAccepted(c: Config, s: Sync, hs: seq<Header>) returns (s': Sync)
    requires hs != [] && !(c.signet && s.work >= c.minWork) && PresyncAll(c, s, hs).1
    ensures PresyncOne(c, s, hs[0]) == (s', true) && PresyncAll(c, s, hs) == PresyncAll(c, s', hs[1..])
    ensures Accepted(c, s, hs) == [hs[0]] + Accepted(c, s', hs[1..])
  {
    s' := PresyncOne(c, s, hs[0]).0;
  }

  lemma {:induction false} AppendAfter(p: seq<Header>, h: Header, rest: seq<Header>)
    ensures p + [h] + rest == p + ([h] + rest)
  {
  }

  // ---- REDOWNLOAD ----

  ghost function CompressAll(hs: seq<Header>): (r: seq<CompressedHeader>)
    ensures |r| == |hs|
  {
    seq(|hs|, i requires 0 <= i < |hs| => Compress(hs[i]))
  }

  /** In REDOWNLOAD, having accepted p before and d now, of which the first n have been released. */
  ghost predicate InRedownload(c: Config, s: Sync, p: seq<Header>, d: seq<Header>, n: nat) {
    && s.phase == REDOWNLOAD && n <= |d| && Linked(c, d) && Checked(c, d)
    && s.buffer == CompressAll(d[n..]) && s.bufferFirstPrev == c.hash(Before(c, d, n))
    && s.bufferLastHeight == c.startHeight + |d| && s.bufferLastHash == c.hash(Tip(c, d))
    && s.redownloadWork == Work(c, d)
    && (s.processAll <==> Suffices(c, d))
    && (!s.processAll ==> Commitments(c, d) + s.commitments == Commitments(c, p))
    && (n == |d| ==> n == 0 || s.processAll)
  }

  lemma {:induction false} SwitchStarts(c: Config, s: Sync, p: seq<Header>)
    requires InPresync(c, s, p) && s.work >= c.minWork
    ensures InRedownload(c, MaybeSwitch(c, s), p, [], 0)
  {
    assert Commitments(c, []) + s.commitments == s.commitments;
  }

  lemma {:induction false} RedownloadStep(c: Config, s: Sync, p: seq<Header>, d: seq<Header>, n: nat, h: Header)
    requires InRedownload(c, s, p, d, n) && (n == |d| ==> d == []) && RedownloadOne(c, s, h).1
    ensures InRedownload(c, RedownloadOne(c, s, h).0, p, d + [h], n)
  {
    PreviousIsTip(c, s, p, d, n);
    ExtendChecked(c, d, h);
    Extend(c, d, h);
    assert (d + [h])[n..] == d[n..] + [h];
    assert CompressAll(d[n..] + [h]) == CompressAll(d[n..]) + [Compress(h)];
    assert n > 0 ==> (d + [h])[n - 1] == d[n - 1];
    RedownloadCommitments(c, s, p, d, n, h);
  }

  /** The buffer is empty only before the first header, so the difficulty is always compared with that of the true
      predecessor. */
  lemma {:induction false} PreviousIsTip(c: Config, s: Sync, p: seq<Header>, d: seq<Header>, n: nat)
    requires InRedownload(c, s, p, d, n) && (n == |d| ==> d == [])
    ensures PreviousBits(c, s) == Tip(c, d).bits
  {
    if d != [] {
      assert d[n..][|d| - n - 1] == d[|d| - 1];
    }
  }

  lemma {:induction false} RedownloadCommitments(c: Config, s: Sync, p: seq<Header>, d: seq<Header>, n: nat, h: Header)
    requires InRedownload(c, s, p, d, n) && RedownloadOne(c, s, h).1
    ensures var s' := RedownloadOne(c, s, h).0;
            !s'.processAll ==> Commitments(c, d + [h]) + s'.commitments == Commitments(c, p)
  {
    Extend(c, d, h);
    if !RedownloadOne(c, s, h).0.processAll && IsCommitted(c, HeightOf(c, |d|)) {
      MoveFront(Commitments(c, d), s.commitments);
    }
  }

  lemma {:induction false} MoveFront(a: seq<bool>, b: seq<bool>)
    requires b != []
    ensures a + b == a + [b[0]] + b[1..]
  {
  }

  lemma {:induction false} RedownloadMessage(c: Config, s: Sync, p: seq<Header>, d: seq<Header>, n: nat,
                                             hs: seq<Header>)
    requires InRedownload(c, s, p, d, n) && (n == |d| ==> d == []) && RedownloadAll(c, s, hs).1
    ensures InRedownload(c, RedownloadAll(c, s, hs).0, p, d + hs, n)
    decreases |hs|
  {
    if hs == [] {
      assert d + hs == d;
    } else {
      RedownloadStep(c, s, p, d, n, hs[0]);
      RedownloadMessage(c, RedownloadOne(c, s, hs[0]).0, p, d + [hs[0]], n, hs[1..]);
      assert d + [hs[0]] + hs[1..] == d + hs;
    }
  }

  /** Rebuilding a linked stretch from its compressed form gives it back. */
  lemma {:induction false} RebuildLinked(c: Config, d: seq<Header>, n: nat, m: nat)
    requires Linked(c, d) && n <= m <= |d|
    ensures Rebuild(c, CompressAll(d[n..m]), c.hash(Before(c, d, n))) == d[n..m]
    decreases m - n
  {
    if n < m {
      assert LinkedAt(c, d, n);
      CompressRoundTrip(d[n]);
      assert d[n..m] == [d[n]] + d[n + 1..m];
      assert CompressAll(d[n..m]) == [Compress(d[n])] + CompressAll(d[n + 1..m]);
      RebuildLinked(c, d, n + 1, m);
    }
  }

  /** Popping releases the next headers of d, unchanged. */
  lemma {:induction false} PopStep(c: Config, s: Sync, p: seq<Header>, d: seq<Header>, n: nat)
    requires InRedownload(c, s, p, d, n)
    ensures var m := n + ReadyCount(s);
            && m <= |d| && Popped(c, s).1 == d[n..m]
            && InRedownload(c, Popped(c, s).0, p, d, m)
            && (s.processAll ==> m == |d|)
            && (!s.processAll ==> |d| - m <= REDOWNLOAD_BUFFER_SIZE && (m > n ==> |d| - m == REDOWNLOAD_BUFFER_SIZE))
  {
    var r := ReadyCount(s);
    var m := n + r;
    assert s.buffer[..r] == CompressAll(d[n..m]);
    assert s.buffer[r..] == CompressAll(d[m..]);
    RebuildLinked(c, d, n, m);
    assert m > n ==> d[n..m][r - 1] == d[m - 1];
  }

  // ---- whole runs ----

  datatype Message = Message(headers: seq<Header>, full: bool)

  /** What a sync has accepted in PRESYNC, accepted in REDOWNLOAD, and released. */
  datatype History = History(presynced: seq<Header>, redownloaded: seq<Header>, released: seq<Header>)

  ghost function Record(c: Config, s: Sync, h: History, m: Message): History {
    var r := Process(c, s, m.headers, m.full).1;
    if m.headers == [] || s.phase == FINAL || !r.success then h
    else if s.phase == PRESYNC then h.(presynced := h.presynced + Accepted(c, s, m.headers))
    else h.(redownloaded := h.redownloaded + m.headers, released := h.released + r.released)
  }

  ghost function Run(c: Config, ms: seq<Message>): (Sync, History) {
    if ms == [] then (Start(c), History([], [], []))
    else
      var (s, h) := Run(c, ms[..|ms| - 1]);
      var m := ms[|ms| - 1];
      (Process(c, s, m.headers, m.full).0, Record(c, s, h, m))
  }

  /** What holds in every phase of the headers p accepted in PRESYNC, d accepted in REDOWNLOAD and r released. */
  ghost predicate HistoryOk(c: Config, p: seq<Header>, d: seq<Header>, r: seq<Header>) {
    && Linked(c, d) && Checked(c, d) && r <= d
    && (Work(c, d) < c.minWork ==> Guarded(c, p, d, |r|))
  }

  /** Below the target, the redownloaded chain agrees with all commitments so far, and what has been
      released lies deep in it. */
  ghost predicate Guarded(c: Config, p: seq<Header>, d: seq<Header>, n: nat) {
    && Commitments(c, d) <= Commitments(c, p)
    && (n > 0 ==> |d| - n >= REDOWNLOAD_BUFFER_SIZE)
  }

  ghost predicate Inv(c: Config, s: Sync, h: History) {
    && HistoryOk(c, h.presynced, h.redownloaded, h.released)
    && (s.phase == PRESYNC ==> InPresync(c, s, h.presynced) && h.redownloaded == [] && h.released == [])
    && (s.phase == REDOWNLOAD ==> InRedownload(c, s, h.presynced, h.redownloaded, |h.released|) && !s.processAll)
  }

  lemma {:induction false} PresyncInv(c: Config, s: Sync, h: History, m: Message)
    requires Inv(c, s, h) && s.phase == PRESYNC && m.headers != []
    ensures Inv(c, Process(c, s, m.headers, m.full).0, Record(c, s, h, m))
  {
    var (s', ok) := StoreCommitments(c, s, m.headers);
    if ok {
      PresyncMessage(c, s, h.presynced, m.headers);
      var s1 := PresyncAll(c, s, m.headers).0;
      if s1.work >= c.minWork {
        SwitchStarts(c, s1, h.presynced + Accepted(c, s, m.headers));
      }
    }
  }

  lemma {:induction false} RedownloadHistory(c: Config, s: Sync, p: seq<Header>, d: seq<Header>, n: nat, m: nat)
    requires InRedownload(c, s, p, d, m) && n <= m
    requires !s.processAll ==> n == m || |d| - m >= REDOWNLOAD_BUFFER_SIZE
    requires n > 0 ==> |d| - n >= REDOWNLOAD_BUFFER_SIZE
    ensures HistoryOk(c, p, d, d[..m])
  {
    if Work(c, d) < c.minWork {
      assert Commitments(c, p) == Commitments(c, d) + s.commitments;
    }
  }

  /** Releasing what is ready after a message has been stored, which makes d what has been redownloaded. */
  lemma {:induction false} Release(c: Config, s: Sync, p: seq<Header>, d: seq<Header>, n: nat) returns (m: nat)
    requires InRedownload(c, s, p, d, n) && (n > 0 ==> |d| - n >= REDOWNLOAD_BUFFER_SIZE)
    ensures n <= m <= |d| && Popped(c, s).1 == d[n..m] && InRedownload(c, Popped(c, s).0, p, d, m)
    ensures (Popped(c, s).0.processAll ==> m == |d|) && HistoryOk(c, p, d, d[..m])
  {
    m := n + ReadyCount(s);
    PopStep(c, s, p, d, n);
    RedownloadHistory(c, Popped(c, s).0, p, d, n, m);
  }

  lemma {:induction false} RedownloadInv(c: Config, s: Sync, h: History, m: Message)
    requires Inv(c, s, h) && s.phase == REDOWNLOAD && m.headers != []
    ensures Inv(c, Process(c, s, m.headers, m.full).0, Record(c, s, h, m))
  {
    if RedownloadAll(c, s, m.headers).1 {
      var s1, d' := RedownloadAll(c, s, m.headers).0, h.redownloaded + m.headers;
      RedownloadMessage(c, s, h.presynced, h.redownloaded, |h.released|, m.headers);
      var r' := ReleaseInv(c, s1, h, d', m.full);
      assert Record(c, s, h, m) == History(h.presynced, d', r');
    }
  }

  lemma {:induction false} ReleaseInv(c: Config, s: Sync, h: History, d: seq<Header>, full: bool)
    returns (r: seq<Header>)
    requires InRedownload(c, s, h.presynced, d, |h.released|) && h.released <= h.redownloaded < d
    requires |h.released| > 0 ==> |h.redownloaded| - |h.released| >= REDOWNLOAD_BUFFER_SIZE
    ensures r == h.released + Popped(c, s).1
    ensures var s', out := Popped(c, s).0, Popped(c, s).1;
            Inv(c, Finish(s', Result(true, !(s'.buffer == [] && s'.processAll) && full, out)).0,
                History(h.presynced, d, r))
  {
    var k := Release(c, s, h.presynced, d, |h.released|);
    ReleasedPrefix(h.released, h.redownloaded, d, k);
    r := d[..k];
    PoppedInv(c, Popped(c, s).0, History(h.presynced, d, r), full, Popped(c, s).1);
  }

  lemma {:induction false} PoppedInv(c: Config, s: Sync, h: History, full: bool, out: seq<Header>)
    requires InRedownload(c, s, h.presynced, h.redownloaded, |h.released|)
    requires (s.processAll ==> |h.released| == |h.redownloaded|)
    requires HistoryOk(c, h.presynced, h.redownloaded, h.released)
    ensures Inv(c, Finish(s, Result(true, !(s.buffer == [] && s.processAll) && full, out)).0, h)
  {
  }

  lemma {:induction false} ReleasedPrefix(released: seq<Header>, before: seq<Header>, d: seq<Header>, m: nat)
    requires released <= before <= d && |released| <= m <= |d|
    ensures released + d[|released|..m] == d[..m]
  {
  }

  lemma {:induction false} RunInv(c: Config, ms: seq<Message>)
    ensures Inv(c, Run(c, ms).0, Run(c, ms).1)
  {
    if ms != [] {
      var (s, h) := Run(c, ms[..|ms| - 1]);
      var m := ms[|ms| - 1];
      RunInv(c, ms[..|ms| - 1]);
      if m.headers != [] && s.phase == PRESYNC {
        PresyncInv(c, s, h, m);
      } else if m.headers != [] && s.phase == REDOWNLOAD {
        RedownloadInv(c, s, h, m);
      }
    }
  }

  // ---- safety ----

  /** Over any run, what has been released is a prefix of what was redownloaded, which is a chain that starts at the
      known block and in which each header passes the difficulty rule after its predecessor and, until the work
      suffices, the block pins; before REDOWNLOAD nothing has been released. */
  lemma {:induction false} ReleasesRedownloadedChain(c: Config, ms: seq<Message>)
    ensures var (s, h) := Run(c, ms);
            && h.released <= h.redownloaded && Linked(c, h.redownloaded) && Checked(c, h.redownloaded)
            && (s.phase == PRESYNC ==> h.released == [])
  {
    RunInv(c, ms);
  }

  /** The number of commitments in the first n headers of a chain. */
  ghost function CommitmentCount(c: Config, n: nat): nat {
    if n == 0 then 0 else CommitmentCount(c, n - 1) + if IsCommitted(c, HeightOf(c, n - 1)) then 1 else 0
  }

  lemma {:induction false} CommitmentsLength(c: Config, hs: seq<Header>)
    ensures |Commitments(c, hs)| == CommitmentCount(c, |hs|)
  {
    if hs != [] {
      CommitmentsLength(c, hs[..|hs| - 1]);
    }
  }

  lemma {:induction false} CountGrows(c: Config, n: nat, m: nat)
    requires n <= m
    ensures CommitmentCount(c, n) <= CommitmentCount(c, m)
    decreases m - n
  {
    if n < m {
      CountGrows(c, n, m - 1);
    }
  }

  /** Every full period holds a commitment. */
  lemma {:induction false} CountPeriods(c: Config, n: nat, k: nat)
    requires c.offset < HEADER_COMMITMENT_PERIOD
    ensures CommitmentCount(c, n + HEADER_COMMITMENT_PERIOD * k) >= CommitmentCount(c, n) + k
  {
    if k > 0 {
      CountPeriods(c, n, k - 1);
      var a := n + HEADER_COMMITMENT_PERIOD * (k - 1);
      var skip := (c.offset
                   + HEADER_COMMITMENT_PERIOD - HeightOf(c, a) % HEADER_COMMITMENT_PERIOD) % HEADER_COMMITMENT_PERIOD;
      var x := a + skip;
      HitsOffset(HeightOf(c, a), skip, c.offset);
      assert IsCommitted(c, HeightOf(c, x));
      CountGrows(c, a, x);
      CountGrows(c, x + 1, a + HEADER_COMMITMENT_PERIOD);
    }
  }

  lemma HitsOffset(h: nat, skip: nat, offset: nat)
    requires offset < HEADER_COMMITMENT_PERIOD
    requires skip == (offset + HEADER_COMMITMENT_PERIOD - h % HEADER_COMMITMENT_PERIOD) % HEADER_COMMITMENT_PERIOD
    ensures (h + skip) % HEADER_COMMITMENT_PERIOD == offset && skip < HEADER_COMMITMENT_PERIOD
  {
  }

  /** While the redownloaded chain is below the target work, every header that has been released has
      at least 23 commitments above it that were checked against PRESYNC. */
  lemma {:induction false} EarlyReleasesAreDeep(c: Config, ms: seq<Message>, i: nat)
    requires c.offset < HEADER_COMMITMENT_PERIOD
    requires var h := Run(c, ms).1; i < |h.released| && Work(c, h.redownloaded) < c.minWork
    ensures var h := Run(c, ms).1;
            && i < |h.redownloaded| && h.released[i] == h.redownloaded[i]
            && Commitments(c, h.redownloaded) <= Commitments(c, h.presynced)
            && |Commitments(c, h.redownloaded)| - |Commitments(c, h.redownloaded[..i + 1])| >= 23
  {
    RunInv(c, ms);
    var h := Run(c, ms).1;
    var n := |h.redownloaded|;
    CommitmentsLength(c, h.redownloaded);
    CommitmentsLength(c, h.redownloaded[..i + 1]);
    CountPeriods(c, i + 1, 23);
    CountGrows(c, i + 1 + HEADER_COMMITMENT_PERIOD * 23, n);
  }

  // ---- an honest peer succeeds ----

  /** The headers of a message follow one another. */
  ghost predicate Continuous(c: Config, hs: seq<Header>) {
    forall i {:trigger Follows(c, hs, i)} :: 0 < i < |hs| ==> Follows(c, hs, i)
  }

  ghost predicate Follows(c: Config, hs: seq<Header>, i: nat)
    requires 0 < i < |hs|
  {
    hs[i].prev == c.hash(hs[i - 1])
  }

  lemma {:induction false} ContinuousTail(c: Config, hs: seq<Header>)
    requires Continuous(c, hs) && hs != []
    ensures Continuous(c, hs[1..])
  {
    forall i | 0 < i < |hs[1..]| ensures Follows(c, hs[1..], i) {
      assert Follows(c, hs, i + 1);
    }
  }

  lemma {:induction false} AcceptedLinked(c: Config, s: Sync, p: seq<Header>, hs: seq<Header>)
    requires Linked(c, p) && Continuous(c, hs) && (hs != [] ==> hs[0].prev == c.hash(Tip(c, p)))
    ensures Linked(c, p + Accepted(c, s, hs))
    decreases |hs|
  {
    if hs == [] || (c.signet && s.work >= c.minWork) {
      assert p + [] == p;
    } else {
      Extend(c, p, hs[0]);
      ContinuousTail(c, hs);
      if |hs| > 1 {
        assert Follows(c, hs, 1);
      }
      var s' := PresyncOne(c, s, hs[0]).0;
      AcceptedLinked(c, s', p + [hs[0]], hs[1..]);
      assert p + [hs[0]] + Accepted(c, s', hs[1..]) == p + Accepted(c, s, hs);
    }
  }

  /** What PRESYNC has accepted is a chain that passed all checks; once in REDOWNLOAD it has the work. */
  ghost predicate Promised(c: Config, s: Sync, h: History) {
    && Linked(c, h.presynced)
    && (s.phase == REDOWNLOAD ==> Permitted(c, h.presynced) && Work(c, h.presynced) >= c.minWork)
  }

  lemma {:induction false} PresyncPromise(c: Config, s: Sync, h: History, m: Message)
    requires Inv(c, s, h) && Promised(c, s, h) && s.phase == PRESYNC && m.headers != [] && Continuous(c, m.headers)
    ensures Promised(c, Process(c, s, m.headers, m.full).0, Record(c, s, h, m))
  {
    if StoreCommitments(c, s, m.headers).1 {
      AcceptedLinked(c, s, h.presynced, m.headers);
      PresyncMessage(c, s, h.presynced, m.headers);
    }
  }

  lemma {:induction false} RunPromise(c: Config, ms: seq<Message>)
    requires forall i :: 0 <= i < |ms| ==> Continuous(c, ms[i].headers)
    ensures Promised(c, Run(c, ms).0, Run(c, ms).1)
  {
    if ms != [] {
      var ms', m := ms[..|ms| - 1], ms[|ms| - 1];
      var (s, h) := Run(c, ms');
      RunPromise(c, ms');
      RunInv(c, ms');
      if m.headers != [] && s.phase == PRESYNC {
        PresyncPromise(c, s, h, m);
      }
    }
  }

  lemma {:induction false} CommitmentsPrefix(c: Config, hs: seq<Header>, n: nat)
    requires n <= |hs|
    ensures Commitments(c, hs[..n]) <= Commitments(c, hs)
    decreases |hs|
  {
    if n < |hs| {
      assert hs[..|hs| - 1][..n] == hs[..n];
      CommitmentsPrefix(c, hs[..|hs| - 1], n);
    } else {
      assert hs[..n] == hs;
    }
  }

  /** The next commitment on record is that of the next header that has one. */
  lemma {:induction false} NextCommitment(c: Config, s: Sync, p: seq<Header>, d: seq<Header>)
    requires Commitments(c, d) + s.commitments == Commitments(c, p) && d < p && IsCommitted(c, HeightOf(c, |d|))
    ensures s.commitments != [] && s.commitments[0] == c.bit(c.hash(p[|d|]))
  {
    var n := |d|;
    assert p[..n + 1] == d + [p[n]];
    Extend(c, d, p[n]);
    CommitmentsPrefix(c, p, n + 1);
    var k := |Commitments(c, d)|;
    assert Commitments(c, p)[k] == c.bit(c.hash(p[n]));
  }

  lemma {:induction false} WorkGrows(c: Config, a: seq<Header>, b: seq<Header>)
    requires a <= b
    ensures Work(c, a) <= Work(c, b)
    decreases |b|
  {
    if a != b {
      assert a <= b[..|b| - 1];
      WorkGrows(c, a, b[..|b| - 1]);
    }
  }

  /** A chain whose beginning p PRESYNC accepted, with enough work, and the rest of which is in order too. */
  ghost predicate Continues(c: Config, p: seq<Header>, q: seq<Header>) {
    p <= q && Linked(c, q) && Permitted(c, q) && Work(c, p) >= c.minWork
  }

  /** A header of such a chain passes every check of REDOWNLOAD. */
  lemma {:induction false} HonestHeader(c: Config, s: Sync, p: seq<Header>, q: seq<Header>, d: seq<Header>, n: nat)
    requires InRedownload(c, s, p, d, n) && Continues(c, p, q) && d < q && (n < |d| || d == [])
    ensures RedownloadOne(c, s, q[|d|]).1
  {
    var h := q[|d|];
    assert LinkedAt(c, q, |d|) && PermittedAt(c, q, |d|);
    assert Before(c, q, |d|) == Tip(c, d);
    assert PreviousBits(c, s) == Tip(c, d).bits by {
      if n < |d| {
        assert s.buffer[|s.buffer| - 1] == Compress(d[n..][|d| - n - 1]);
      }
    }
    if !s.processAll && s.redownloadWork + c.work(h.bits) < c.minWork && IsCommitted(c, HeightOf(c, |d|)) {
      if |p| <= |d| {
        assert p <= d;
        WorkGrows(c, p, d);
      }
      assert d < p && p[|d|] == h;
      NextCommitment(c, s, p, d);
    }
  }

  lemma {:induction false} HonestMessage(c: Config, s: Sync, p: seq<Header>, q: seq<Header>, d: seq<Header>, n: nat,
                                         hs: seq<Header>)
    requires InRedownload(c, s, p, d, n) && Continues(c, p, q) && d + hs <= q && (n < |d| || d == [])
    ensures RedownloadAll(c, s, hs).1
    decreases |hs|
  {
    if hs != [] {
      var h := hs[0];
      assert (d + hs)[|d|] == h;
      HonestHeader(c, s, p, q, d, n);
      RedownloadStep(c, s, p, d, n, h);
      assert d + [h] + hs[1..] == d + hs;
      HonestMessage(c, RedownloadOne(c, s, h).0, p, q, d + [h], n, hs[1..]);
    }
  }

  ghost function Concat(bs: seq<Message>): seq<Header> {
    if bs == [] then [] else bs[0].headers + Concat(bs[1..])
  }

  datatype Outcome = Outcome(state: Sync, released: seq<Header>, allSucceeded: bool, allAsked: bool)

  /** Serve headers in some messages. */
  ghost function Serve(c: Config, s: Sync, bs: seq<Message>): Outcome
    decreases |bs|
  {
    if bs == [] then Outcome(s, [], true, true)
    else
      var (s', r) := Process(c, s, bs[0].headers, bs[0].full);
      var rest := Serve(c, s', bs[1..]);
      Outcome(rest.state, r.released + rest.released, r.success && rest.allSucceeded, r.requestMore && rest.allAsked)
  }

  /** A message is full, unless with it the work suffices. */
  ghost predicate FullBefore(c: Config, d: seq<Header>, bs: seq<Message>)
    decreases |bs|
  {
    bs != [] && Work(c, d + bs[0].headers) < c.minWork ==>
      bs[0].full && FullBefore(c, d + bs[0].headers, bs[1..])
  }

  /** One message of an honest peer: it succeeds, and either ends the sync with everything released or goes on. */
  lemma {:induction false} HonestBatch(c: Config, s: Sync, p: seq<Header>, q: seq<Header>, d: seq<Header>, n: nat,
                                       hs: seq<Header>, full: bool) returns (m: nat)
    requires InRedownload(c, s, p, d, n) && !s.processAll && Continues(c, p, q) && d + hs <= q && hs != []
    requires (n > 0 ==> |d| - n >= REDOWNLOAD_BUFFER_SIZE) && (Work(c, d + hs) < c.minWork ==> full)
    ensures var (s', r) := Process(c, s, hs, full);
            && r.success && n <= m <= |d + hs| && r.released == (d + hs)[n..m]
            && if Work(c, d + hs) >= c.minWork then s'.phase == FINAL && m == |d + hs|
               else
                 && InRedownload(c, s', p, d + hs, m) && !s'.processAll
                 && (m > 0 ==> |d + hs| - m >= REDOWNLOAD_BUFFER_SIZE)
  {
    HonestMessage(c, s, p, q, d, n, hs);
    RedownloadMessage(c, s, p, d, n, hs);
    var s1 := RedownloadAll(c, s, hs).0;
    m := Release(c, s1, p, d + hs, n);
  }

  /** Serving the first k batches, on top of d of which n have been released, completes the sync. */
  ghost predicate Completes(c: Config, s: Sync, d: seq<Header>, n: nat, bs: seq<Message>, k: nat)
    requires n <= |d| && k <= |bs|
  {
    var o := Serve(c, s, bs[..k]);
    && o.allSucceeded && o.state.phase == FINAL && d[..n] + o.released == d + Concat(bs[..k])
    && Work(c, d + Concat(bs[..k])) >= c.minWork
  }

  lemma {:induction false} CompletesNow(c: Config, s: Sync, d: seq<Header>, n: nat, bs: seq<Message>)
    requires n <= |d| && bs != [] && Work(c, d + bs[0].headers) >= c.minWork
    requires var (s', r) := Process(c, s, bs[0].headers, bs[0].full);
             r.success && s'.phase == FINAL && r.released == (d + bs[0].headers)[n..]
    ensures Completes(c, s, d, n, bs, 1)
  {
    var b, r := bs[0].headers, Process(c, s, bs[0].headers, bs[0].full).1;
    ServeFirst(c, s, bs, 0);
    assert r.released + [] == r.released && b + [] == b;
    assert d[..n] + (d + b)[n..] == d + b;
  }

  lemma {:induction false} CompletesLater(c: Config, s: Sync, d: seq<Header>, n: nat, m: nat, bs: seq<Message>,
                                          j: nat)
    requires bs != [] && n <= |d| && n <= m <= |d + bs[0].headers| && j < |bs|
    requires var (s', r) := Process(c, s, bs[0].headers, bs[0].full);
             r.success && r.released == (d + bs[0].headers)[n..m] && Completes(c, s', d + bs[0].headers, m, bs[1..], j)
    ensures Completes(c, s, d, n, bs, j + 1)
  {
    var b := bs[0].headers;
    var (s', r) := Process(c, s, b, bs[0].full);
    ServeFirst(c, s, bs, j);
    ReleasedPrefix(d[..n], d, d + b, m);
    Regroup(d[..n], r.released, Serve(c, s', bs[1..][..j]).released, d, b, Concat(bs[1..][..j]), (d + b)[..m]);
  }

  lemma {:induction false} HonestBatches(c: Config, s: Sync, p: seq<Header>, q: seq<Header>, d: seq<Header>, n: nat,
                                         bs: seq<Message>) returns (k: nat)
    requires InRedownload(c, s, p, d, n) && !s.processAll && (n > 0 ==> |d| - n >= REDOWNLOAD_BUFFER_SIZE)
    requires Continues(c, p, q) && c.startWork < c.minWork
    requires FullBefore(c, d, bs) && d + Concat(bs) == q && forall i :: 0 <= i < |bs| ==> bs[i].headers != []
    ensures k <= |bs| && Completes(c, s, d, n, bs, k)
    decreases |bs|
  {
    assert Work(c, d) < c.minWork;
    WorkGrows(c, p, q);
    assert bs == [] ==> d + Concat(bs) == d;
    var d' := d + bs[0].headers;
    assert d' + Concat(bs[1..]) == q;
    var m := HonestBatch(c, s, p, q, d, n, bs[0].headers, bs[0].full);
    if Work(c, d') >= c.minWork {
      CompletesNow(c, s, d, n, bs);
      k := 1;
    } else {
      var j := HonestBatches(c, Process(c, s, bs[0].headers, bs[0].full).0, p, q, d', m, bs[1..]);
      CompletesLater(c, s, d, n, m, bs, j);
      k := j + 1;
    }
  }

  lemma {:induction false} ServeFirst(c: Config, s: Sync, bs: seq<Message>, j: nat)
    requires j < |bs|
    ensures var (s', r) := Process(c, s, bs[0].headers, bs[0].full);
            var rest := Serve(c, s', bs[1..][..j]);
            Serve(c, s, bs[..j + 1]) == Outcome(rest.state, r.released + rest.released, r.success && rest.allSucceeded,
                                                r.requestMore && rest.allAsked)
    ensures Concat(bs[..j + 1]) == bs[0].headers + Concat(bs[1..][..j])
  {
    assert bs[..j + 1][1..] == bs[1..][..j];
  }

  lemma {:induction false} Regroup(a: seq<Header>, x: seq<Header>, y: seq<Header>, d: seq<Header>, b: seq<Header>,
                                   z: seq<Header>, ax: seq<Header>)
    requires a + x == ax && ax + y == (d + b) + z
    ensures a + (x + y) == d + (b + z) && (d + b) + z == d + (b + z)
  {
    assert a + (x + y) == (a + x) + y;
  }

  /** If, after any run that led to REDOWNLOAD, a peer serves a chain that continues what PRESYNC accepted, in any
      messages that are full until the work suffices, then every message succeeds until the sync is complete, and what
      is released is what was served, up to and including the message with the header that reaches the work target. */
  lemma {:induction false} HonestRedownload(c: Config, ms: seq<Message>, q: seq<Header>, bs: seq<Message>)
    returns (k: nat)
    requires c.startWork < c.minWork && forall i :: 0 <= i < |ms| ==> Continuous(c, ms[i].headers)
    requires Run(c, ms).0.phase == REDOWNLOAD && Run(c, ms).1.redownloaded == []
    requires q == Run(c, ms).1.presynced || (Run(c, ms).1.presynced <= q && Linked(c, q) && Permitted(c, q))
    requires Concat(bs) == q && (forall i :: 0 <= i < |bs| ==> bs[i].headers != []) && FullBefore(c, [], bs)
    ensures k <= |bs|
    ensures var o := Serve(c, Run(c, ms).0, bs[..k]);
            && o.allSucceeded && o.state.phase == FINAL && o.released == Concat(bs[..k])
            && Work(c, Concat(bs[..k])) >= c.minWork
  {
    RunInv(c, ms);
    RunPromise(c, ms);
    var (s, h) := Run(c, ms);
    assert [] + Concat(bs) == Concat(bs);
    k := HonestBatches(c, s, h.presynced, q, [], 0, bs);
    var o := Serve(c, s, bs[..k]);
    assert [] + Concat(bs[..k]) == Concat(bs[..k]) && [] + o.released == o.released;
  }

  // ---- and gets there ----

  lemma {:induction false} CommitmentsGrow(c: Config, a: seq<Header>, b: seq<Header>)
    requires a <= b
    ensures |Commitments(c, a)| <= |Commitments(c, b)|
  {
    assert b[..|a|] == a;
    CommitmentsPrefix(c, b, |a|);
  }

  /** A chain that PRESYNC has no reason to refuse. */
  ghost predicate InOrder(c: Config, q: seq<Header>) {
    Linked(c, q) && Permitted(c, q) && |Commitments(c, q)| <= c.maxCommitments
  }

  lemma {:induction false} HonestFirst(c: Config, s: Sync, q: seq<Header>, p: seq<Header>)
    requires InPresync(c, s, p) && InOrder(c, q) && p < q
    ensures PresyncOne(c, s, q[|p|]).1
  {
    var h := q[|p|];
    assert PermittedAt(c, q, |p|) && Before(c, q, |p|) == Tip(c, p);
    assert HeightOf(c, |p|) == s.height + 1;
    Extend(c, p, h);
    assert p + [h] <= q;
    CommitmentsGrow(c, p + [h], q);
  }

  lemma {:induction false} HonestHeaders(c: Config, s: Sync, q: seq<Header>, p: seq<Header>, hs: seq<Header>)
    requires InPresync(c, s, p) && InOrder(c, q) && p + hs <= q
    ensures PresyncAll(c, s, hs).1
    decreases |hs|
  {
    if hs != [] && !(c.signet && s.work >= c.minWork) {
      assert (p + hs)[|p|] == hs[0];
      HonestFirst(c, s, q, p);
      var s' := PresyncOne(c, s, hs[0]).0;
      PresyncStep(c, s, p, hs[0], s');
      assert p + [hs[0]] + hs[1..] == p + hs;
      HonestHeaders(c, s', q, p + [hs[0]], hs[1..]);
    }
  }

  /** All of a message is accepted, unless the work suffices before its end. */
  lemma {:induction false} AcceptedMost(c: Config, s: Sync, p: seq<Header>, hs: seq<Header>)
    requires InPresync(c, s, p) && PresyncAll(c, s, hs).1
    ensures Accepted(c, s, hs) <= hs && (!c.signet ==> Accepted(c, s, hs) == hs)
    ensures Accepted(c, s, hs) == hs || Work(c, p + Accepted(c, s, hs)) >= c.minWork
    decreases |hs|
  {
    if hs == [] || (c.signet && s.work >= c.minWork) {
      assert p + [] == p;
    } else {
      var s' := FirstAccepted(c, s, hs);
      PresyncStep(c, s, p, hs[0], s');
      AcceptedMost(c, s', p + [hs[0]], hs[1..]);
      AppendAfter(p, hs[0], Accepted(c, s', hs[1..]));
      assert hs == [hs[0]] + hs[1..];
    }
  }

  /** One message of such a chain in PRESYNC: it succeeds, more is asked for, and the sync goes on, in REDOWNLOAD if
      the work suffices. */
  lemma {:induction false} HonestPresyncMessage(c: Config, s: Sync, q: seq<Header>, p: seq<Header>, m: Message)
    returns (p': seq<Header>)
    requires InPresync(c, s, p) && InOrder(c, q) && p + m.headers <= q && m.headers != []
    requires Work(c, p + m.headers) < c.minWork ==> m.full
    ensures p <= p' <= p + m.headers && p' == p + Accepted(c, s, m.headers)
    ensures !c.signet || Work(c, p + m.headers) < c.minWork ==> p' == p + m.headers
    ensures var (s', r) := Process(c, s, m.headers, m.full);
            && r.success && r.requestMore && r.released == []
            && if Work(c, p + m.headers) >= c.minWork
               then InRedownload(c, s', p', [], 0) && Work(c, p') >= c.minWork && !s'.processAll
               else InPresync(c, s', p + m.headers)
  {
    var hs := m.headers;
    assert LinkedAt(c, q, |p|) && q[|p|] == (p + hs)[|p|] && Before(c, q, |p|) == Tip(c, p);
    HonestHeaders(c, s, q, p, hs);
    AcceptedMost(c, s, p, hs);
    PresyncMessage(c, s, p, hs);
    p' := p + Accepted(c, s, hs);
    WorkGrows(c, p', p + hs);
    var s1 := PresyncAll(c, s, hs).0;
    if s1.work >= c.minWork {
      SwitchStarts(c, s1, p');
    }
  }

  /** The first k messages lead to REDOWNLOAD, having brought what is accepted from p to p'. */
  ghost predicate Arrives(c: Config, s: Sync, p: seq<Header>, ms: seq<Message>, k: nat, p': seq<Header>)
    requires k <= |ms|
  {
    var o := Serve(c, s, ms[..k]);
    && o.allSucceeded && o.allAsked && o.released == [] && InRedownload(c, o.state, p', [], 0)
    && !o.state.processAll && Work(c, p') >= c.minWork
    && p' <= p + Concat(ms[..k]) && (!c.signet ==> p' == p + Concat(ms[..k]))
  }

  lemma {:induction false} ArrivesNow(c: Config, s: Sync, p: seq<Header>, ms: seq<Message>, p': seq<Header>)
    requires ms != [] && p' <= p + ms[0].headers && (!c.signet ==> p' == p + ms[0].headers)
    requires var (s', r) := Process(c, s, ms[0].headers, ms[0].full);
             && r.success && r.requestMore && r.released == [] && InRedownload(c, s', p', [], 0) && !s'.processAll
    requires Work(c, p') >= c.minWork
    ensures Arrives(c, s, p, ms, 1, p')
  {
    ServeFirst(c, s, ms, 0);
    assert ms[0].headers + [] == ms[0].headers;
  }

  lemma {:induction false} ArrivesLater(c: Config, s: Sync, p: seq<Header>, ms: seq<Message>, j: nat, p': seq<Header>)
    requires ms != [] && j < |ms|
    requires var (s', r) := Process(c, s, ms[0].headers, ms[0].full);
             r.success && r.requestMore && r.released == [] && Arrives(c, s', p + ms[0].headers, ms[1..], j, p')
    ensures Arrives(c, s, p, ms, j + 1, p')
  {
    ServeFirst(c, s, ms, j);
    assert p + ms[0].headers + Concat(ms[1..][..j]) == p + (ms[0].headers + Concat(ms[1..][..j]));
  }

  /** Messages of such a chain lead to REDOWNLOAD. */
  lemma {:induction false} HonestPresync(c: Config, s: Sync, q: seq<Header>, p: seq<Header>, ms: seq<Message>)
    returns (k: nat, p': seq<Header>)
    requires InPresync(c, s, p) && InOrder(c, q) && p + Concat(ms) == q && FullBefore(c, p, ms)
    requires (forall i :: 0 <= i < |ms| ==> ms[i].headers != []) && Work(c, p) < c.minWork <= Work(c, q)
    ensures k <= |ms| && Arrives(c, s, p, ms, k, p')
    decreases |ms|
  {
    assert ms == [] ==> p + Concat(ms) == p;
    var m := ms[0];
    assert p + m.headers + Concat(ms[1..]) == q;
    p' := HonestPresyncMessage(c, s, q, p, m);
    if Work(c, p + m.headers) >= c.minWork {
      k := 1;
      ArrivesNow(c, s, p, ms, p');
    } else {
      var j;
      j, p' := HonestPresync(c, Process(c, s, m.headers, m.full).0, q, p + m.headers, ms[1..]);
      k := j + 1;
      ArrivesLater(c, s, p, ms, j, p');
    }
  }

  /** A peer that serves a chain in order and with enough work twice, cut into any messages that are full until the
      work suffices, succeeds: every message of the first download succeeds and is followed by a request for more until
      REDOWNLOAD begins, having accepted the beginning of the chain; every message of the second one succeeds until the
      sync is complete, and all that was served then is released. */
  lemma {:induction false} HonestPeerSucceeds(c: Config, q: seq<Header>, ms: seq<Message>, bs: seq<Message>)
    returns (k: nat, j: nat, p: seq<Header>)
    requires InOrder(c, q) && c.startWork < c.minWork <= Work(c, q)
    requires Concat(ms) == q && (forall i :: 0 <= i < |ms| ==> ms[i].headers != []) && FullBefore(c, [], ms)
    requires Concat(bs) == q && (forall i :: 0 <= i < |bs| ==> bs[i].headers != []) && FullBefore(c, [], bs)
    ensures k <= |ms| && j <= |bs| && p <= Concat(ms[..k]) && (!c.signet ==> p == Concat(ms[..k]))
    ensures var o := Serve(c, Start(c), ms[..k]);
            && o.allSucceeded && o.allAsked && o.released == [] && o.state.phase == REDOWNLOAD
            && o.state.commitments == Commitments(c, p) && Work(c, p) >= c.minWork
            && var o' := Serve(c, o.state, bs[..j]);
               && o'.allSucceeded && o'.state.phase == FINAL && o'.released == Concat(bs[..j])
               && Work(c, Concat(bs[..j])) >= c.minWork
  {
    assert [] + Concat(ms) == Concat(ms) && [] + Concat(bs) == Concat(bs);
    k, p := HonestPresync(c, Start(c), q, [], ms);
    assert [] + Concat(ms[..k]) == Concat(ms[..k]);
    var s := Serve(c, Start(c), ms[..k]).state;
    ConcatPrefix(ms, k);
    assert [] + s.commitments == s.commitments && Commitments(c, []) == [];
    j := HonestBatches(c, s, p, q, [], 0, bs);
    var o := Serve(c, s, bs[..j]);
    assert [] + Concat(bs[..j]) == Concat(bs[..j]) && [] + o.released == o.released;
  }

  lemma {:induction false} ConcatPrefix(ms: seq<Message>, k: nat)
    requires k <= |ms|
    ensures Concat(ms[..k]) <= Concat(ms)
  {
    if k > 0 {
      assert ms[..k][1..] == ms[1..][..k - 1];
      ConcatPrefix(ms[1..], k - 1);
    }
  }

  // ---- what is kept is bounded ----

  ghost predicate Bounded(c: Config, s: Sync) {
    |s.commitments| <= c.maxCommitments && |s.buffer| <= REDOWNLOAD_BUFFER_SIZE
  }

  lemma {:induction false} PresyncBounded(c: Config, s: Sync, hs: seq<Header>)
    requires Bounded(c, s) && PresyncAll(c, s, hs).1
    ensures Bounded(c, PresyncAll(c, s, hs).0)
    decreases |hs|
  {
    if hs != [] && !(c.signet && s.work >= c.minWork) {
      PresyncBounded(c, PresyncOne(c, s, hs[0]).0, hs[1..]);
    }
  }

  lemma {:induction false} RedownloadBounded(c: Config, s: Sync, hs: seq<Header>)
    requires |s.commitments| <= c.maxCommitments
    ensures |RedownloadAll(c, s, hs).0.commitments| <= c.maxCommitments
    decreases |hs|
  {
    if hs != [] {
      RedownloadBounded(c, RedownloadOne(c, s, hs[0]).0, hs[1..]);
    }
  }

  lemma {:induction false} ProcessBounded(c: Config, s: Sync, m: Message)
    requires Bounded(c, s)
    ensures Bounded(c, Process(c, s, m.headers, m.full).0)
  {
    if s.phase == PRESYNC {
      if m.headers != [] && StoreCommitments(c, s, m.headers).1 {
        PresyncBounded(c, s, m.headers);
      }
    } else if s.phase == REDOWNLOAD {
      RedownloadBounded(c, s, m.headers);
    }
  }

  /** After any messages from anyone, there are no more commitments than allowed, and no more headers in the buffer
      than its size. */
  lemma {:induction false} MemoryIsBounded(c: Config, ms: seq<Message>)
    ensures var s := Run(c, ms).0;
            |s.commitments| <= c.maxCommitments && |s.buffer| <= REDOWNLOAD_BUFFER_SIZE
  {
    if ms != [] {
      MemoryIsBounded(c, ms[..|ms| - 1]);
      ProcessBounded(c, Run(c, ms[..|ms| - 1]).0, ms[|ms| - 1]);
    }
  }

  // ---- when it ends ----

  /** A sync goes on after a message only if that was accepted, and either full or the one that led to REDOWNLOAD. */
  lemma {:induction false} OnlyFullGoesOn(c: Config, s: Sync, m: Message)
    requires s.phase != FINAL && m.headers != []
    ensures var (s', r) := Process(c, s, m.headers, m.full);
            && (s'.phase != FINAL <==> r.success && r.requestMore)
            && (s'.phase != FINAL ==> m.full || (s.phase == PRESYNC && s'.phase == REDOWNLOAD))
            && (s'.phase == PRESYNC ==> s'.work < c.minWork)
            && (s'.phase == REDOWNLOAD && s.phase == PRESYNC ==> s'.work >= c.minWork)
  {
    if s.phase == PRESYNC {
      PresyncPhase(c, s, m.headers);
    } else {
      RedownloadPhase(c, s, m.headers);
    }
  }

  lemma {:induction false} PresyncPhase(c: Config, s: Sync, hs: seq<Header>)
    ensures PresyncAll(c, s, hs).0.phase == s.phase
    decreases |hs|
  {
    if hs != [] && !(c.signet && s.work >= c.minWork) {
      PresyncPhase(c, PresyncOne(c, s, hs[0]).0, hs[1..]);
    }
  }

  lemma {:induction false} RedownloadPhase(c: Config, s: Sync, hs: seq<Header>)
    ensures RedownloadAll(c, s, hs).0.phase == s.phase
    decreases |hs|
  {
    if hs != [] {
      RedownloadPhase(c, RedownloadOne(c, s, hs[0]).0, hs[1..]);
    }
  }
}
