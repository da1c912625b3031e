/** The queue of script checks: one master and any number of workers share a queue under one mutex.
    Every critical section is one atomic step, and a run is any interleaving of such steps, spurious
    wake-ups included. */
module CheckQueues {
  import opened Options

  /** Where a thread is. */
  datatype Place =
    | Outside                    // the master, between calls
    | Notifying(all: bool)       // the master, having added checks, about to notify the workers
    | Entering                   // about to take the mutex at the top of the loop
    | Waiting(notified: bool)    // on its condition variable
    | Working                    // with a batch, without the mutex
    | Exited                     // a worker that saw the stop request

  /** The local variables of a thread. The batch stays on record until the thread has cleaned up after it. */
  datatype Thread<T, R> = Thread(place: Place, nNow: nat, batch: seq<T>, doWork: bool, localResult: Option<R>)

  /** What one call of Complete covered and returned. */
  datatype Session<T, R> = Session(added: seq<T>, retired: seq<T>, outcome: Option<R>)

  /** Thread 0 is the master. The last three fields are history: the checks added and retired since
      the last call of Complete returned, and the calls that have returned. */
  datatype State<T, R> = State(
    queue: seq<T>, nIdle: int, nTotal: int, result: Option<R>, nTodo: int, stop: bool,
    threads: seq<Thread<T, R>>,
    added: seq<T>, retired: seq<T>, sessions: seq<Session<T, R>>)

  // ---- what the threads do ----

  /** The first check of a batch that fails decides; None if all pass. */
  function FirstFailure<T, R>(f: T -> Option<R>, batch: seq<T>): Option<R> {
    if batch == [] then None
    else if f(batch[0]).Some? then f(batch[0])
    else FirstFailure(f, batch[1..])
  }

  /** How many checks to take from a queue of the given length. */
  function BatchLength(batchSize: nat, queued: nat, nTotal: int, nIdle: int): nat {
    var share := if nTotal + nIdle + 1 > 0 then queued / (nTotal + nIdle + 1) else 0;
    var n := if batchSize < share then batchSize else share;
    if n < 1 then 1 else n
  }

  function MoveTo<T, R>(s: State<T, R>, t: nat, place: Place): State<T, R>
    requires t < |s.threads|
  {
    s.(threads := s.threads[t := s.threads[t].(place := place)])
  }

  /** A waiting thread that is notified becomes ready to wake. */
  function Notified<T, R>(th: Thread<T, R>): Thread<T, R> {
    if th.place.Waiting? then th.(place := Waiting(true)) else th
  }

  /** The clean-up after the previous batch; the first time round, the thread is counted instead. */
  function CleanUp<T, R>(s: State<T, R>, t: nat): State<T, R>
    requires t < |s.threads|
  {
    var th := s.threads[t];
    if th.nNow == 0 then s.(nTotal := s.nTotal + 1)
    else
      var swap := th.localResult.Some? && s.result.None?;
      var s' := s.(result := if swap then th.localResult else s.result,
                   nTodo := s.nTodo - th.nNow,
                   retired := s.retired + th.batch,
                   threads := s.threads[t := th.(batch := [], localResult := if swap then None else th.localResult)]);
      if s'.nTodo == 0 && t != 0 then s'.(threads := s'.threads[0 := Notified(s'.threads[0])]) else s'
  }

  /** The rest of the critical section: return, wait, or take a batch. */
  function Proceed<T, R>(batchSize: nat, s: State<T, R>, t: nat): State<T, R>
    requires t < |s.threads|
  {
    if s.stop then MoveTo(s, t, Exited)
    else if s.queue == [] then
      if t == 0 && s.nTodo == 0 then
        MoveTo(s, t, Outside).(nTotal := s.nTotal - 1, result := None, added := [], retired := [],
                              sessions := s.sessions + [Session(s.added, s.retired, s.result)])
      else MoveTo(s, t, Waiting(false)).(nIdle := s.nIdle + 1)
    else
      var n := BatchLength(batchSize, |s.queue|, s.nTotal, s.nIdle);
      var start := if n <= |s.queue| then |s.queue| - n else 0;
      var th := s.threads[t].(place := Working, nNow := n, batch := s.queue[start..], doWork := s.result.None?);
      s.(queue := s.queue[..start], threads := s.threads[t := th])
  }

  // ---- steps ----

  datatype Step<T> =
    | AddChecks(checks: seq<T>)
    | NotifyWorkers(who: nat)
    | CallComplete
    | Enter(t: nat)
    | Wake(t: nat)
    | Work(t: nat)
    | RequestStop

  ghost predicate Enabled<T, R>(s: State<T, R>, step: Step<T>) {
    && |s.threads| > 0
    && match step
       case AddChecks(_) => s.threads[0].place.Outside? && !s.stop
       case NotifyWorkers(who) => s.threads[0].place.Notifying? && (s.threads[0].place.all || CanNotify(s, who))
       case CallComplete => s.threads[0].place.Outside? && !s.stop
       case Enter(t) => t < |s.threads| && s.threads[t].place.Entering?
       case Wake(t) => t < |s.threads| && s.threads[t].place.Waiting?
       case Work(t) => t < |s.threads| && s.threads[t].place.Working?
       case RequestStop => s.threads[0].place.Outside? && !s.stop
  }

  /** Notifying one worker reaches a waiting one, if there is one. */
  ghost predicate CanNotify<T, R>(s: State<T, R>, who: nat) {
    (exists i :: 0 < i < |s.threads| && s.threads[i].place == Waiting(false)) ==>
      0 < who < |s.threads| && s.threads[who].place == Waiting(false)
  }

  function NotifyAll<T, R>(threads: seq<Thread<T, R>>): (r: seq<Thread<T, R>>)
    ensures |r| == |threads|
  {
    if threads == [] then [] else [Notified(threads[0])] + NotifyAll(threads[1..])
  }

  function Apply<T, R>(f: T -> Option<R>, batchSize: nat, s: State<T, R>, step: Step<T>): State<T, R>
    requires |s.threads| > 0
    requires (step.Enter? || step.Wake? || step.Work?) ==> step.t < |s.threads|
  {
    match step
    case AddChecks(checks) =>
      if checks == [] then s
      else MoveTo(s, 0, Notifying(|checks| != 1)).(queue := s.queue + checks, nTodo := s.nTodo + |checks|,
                                                   added := s.added + checks)
    case NotifyWorkers(who) =>
      var all := s.threads[0].place.Notifying? && s.threads[0].place.all;
      var s' := MoveTo(s, 0, Outside);
      if all then s'.(threads := [s'.threads[0]] + NotifyAll(s'.threads[1..]))
      else if 0 < who < |s.threads| then s'.(threads := s'.threads[who := Notified(s'.threads[who])])
      else s'
    case CallComplete => s.(threads := s.threads[0 := Thread(Entering, 0, [], false, None)])
    case Enter(t) => Proceed(batchSize, CleanUp(s, t), t)
    case Wake(t) => Proceed(batchSize, s.(nIdle := s.nIdle - 1), t)
    case Work(t) =>
      var th := s.threads[t];
      var found := if th.doWork then FirstFailure(f, th.batch) else th.localResult;
      s.(threads := s.threads[t := th.(place := Entering, localResult := found)])
    case RequestStop => s.(stop := true, threads := [s.threads[0]] + NotifyAll(s.threads[1..]))
  }

  ghost predicate Init<T, R>(s: State<T, R>) {
    && s.queue == [] && s.nIdle == 0 && s.nTotal == 0 && s.result.None? && s.nTodo == 0 && !s.stop
    && s.added == [] && s.retired == [] && s.sessions == []
    && |s.threads| > 0 && s.threads[0] == Thread(Outside, 0, [], false, None)
    && forall i :: 0 < i < |s.threads| ==> s.threads[i] == Thread(Entering, 0, [], false, None)
  }

  ghost predicate Next<T, R>(f: T -> Option<R>, batchSize: nat, s: State<T, R>, step: Step<T>, s': State<T, R>) {
    Enabled(s, step) && s' == Apply(f, batchSize, s, step)
  }

  // ---- sums over threads ----

  function Total<T, R>(threads: seq<Thread<T, R>>, w: Thread<T, R> -> nat): nat {
    if threads == [] then 0 else w(threads[0]) + Total(threads[1..], w)
  }

  lemma {:induction false} TotalUpdate<T, R>(threads: seq<Thread<T, R>>, w: Thread<T, R> -> nat, t: nat,
                                             th: Thread<T, R>)
    requires t < |threads|
    ensures Total(threads[t := th], w) == Total(threads, w) - w(threads[t]) + w(th)
  {
    var changed := threads[t := th];
    if t == 0 {
      assert changed[1..] == threads[1..];
    } else {
      assert changed[1..] == threads[1..][t - 1 := th];
      TotalUpdate(threads[1..], w, t - 1, th);
    }
  }

  /** All batches that are out with some thread. */
  ghost function InFlight<T, R>(threads: seq<Thread<T, R>>): multiset<T> {
    if threads == [] then multiset{} else multiset(threads[0].batch) + InFlight(threads[1..])
  }

  lemma {:induction false} InFlightUpdate<T, R>(threads: seq<Thread<T, R>>, t: nat, th: Thread<T, R>)
    requires t < |threads|
    ensures InFlight(threads[t := th]) + multiset(threads[t].batch) == InFlight(threads) + multiset(th.batch)
  {
    var changed := threads[t := th];
    if t == 0 {
      assert changed[1..] == threads[1..];
    } else {
      assert changed[1..] == threads[1..][t - 1 := th];
      InFlightUpdate(threads[1..], t - 1, th);
      AddToBoth(multiset(threads[0].batch), InFlight(changed[1..]), multiset(threads[t].batch),
                InFlight(threads[1..]), multiset(th.batch));
    }
  }

  lemma {:induction false} AddToBoth<T>(a: multiset<T>, x: multiset<T>, b: multiset<T>, y: multiset<T>, c: multiset<T>)
    requires x + b == y + c
    ensures (a + x) + b == (a + y) + c
  {
    assert (a + x) + b == a + (x + b);
    assert (a + y) + c == a + (y + c);
  }

  function WaitWeight<T, R>(th: Thread<T, R>): nat {
    if th.place.Waiting? then 1 else 0
  }

  /** Threads that have passed the first critical section of the loop and not returned. */
  function InsideWeight<T, R>(th: Thread<T, R>): nat {
    if th.place.Waiting? || th.place.Working? || th.place.Exited? || (th.place.Entering? && th.nNow > 0) then 1 else 0
  }

  // ---- the invariant ----

  ghost predicate AllPass<T, R>(f: T -> Option<R>, checks: seq<T>) {
    forall c :: c in checks ==> f(c).None?
  }

  ghost predicate SomeFails<T(!new), R>(f: T -> Option<R>, checks: seq<T>, r: Option<R>) {
    exists c :: c in checks && f(c) == r
  }

  ghost predicate ThreadOk<T, R>(f: T -> Option<R>, result: Option<R>, th: Thread<T, R>) {
    match th.place
    case Working => |th.batch| == th.nNow > 0 && (!th.doWork ==> result.Some?)
    case Entering =>
      && |th.batch| == th.nNow
      && (th.nNow > 0 ==> if th.doWork then th.localResult == FirstFailure(f, th.batch) else result.Some?)
    case _ => th.batch == []
  }

  ghost predicate RoleOk<T, R>(t: nat, th: Thread<T, R>) {
    if t == 0 then !th.place.Exited? else !th.place.Outside? && !th.place.Notifying?
  }

  ghost predicate ThreadsOk<T, R>(f: T -> Option<R>, result: Option<R>, threads: seq<Thread<T, R>>) {
    forall i :: 0 <= i < |threads| ==> ThreadOk(f, result, threads[i]) && RoleOk(i, threads[i])
  }

  /** Nothing that has been retired failed unless the result says so, and the result is that of an added check. */
  ghost predicate ResultOk<T(!new), R>(f: T -> Option<R>, s: State<T, R>) {
    if s.result.None? then AllPass(f, s.retired) else SomeFails(f, s.added, s.result)
  }

  ghost predicate SessionOk<T(!new), R>(f: T -> Option<R>, e: Session<T, R>) {
    && multiset(e.retired) == multiset(e.added)
    && if e.outcome.None? then AllPass(f, e.added) else SomeFails(f, e.added, e.outcome)
  }

  ghost predicate CountsOk<T, R>(s: State<T, R>) {
    && s.nTodo == |s.queue| + |InFlight(s.threads)|
    && s.nIdle == Total(s.threads, WaitWeight) && s.nTotal == Total(s.threads, InsideWeight)
    && multiset(s.added) == multiset(s.queue) + InFlight(s.threads) + multiset(s.retired)
  }

  /** A master that waits without having been notified has something to wait for. */
  ghost predicate MasterOk<T, R>(s: State<T, R>)
    requires |s.threads| > 0
  {
    && (s.threads[0].place == Waiting(false) ==> s.queue == [] && s.nTodo > 0)
    && (s.threads[0].place == Waiting(true) ==> s.queue == [])
    && (s.stop ==> s.threads[0].place.Outside?)
  }

  ghost predicate Inv<T(!new), R>(f: T -> Option<R>, s: State<T, R>) {
    && |s.threads| > 0
    && ThreadsOk(f, s.result, s.threads) && CountsOk(s) && ResultOk(f, s) && MasterOk(s)
    && forall i :: 0 <= i < |s.sessions| ==> SessionOk(f, s.sessions[i])
  }

  // ---- every step keeps the invariant ----

  lemma {:induction false} FirstFailureIs<T(!new), R>(f: T -> Option<R>, batch: seq<T>)
    ensures FirstFailure(f, batch).None? <==> AllPass(f, batch)
    ensures FirstFailure(f, batch).Some? ==> SomeFails(f, batch, FirstFailure(f, batch))
  {
    if batch != [] {
      FirstFailureIs(f, batch[1..]);
      assert batch == [batch[0]] + batch[1..];
    }
  }

  lemma {:induction false} SomeFailsMore<T(!new), R>(f: T -> Option<R>, a: seq<T>, b: seq<T>, r: Option<R>)
    requires SomeFails(f, a, r) && multiset(a) <= multiset(b)
    ensures SomeFails(f, b, r)
  {
    var c :| c in a && f(c) == r;
    assert c in multiset(a);
    assert c in multiset(b);
  }

  lemma {:induction false} OneOfMany<T, R>(threads: seq<Thread<T, R>>, t: nat)
    requires t < |threads|
    ensures multiset(threads[t].batch) <= InFlight(threads)
  {
    if t > 0 {
      OneOfMany(threads[1..], t - 1);
    }
  }

  /** What holds of the state while thread t has the mutex, between cleaning up and letting go. */
  ghost predicate Held<T(!new), R>(f: T -> Option<R>, s: State<T, R>, t: nat) {
    && t < |s.threads| && s.threads[t].batch == []
    && (forall i :: 0 <= i < |s.threads| && i != t ==> ThreadOk(f, s.result, s.threads[i]) && RoleOk(i, s.threads[i]))
    && s.nTodo == |s.queue| + |InFlight(s.threads)|
    && s.nIdle == Total(s.threads, WaitWeight) - WaitWeight(s.threads[t])
    && s.nTotal == Total(s.threads, InsideWeight) - InsideWeight(s.threads[t]) + 1
    && multiset(s.added) == multiset(s.queue) + InFlight(s.threads) + multiset(s.retired)
    && ResultOk(f, s)
    && (if t == 0 then !s.stop else MasterOk(s))
    && forall i :: 0 <= i < |s.sessions| ==> SessionOk(f, s.sessions[i])
  }

  lemma {:induction false} WakeHeld<T(!new), R>(f: T -> Option<R>, s: State<T, R>, t: nat)
    requires Inv(f, s) && t < |s.threads| && s.threads[t].place.Waiting?
    ensures Held(f, s.(nIdle := s.nIdle - 1), t)
  {
    assert ThreadOk(f, s.result, s.threads[t]);
  }

  lemma {:induction false} CleanUpHeld<T(!new), R>(f: T -> Option<R>, s: State<T, R>, t: nat)
    requires Inv(f, s) && t < |s.threads| && s.threads[t].place.Entering?
    ensures |CleanUp(s, t).threads| == |s.threads| && Held(f, CleanUp(s, t), t)
  {
    var th := s.threads[t];
    assert ThreadOk(f, s.result, th);
    if th.nNow > 0 {
      RetireHeld(f, s, t);
    }
  }

  /** The state after thread t has retired its batch, before anyone is notified. */
  ghost function Retire<T, R>(s: State<T, R>, t: nat): State<T, R>
    requires t < |s.threads|
  {
    var th := s.threads[t];
    var swap := th.localResult.Some? && s.result.None?;
    s.(result := if swap then th.localResult else s.result,
       nTodo := s.nTodo - th.nNow, retired := s.retired + th.batch,
       threads := s.threads[t := th.(batch := [], localResult := if swap then None else th.localResult)])
  }

  lemma {:induction false} RetireResult<T(!new), R>(f: T -> Option<R>, s: State<T, R>, t: nat)
    requires Inv(f, s) && t < |s.threads| && s.threads[t].place.Entering? && s.threads[t].nNow > 0
    ensures ResultOk(f, Retire(s, t)) && (s.result.Some? ==> Retire(s, t).result == s.result)
  {
    var th := s.threads[t];
    assert ThreadOk(f, s.result, th);
    FirstFailureIs(f, th.batch);
    OneOfMany(s.threads, t);
    if s.result.None? && th.localResult.Some? {
      SomeFailsMore(f, th.batch, s.added, th.localResult);
    }
  }

  lemma {:induction false} RetireCounts<T(!new), R>(f: T -> Option<R>, s: State<T, R>, t: nat)
    requires Inv(f, s) && t < |s.threads| && s.threads[t].place.Entering? && s.threads[t].nNow > 0
    ensures CountsOk(Retire(s, t))
  {
    var th, s' := s.threads[t], Retire(s, t);
    assert ThreadOk(f, s.result, th);
    InFlightUpdate(s.threads, t, s'.threads[t]);
    TotalUpdate(s.threads, WaitWeight, t, s'.threads[t]);
    TotalUpdate(s.threads, InsideWeight, t, s'.threads[t]);
    Retired(multiset(s.queue), InFlight(s.threads), InFlight(s'.threads), s.retired, th.batch);
  }

  lemma {:induction false} Retired<T>(q: multiset<T>, x: multiset<T>, x': multiset<T>, retired: seq<T>, batch: seq<T>)
    requires x' + multiset(batch) == x
    ensures q + x + multiset(retired) == q + x' + multiset(retired + batch)
    ensures |x'| + |batch| == |x|
  {
    assert multiset(retired + batch) == multiset(retired) + multiset(batch);
    assert |x' + multiset(batch)| == |x'| + |multiset(batch)|;
  }

  /** Notifying a thread changes nothing but its being notified. */
  lemma {:induction false} NotifyCounts<T, R>(s: State<T, R>, t: nat)
    requires t < |s.threads| && CountsOk(s)
    ensures CountsOk(s.(threads := s.threads[t := Notified(s.threads[t])]))
  {
    var th := Notified(s.threads[t]);
    InFlightUpdate(s.threads, t, th);
    Cancel(InFlight(s.threads[t := th]), InFlight(s.threads), multiset(th.batch));
    TotalUpdate(s.threads, WaitWeight, t, th);
    TotalUpdate(s.threads, InsideWeight, t, th);
  }

  lemma {:induction false} Cancel<T>(a: multiset<T>, b: multiset<T>, x: multiset<T>)
    requires a + x == b + x
    ensures a == b
  {
    assert a == (a + x) - x;
    assert b == (b + x) - x;
  }

  lemma {:induction false} RetireHeld<T(!new), R>(f: T -> Option<R>, s: State<T, R>, t: nat)
    requires Inv(f, s) && t < |s.threads| && s.threads[t].place.Entering? && s.threads[t].nNow > 0
    ensures |CleanUp(s, t).threads| == |s.threads| && Held(f, CleanUp(s, t), t)
  {
    var s1, s2 := Retire(s, t), CleanUp(s, t);
    assert ThreadOk(f, s.result, s.threads[t]);
    RetireResult(f, s, t);
    RetireCounts(f, s, t);
    NotifyCounts(s1, 0);
    assert s2 == s1 || s2 == s1.(threads := s1.threads[0 := Notified(s1.threads[0])]);
    forall i | 0 <= i < |s.threads| && i != t
      ensures ThreadOk(f, s2.result, s2.threads[i]) && RoleOk(i, s2.threads[i])
    {
      assert ThreadOk(f, s.result, s.threads[i]) && RoleOk(i, s.threads[i]);
    }
  }

  lemma {:induction false} MoveCounts<T(!new), R>(f: T -> Option<R>, s: State<T, R>, t: nat, th: Thread<T, R>,
                                                  queue: seq<T>)
    requires Held(f, s, t) && s.queue == queue + th.batch
    ensures var threads := s.threads[t := th];
            && s.nTodo == |queue| + |InFlight(threads)|
            && Total(threads, WaitWeight) == s.nIdle + WaitWeight(th)
            && Total(threads, InsideWeight) == s.nTotal - 1 + InsideWeight(th)
            && multiset(s.added) == multiset(queue) + InFlight(threads) + multiset(s.retired)
  {
    InFlightUpdate(s.threads, t, th);
    TotalUpdate(s.threads, WaitWeight, t, th);
    TotalUpdate(s.threads, InsideWeight, t, th);
    assert InFlight(s.threads[t := th]) == InFlight(s.threads) + multiset(th.batch);
    assert multiset(s.queue) == multiset(queue) + multiset(th.batch);
    assert |InFlight(s.threads) + multiset(th.batch)| == |InFlight(s.threads)| + |multiset(th.batch)|;
  }

  /** Complete returns only when everything added has been retired, with the right result. */
  lemma {:induction false} ReturnOk<T(!new), R>(f: T -> Option<R>, s: State<T, R>, t: nat)
    requires Held(f, s, t) && s.queue == [] && s.nTodo == 0
    ensures SessionOk(f, Session(s.added, s.retired, s.result)) && InFlight(s.threads) == multiset{}
  {
    assert |InFlight(s.threads)| == 0;
    assert multiset(s.added) == multiset(s.retired);
    forall c | c in s.added ensures c in s.retired {
      assert c in multiset(s.added);
      assert c in multiset(s.retired);
    }
  }

  lemma {:induction false} TakeLength(batchSize: nat, queued: nat, nTotal: int, nIdle: int)
    requires queued > 0 && nTotal >= 0 && nIdle >= 0
    ensures 1 <= BatchLength(batchSize, queued, nTotal, nIdle) <= queued
  {
    assert queued / (nTotal + nIdle + 1) <= queued;
  }

  lemma {:induction false} TotalAtLeast<T, R>(threads: seq<Thread<T, R>>, w: Thread<T, R> -> nat, t: nat)
    requires t < |threads|
    ensures Total(threads, w) >= w(threads[t])
  {
    if t > 0 {
      TotalAtLeast(threads[1..], w, t - 1);
    }
  }

  lemma {:induction false} ProceedInv<T(!new), R>(f: T -> Option<R>, batchSize: nat, s: State<T, R>, t: nat)
    requires Held(f, s, t)
    ensures Inv(f, Proceed(batchSize, s, t))
  {
    if !s.stop && s.queue != [] {
      TakeInv(f, batchSize, s, t);
    } else if !s.stop && t == 0 && s.nTodo == 0 {
      ReturnInv(f, batchSize, s);
    } else {
      PauseInv(f, batchSize, s, t);
    }
  }

  lemma {:induction false} TakeInv<T(!new), R>(f: T -> Option<R>, batchSize: nat, s: State<T, R>, t: nat)
    requires Held(f, s, t) && !s.stop && s.queue != []
    ensures Inv(f, Proceed(batchSize, s, t))
  {
    var s' := Proceed(batchSize, s, t);
    var th' := s'.threads[t];
    TotalAtLeast(s.threads, WaitWeight, t);
    TotalAtLeast(s.threads, InsideWeight, t);
    TakeLength(batchSize, |s.queue|, s.nTotal, s.nIdle);
    assert s.queue == s'.queue + th'.batch;
    MoveCounts(f, s, t, th', s'.queue);
    OthersOk(f, s, t, s'.result, th');
  }

  lemma {:induction false} PauseInv<T(!new), R>(f: T -> Option<R>, batchSize: nat, s: State<T, R>, t: nat)
    requires Held(f, s, t) && (s.stop || (s.queue == [] && !(t == 0 && s.nTodo == 0)))
    ensures Inv(f, Proceed(batchSize, s, t))
  {
    var s' := Proceed(batchSize, s, t);
    var th' := s'.threads[t];
    assert s.queue == s.queue + th'.batch;
    MoveCounts(f, s, t, th', s'.queue);
    OthersOk(f, s, t, s'.result, th');
  }

  lemma {:induction false} OthersOk<T(!new), R>(f: T -> Option<R>, s: State<T, R>, t: nat, result: Option<R>,
                                                th: Thread<T, R>)
    requires Held(f, s, t) && result == s.result && ThreadOk(f, result, th) && RoleOk(t, th)
    ensures ThreadsOk(f, result, s.threads[t := th])
  {
  }

  lemma {:induction false} ReturnInv<T(!new), R>(f: T -> Option<R>, batchSize: nat, s: State<T, R>)
    requires Held(f, s, 0) && !s.stop && s.queue == [] && s.nTodo == 0
    ensures Inv(f, Proceed(batchSize, s, 0))
  {
    var s' := Proceed(batchSize, s, 0);
    var th' := s'.threads[0];
    ReturnOk(f, s, 0);
    assert s.queue == s.queue + th'.batch;
    MoveCounts(f, s, 0, th', s'.queue);
    InFlightUpdate(s.threads, 0, th');
    forall i | 0 < i < |s.threads| ensures ThreadOk(f, s'.result, s'.threads[i]) && RoleOk(i, s'.threads[i]) {
      OneOfMany(s.threads, i);
      assert |multiset(s.threads[i].batch)| == 0;
      assert ThreadOk(f, s.result, s.threads[i]) && RoleOk(i, s.threads[i]);
    }
  }

  lemma {:induction false} AddInv<T(!new), R>(f: T -> Option<R>, batchSize: nat, s: State<T, R>, checks: seq<T>)
    requires Inv(f, s) && s.threads[0].place.Outside? && !s.stop && checks != []
    ensures Inv(f, Apply(f, batchSize, s, AddChecks(checks)))
  {
    var s' := Apply(f, batchSize, s, AddChecks(checks));
    var th := s'.threads[0];
    assert ThreadOk(f, s.result, s.threads[0]);
    InFlightUpdate(s.threads, 0, th);
    Cancel(InFlight(s'.threads), InFlight(s.threads), multiset(th.batch));
    TotalUpdate(s.threads, WaitWeight, 0, th);
    TotalUpdate(s.threads, InsideWeight, 0, th);
    assert multiset(s'.queue) == multiset(s.queue) + multiset(checks);
    assert multiset(s'.added) == multiset(s.added) + multiset(checks);
    if s.result.Some? {
      SomeFailsMore(f, s.added, s'.added, s.result);
    }
  }

  lemma {:induction false} CallInv<T(!new), R>(f: T -> Option<R>, batchSize: nat, s: State<T, R>)
    requires Inv(f, s) && s.threads[0].place.Outside? && !s.stop
    ensures Inv(f, Apply(f, batchSize, s, CallComplete))
  {
    var s' := Apply(f, batchSize, s, CallComplete);
    assert ThreadOk(f, s.result, s.threads[0]);
    InFlightUpdate(s.threads, 0, s'.threads[0]);
    TotalUpdate(s.threads, WaitWeight, 0, s'.threads[0]);
    TotalUpdate(s.threads, InsideWeight, 0, s'.threads[0]);
  }

  lemma {:induction false} WorkInv<T(!new), R>(f: T -> Option<R>, batchSize: nat, s: State<T, R>, t: nat)
    requires Inv(f, s) && t < |s.threads| && s.threads[t].place.Working?
    ensures Inv(f, Apply(f, batchSize, s, Work(t)))
  {
    var s' := Apply(f, batchSize, s, Step<T>.Work(t));
    assert ThreadOk(f, s.result, s.threads[t]);
    InFlightUpdate(s.threads, t, s'.threads[t]);
    Cancel(InFlight(s'.threads), InFlight(s.threads), multiset(s.threads[t].batch));
    TotalUpdate(s.threads, WaitWeight, t, s'.threads[t]);
    TotalUpdate(s.threads, InsideWeight, t, s'.threads[t]);
  }

  lemma {:induction false} NotifyAllSame<T, R>(threads: seq<Thread<T, R>>)
    ensures InFlight(NotifyAll(threads)) == InFlight(threads)
    ensures Total(NotifyAll(threads), WaitWeight) == Total(threads, WaitWeight)
    ensures Total(NotifyAll(threads), InsideWeight) == Total(threads, InsideWeight)
    ensures forall i :: 0 <= i < |threads| ==> NotifyAll(threads)[i] == Notified(threads[i])
  {
    if threads != [] {
      NotifyAllSame(threads[1..]);
      assert NotifyAll(threads)[1..] == NotifyAll(threads[1..]);
    }
  }

  /** Notifying every worker. */
  lemma {:induction false} NotifyAllInv<T(!new), R>(f: T -> Option<R>, s: State<T, R>)
    requires Inv(f, s)
    ensures Inv(f, s.(threads := [s.threads[0]] + NotifyAll(s.threads[1..])))
  {
    var ths := [s.threads[0]] + NotifyAll(s.threads[1..]);
    NotifyAllSame(s.threads[1..]);
    assert ths[1..] == NotifyAll(s.threads[1..]);
    forall i | 0 <= i < |ths| ensures ThreadOk(f, s.result, ths[i]) && RoleOk(i, ths[i]) {
      assert ThreadOk(f, s.result, s.threads[i]) && RoleOk(i, s.threads[i]);
      if i > 0 {
        assert ths[i] == Notified(s.threads[1..][i - 1]);
      }
    }
  }

  lemma {:induction false} NotifyOneInv<T(!new), R>(f: T -> Option<R>, s: State<T, R>, who: nat)
    requires Inv(f, s) && 0 < who < |s.threads|
    ensures Inv(f, s.(threads := s.threads[who := Notified(s.threads[who])]))
  {
    NotifyCounts(s, who);
    assert ThreadOk(f, s.result, s.threads[who]) && RoleOk(who, s.threads[who]);
  }

  lemma {:induction false} BackOutsideInv<T(!new), R>(f: T -> Option<R>, s: State<T, R>)
    requires Inv(f, s) && s.threads[0].place.Notifying?
    ensures Inv(f, MoveTo(s, 0, Outside))
  {
    var s' := MoveTo(s, 0, Outside);
    assert ThreadOk(f, s.result, s.threads[0]);
    InFlightUpdate(s.threads, 0, s'.threads[0]);
    Cancel(InFlight(s'.threads), InFlight(s.threads), multiset(s.threads[0].batch));
    TotalUpdate(s.threads, WaitWeight, 0, s'.threads[0]);
    TotalUpdate(s.threads, InsideWeight, 0, s'.threads[0]);
  }

  lemma {:induction false} NotifyInv<T(!new), R>(f: T -> Option<R>, batchSize: nat, s: State<T, R>, who: nat)
    requires Inv(f, s) && s.threads[0].place.Notifying?
    ensures Inv(f, Apply(f, batchSize, s, NotifyWorkers(who)))
  {
    BackOutsideInv(f, s);
    var out := MoveTo(s, 0, Outside);
    if s.threads[0].place.all {
      NotifyAllInv(f, out);
    } else if 0 < who < |s.threads| {
      NotifyOneInv(f, out, who);
    }
  }

  lemma {:induction false} EnterInv<T(!new), R>(f: T -> Option<R>, batchSize: nat, s: State<T, R>, t: nat)
    requires Inv(f, s) && t < |s.threads| && s.threads[t].place.Entering?
    ensures |CleanUp(s, t).threads| == |s.threads| && Inv(f, Proceed(batchSize, CleanUp(s, t), t))
  {
    CleanUpHeld(f, s, t);
    ProceedInv(f, batchSize, CleanUp(s, t), t);
  }

  lemma {:induction false} WakeInv<T(!new), R>(f: T -> Option<R>, batchSize: nat, s: State<T, R>, t: nat)
    requires Inv(f, s) && t < |s.threads| && s.threads[t].place.Waiting?
    ensures Inv(f, Proceed(batchSize, s.(nIdle := s.nIdle - 1), t))
  {
    WakeHeld(f, s, t);
    ProceedInv(f, batchSize, s.(nIdle := s.nIdle - 1), t);
  }

  lemma {:induction false} StopInv<T(!new), R>(f: T -> Option<R>, batchSize: nat, s: State<T, R>)
    requires Inv(f, s) && s.threads[0].place.Outside?
    ensures Inv(f, Apply(f, batchSize, s, RequestStop))
  {
    NotifyAllInv(f, s.(stop := true));
  }

  /** Every step keeps the invariant. */
  lemma {:induction false} NextInv<T(!new), R>(f: T -> Option<R>, batchSize: nat, s: State<T, R>, step: Step<T>,
                                               s': State<T, R>)
    requires Inv(f, s) && Next(f, batchSize, s, step, s')
    ensures Inv(f, s')
  {
    if step.Enter? || step.Wake? || step.Work? {
      LoopInv(f, batchSize, s, step, s');
    } else {
      MasterInv(f, batchSize, s, step, s');
    }
  }

  lemma {:induction false} LoopInv<T(!new), R>(f: T -> Option<R>, batchSize: nat, s: State<T, R>, step: Step<T>,
                                               s': State<T, R>)
    requires Inv(f, s) && Next(f, batchSize, s, step, s') && (step.Enter? || step.Wake? || step.Work?)
    ensures Inv(f, s')
  {
    match step
    case Enter(t) => EnterInv(f, batchSize, s, t);
    case Wake(t) => WakeInv(f, batchSize, s, t);
    case Work(t) => WorkInv(f, batchSize, s, t);
  }

  lemma {:induction false} MasterInv<T(!new), R>(f: T -> Option<R>, batchSize: nat, s: State<T, R>, step: Step<T>,
                                                 s': State<T, R>)
    requires Inv(f, s) && Next(f, batchSize, s, step, s') && !step.Enter? && !step.Wake? && !step.Work?
    ensures Inv(f, s')
  {
    match step
    case AddChecks(checks) =>
      if checks != [] {
        AddInv(f, batchSize, s, checks);
      }
    case NotifyWorkers(who) => NotifyInv(f, batchSize, s, who);
    case CallComplete => CallInv(f, batchSize, s);
    case RequestStop => StopInv(f, batchSize, s);
  }

  lemma {:induction false} InitInv<T(!new), R>(f: T -> Option<R>, s: State<T, R>)
    requires Init(s)
    ensures Inv(f, s)
  {
    IdleThreads(s.threads);
  }

  lemma {:induction false} IdleThreads<T, R>(threads: seq<Thread<T, R>>)
    requires forall i :: 0 <= i < |threads| ==>
      threads[i].batch == [] && threads[i].nNow == 0 && (threads[i].place.Entering? || threads[i].place.Outside?)
    ensures InFlight(threads) == multiset{} && Total(threads, WaitWeight) == 0 && Total(threads, InsideWeight) == 0
  {
    if threads != [] {
      IdleThreads(threads[1..]);
    }
  }

  // ---- runs ----

  /** Any interleaving of steps from an initial state. */
  ghost predicate IsRun<T, R>(f: T -> Option<R>, batchSize: nat, states: seq<State<T, R>>, steps: seq<Step<T>>) {
    && |states| == |steps| + 1 && Init(states[0])
    && forall i {:trigger steps[i]} :: 0 <= i < |steps| ==> Next(f, batchSize, states[i], steps[i], states[i + 1])
  }

  lemma {:induction false} RunInv<T(!new), R>(f: T -> Option<R>, batchSize: nat, states: seq<State<T, R>>,
                                              steps: seq<Step<T>>, n: nat)
    requires IsRun(f, batchSize, states, steps) && n < |states|
    ensures Inv(f, states[n])
  {
    if n == 0 {
      InitInv(f, states[0]);
    } else {
      RunInv(f, batchSize, states, steps, n - 1);
      NextInv(f, batchSize, states[n - 1], steps[n - 1], states[n]);
    }
  }

  /** In every state of every run: the number of open checks is the queue plus the batches out with
      threads, and nothing that was added is lost or duplicated. */
  lemma {:induction false} NothingLost<T(!new), R>(f: T -> Option<R>, batchSize: nat, states: seq<State<T, R>>,
                                                   steps: seq<Step<T>>, n: nat)
    requires IsRun(f, batchSize, states, steps) && n < |states|
    ensures states[n].nTodo == |states[n].queue| + |InFlight(states[n].threads)|
    ensures multiset(Given(states, steps, n))
        == multiset(states[n].queue) + InFlight(states[n].threads) + multiset(states[n].retired)
  {
    RunInv(f, batchSize, states, steps, n);
    AddedIsGiven(f, batchSize, states, steps, n);
  }

  // ---- what was given and what came of it ----

  ghost predicate InComplete<T, R>(s: State<T, R>) {
    |s.threads| > 0 && (s.threads[0].place.Entering? || s.threads[0].place.Waiting? || s.threads[0].place.Working?)
  }

  /** Complete returns from one state to the next. */
  ghost predicate Returns<T, R>(s: State<T, R>, s': State<T, R>) {
    InComplete(s) && |s'.threads| > 0 && s'.threads[0].place.Outside?
  }

  /** The checks passed to Add before the n-th state, since Complete last returned. */
  ghost function Given<T, R>(states: seq<State<T, R>>, steps: seq<Step<T>>, n: nat): seq<T>
    requires n <= |steps| < |states|
  {
    if n == 0 || Returns(states[n - 1], states[n]) then []
    else if steps[n - 1].AddChecks? then Given(states, steps, n - 1) + steps[n - 1].checks
    else Given(states, steps, n - 1)
  }

  /** What a step records: a session when Complete returns, and otherwise what it adds. */
  ghost predicate Records<T, R>(s: State<T, R>, step: Step<T>, s': State<T, R>) {
    if Returns(s, s')
    then s'.added == [] && |s'.sessions| == |s.sessions| + 1 && s'.sessions[..|s.sessions|] == s.sessions
         && s'.sessions[|s.sessions|].added == s.added
    else s'.sessions == s.sessions && s'.added == if step.AddChecks? then s.added + step.checks else s.added
  }

  lemma {:induction false} CleanUpRecords<T, R>(s: State<T, R>, t: nat)
    requires t < |s.threads| && s.threads[t].place.Entering?
    ensures var s1 := CleanUp(s, t);
            && |s1.threads| == |s.threads| && s1.added == s.added && s1.sessions == s.sessions
            && (s1.threads[0].place == s.threads[0].place || (t != 0 && s1.threads[0].place.Waiting?))
            && s1.threads[t].place.Entering?
  {
  }

  lemma {:induction false} ProceedRecords<T, R>(batchSize: nat, s: State<T, R>, t: nat)
    requires t < |s.threads|
    ensures var s' := Proceed(batchSize, s, t);
            && |s'.threads| == |s.threads| && (t != 0 ==> s'.threads[0] == s.threads[0])
            && (if t == 0 && s'.threads[0].place.Outside?
                then s'.added == [] && s'.sessions[..|s.sessions|] == s.sessions && |s'.sessions| == |s.sessions| + 1
                     && s'.sessions[|s.sessions|].added == s.added
                else s'.sessions == s.sessions && s'.added == s.added)
  {
  }

  lemma {:induction false} StepRecords<T(!new), R>(f: T -> Option<R>, batchSize: nat, s: State<T, R>, step: Step<T>,
                                                   s': State<T, R>)
    requires Next(f, batchSize, s, step, s')
    ensures Records(s, step, s')
  {
    match step
    case Enter(t) =>
      CleanUpRecords(s, t);
      ProceedRecords(batchSize, CleanUp(s, t), t);
    case Wake(t) => ProceedRecords(batchSize, s.(nIdle := s.nIdle - 1), t);
    case _ =>
  }

  lemma {:induction false} RunRecords<T(!new), R>(f: T -> Option<R>, batchSize: nat, states: seq<State<T, R>>,
                                                  steps: seq<Step<T>>, i: nat, j: nat)
    requires IsRun(f, batchSize, states, steps) && i < |steps| && j == i + 1
    ensures Records(states[i], steps[i], states[j])
  {
    StepRecords(f, batchSize, states[i], steps[i], states[j]);
  }

  /** What has been recorded as added is what was given. */
  lemma {:induction false} AddedIsGiven<T(!new), R>(f: T -> Option<R>, batchSize: nat, states: seq<State<T, R>>,
                                                    steps: seq<Step<T>>, n: nat)
    requires IsRun(f, batchSize, states, steps) && n < |states|
    ensures states[n].added == Given(states, steps, n)
  {
    if n > 0 {
      AddedIsGiven(f, batchSize, states, steps, n - 1);
      RunRecords(f, batchSize, states, steps, n - 1, n);
    }
  }

  /** Every session was recorded when Complete returned, with what had been given until then. */
  lemma {:induction false} SessionOfReturn<T(!new), R>(f: T -> Option<R>, batchSize: nat, states: seq<State<T, R>>,
                                                       steps: seq<Step<T>>, n: nat, k: nat) returns (m: nat)
    requires IsRun(f, batchSize, states, steps) && n < |states| && k < |states[n].sessions|
    ensures m < n && Returns(states[m], states[m + 1]) && |states[m].sessions| == k
    ensures states[n].sessions[k].added == Given(states, steps, m)
  {
    var i: nat := n - 1;
    RunRecords(f, batchSize, states, steps, i, n);
    if k < |states[i].sessions| {
      m := SessionOfReturn(f, batchSize, states, steps, i, k);
      assert states[n].sessions[k] == states[i].sessions[k];
    } else {
      m := i;
      AddedIsGiven(f, batchSize, states, steps, m);
    }
  }

  /** In every run, every call of Complete that returned had seen everything given to Add since the one before retired;
      it returned nothing exactly if all of that passes, and otherwise the failure of one of those checks. */
  lemma {:induction false} OutcomesAreRight<T(!new), R>(f: T -> Option<R>, batchSize: nat, states: seq<State<T, R>>,
                                                        steps: seq<Step<T>>, n: nat, k: nat) returns (m: nat)
    requires IsRun(f, batchSize, states, steps) && n < |states| && k < |states[n].sessions|
    ensures m < n && Returns(states[m], states[m + 1]) && |states[m].sessions| == k
    ensures var e, given := states[n].sessions[k], Given(states, steps, m);
            && e.added == given && multiset(e.retired) == multiset(given)
            && (e.outcome.None? <==> forall c :: c in given ==> f(c).None?)
            && (e.outcome.Some? ==> exists c :: c in given && f(c) == e.outcome)
  {
    RunInv(f, batchSize, states, steps, n);
    assert SessionOk(f, states[n].sessions[k]);
    m := SessionOfReturn(f, batchSize, states, steps, n, k);
  }

  // ---- Complete returns ----

  /** Steps of running threads; waking up counts only after a notification. */
  ghost predicate Productive<T, R>(s: State<T, R>, step: Step<T>) {
    Enabled(s, step) && (step.Enter? || step.Work? || (step.Wake? && s.threads[step.t].place.notified))
  }

  function EffortWeight<T, R>(th: Thread<T, R>): nat {
    match th.place
    case Working => 3
    case Entering => 2
    case Waiting(notified) => if notified then 1 else 0
    case _ => 0
  }

  /** A bound on the work left. */
  function Effort<T, R>(s: State<T, R>): nat {
    4 * |s.queue| + Total(s.threads, EffortWeight)
  }

  /** As long as Complete has not returned, some thread can go on without a spurious wake-up. */
  lemma {:induction false} NeverStuck<T(!new), R>(f: T -> Option<R>, s: State<T, R>) returns (step: Step<T>)
    requires Inv(f, s) && InComplete(s)
    ensures Productive(s, step)
  {
    var place := s.threads[0].place;
    if place.Entering? {
      step := Enter(0);
    } else if place.Working? {
      step := Step<T>.Work(0);
    } else if place.notified {
      step := Wake(0);
    } else {
      var i := SomeoneBusy(s.threads);
      assert ThreadOk(f, s.result, s.threads[i]);
      step := if s.threads[i].place.Working? then Step<T>.Work(i) else Enter(i);
    }
  }

  lemma {:induction false} SomeoneBusy<T, R>(threads: seq<Thread<T, R>>) returns (i: nat)
    requires |InFlight(threads)| > 0
    ensures i < |threads| && threads[i].batch != []
  {
    if threads[0].batch != [] {
      i := 0;
    } else {
      assert InFlight(threads) == InFlight(threads[1..]);
      var j := SomeoneBusy(threads[1..]);
      i := j + 1;
    }
  }

  lemma {:induction false} ProceedEffort<T(!new), R>(f: T -> Option<R>, batchSize: nat, s: State<T, R>, t: nat)
    requires Held(f, s, t)
    ensures Effort(Proceed(batchSize, s, t)) + EffortWeight(s.threads[t]) <= Effort(s)
  {
    var s' := Proceed(batchSize, s, t);
    assert s'.threads == s.threads[t := s'.threads[t]];
    TotalUpdate(s.threads, EffortWeight, t, s'.threads[t]);
    if !s.stop && s.queue != [] {
      TotalAtLeast(s.threads, WaitWeight, t);
      TotalAtLeast(s.threads, InsideWeight, t);
      TakeLength(batchSize, |s.queue|, s.nTotal, s.nIdle);
    }
  }

  lemma {:induction false} CleanUpEffort<T, R>(s: State<T, R>, t: nat)
    requires t < |s.threads| && s.threads[t].place.Entering?
    ensures |CleanUp(s, t).threads| == |s.threads| && CleanUp(s, t).threads[t].place.Entering?
    ensures Effort(CleanUp(s, t)) <= Effort(s) + 1
  {
    if s.threads[t].nNow > 0 {
      var s1, s2 := Retire(s, t), CleanUp(s, t);
      TotalUpdate(s.threads, EffortWeight, t, s1.threads[t]);
      if s2 != s1 {
        TotalUpdate(s1.threads, EffortWeight, 0, s2.threads[0]);
      }
    }
  }

  lemma {:induction false} EffortFalls<T(!new), R>(f: T -> Option<R>, batchSize: nat, s: State<T, R>, step: Step<T>,
                                                   s': State<T, R>)
    requires Inv(f, s) && Productive(s, step) && Next(f, batchSize, s, step, s')
    ensures Effort(s') < Effort(s)
  {
    match step
    case Enter(t) =>
      CleanUpHeld(f, s, t);
      CleanUpEffort(s, t);
      ProceedEffort(f, batchSize, CleanUp(s, t), t);
    case Wake(t) =>
      WakeHeld(f, s, t);
      ProceedEffort(f, batchSize, s.(nIdle := s.nIdle - 1), t);
    case Work(t) => TotalUpdate(s.threads, EffortWeight, t, s'.threads[t]);
  }

  /** While Complete has not returned, no step adds to the work left, spurious wake-ups included, and every
      productive one takes from it. */
  lemma {:induction false} EffortNeverRises<T(!new), R>(f: T -> Option<R>, batchSize: nat, s: State<T, R>,
                                                        step: Step<T>, s': State<T, R>)
    requires Inv(f, s) && InComplete(s) && Next(f, batchSize, s, step, s')
    ensures Effort(s') + (if Productive(s, step) then 1 else 0) <= Effort(s)
  {
    if Productive(s, step) {
      EffortFalls(f, batchSize, s, step, s');
    } else {
      WakeHeld(f, s, step.t);
      ProceedEffort(f, batchSize, s.(nIdle := s.nIdle - 1), step.t);
    }
  }

  /** How many of the steps from n to k are productive. */
  ghost function Progress<T, R>(states: seq<State<T, R>>, steps: seq<Step<T>>, n: nat, k: nat): nat
    requires n <= k <= |steps| < |states|
  {
    if n == k then 0 else Progress(states, steps, n, k - 1) + if Productive(states[k - 1], steps[k - 1]) then 1 else 0
  }

  lemma {:induction false} RunEffort<T(!new), R>(f: T -> Option<R>, batchSize: nat, states: seq<State<T, R>>,
                                                 steps: seq<Step<T>>, n: nat, k: nat)
    requires IsRun(f, batchSize, states, steps) && n <= k < |states|
    requires forall i {:trigger states[i]} :: n <= i < k ==> InComplete(states[i])
    ensures Progress(states, steps, n, k) + Effort(states[k]) <= Effort(states[n])
  {
    forall i | n <= i < k ensures NeverRisesAt(states, steps, i) {
      StepEffort(f, batchSize, states, steps, i);
    }
    Telescope(states, steps, n, k);
  }

  ghost predicate NeverRisesAt<T, R>(states: seq<State<T, R>>, steps: seq<Step<T>>, i: nat) {
    && i < |steps| < |states|
    && Effort(states[i + 1]) + (if Productive(states[i], steps[i]) then 1 else 0) <= Effort(states[i])
  }

  lemma {:induction false} StepEffort<T(!new), R>(f: T -> Option<R>, batchSize: nat, states: seq<State<T, R>>,
                                                  steps: seq<Step<T>>, i: nat)
    requires IsRun(f, batchSize, states, steps) && i < |steps| && InComplete(states[i])
    ensures NeverRisesAt(states, steps, i)
  {
    RunInv(f, batchSize, states, steps, i);
    EffortNeverRises(f, batchSize, states[i], steps[i], states[i + 1]);
  }

  lemma {:induction false} Telescope<T, R>(states: seq<State<T, R>>, steps: seq<Step<T>>, n: nat, k: nat)
    requires n <= k <= |steps| < |states|
    requires forall i {:trigger NeverRisesAt(states, steps, i)} :: n <= i < k ==> NeverRisesAt(states, steps, i)
    ensures Progress(states, steps, n, k) + Effort(states[k]) <= Effort(states[n])
    decreases k
  {
    if n < k {
      Telescope(states, steps, n, k - 1);
      assert NeverRisesAt(states, steps, k - 1);
    }
  }

  lemma {:induction false} RunNeverStuck<T(!new), R>(f: T -> Option<R>, batchSize: nat, states: seq<State<T, R>>,
                                                     steps: seq<Step<T>>, k: nat)
    requires IsRun(f, batchSize, states, steps) && k < |states|
    ensures InComplete(states[k]) ==> exists step :: Productive(states[k], step)
  {
    RunInv(f, batchSize, states, steps, k);
    if InComplete(states[k]) {
      var step := NeverStuck(f, states[k]);
    }
  }

  /** In every run, with spurious wake-ups anywhere: as long as Complete has not returned there is a productive step
      to take, and it has returned at some point of any stretch with more of them than the work left at its start. */
  lemma {:induction false} CompleteReturns<T(!new), R>(f: T -> Option<R>, batchSize: nat, states: seq<State<T, R>>,
                                                       steps: seq<Step<T>>, n: nat, k: nat)
    requires IsRun(f, batchSize, states, steps) && n <= k < |states|
    ensures InComplete(states[k]) ==> exists step :: Productive(states[k], step)
    ensures Progress(states, steps, n, k) > Effort(states[n]) ==> exists i :: n <= i < k && !InComplete(states[i])
  {
    RunNeverStuck(f, batchSize, states, steps, k);
    if forall i {:trigger states[i]} :: n <= i < k ==> InComplete(states[i]) {
      RunEffort(f, batchSize, states, steps, n, k);
    }
  }
}
