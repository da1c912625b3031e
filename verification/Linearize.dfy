/** Finding or improving a linearization: repeatedly output the best candidate set found. */
module Linearizing {
  import opened FeeFracs
  import opened Sets
  import opened Graphs
  import opened Chunkings
  import opened LinearizationChunkings
  import opened AncestorFinders
  import opened Searching
  import opened SearchFinders
  import opened Merging
  import opened Radix

  // ---- optimality ----

  /** out followed by what remains of it is as good as every linearization. */
  ghost predicate BestSoFar(g: Graph, todo: set<nat>, out: seq<nat>) {
    forall lin :: g.IsLinearization(g.used, lin) ==> Improves(g, out, Filter(lin, todo), lin)
  }

  lemma {:induction false} BestStart(g: Graph)
    ensures BestSoFar(g, g.used, [])
  {
    forall lin | g.IsLinearization(g.used, lin) ensures Improves(g, [], Filter(lin, g.used), lin) {
      FilterAll(lin, g.used);
      assert [] + lin == lin;
    }
  }

  /** Outputting a set of highest feerate keeps the output best so far. */
  lemma {:induction false} BestStep(g: Graph, todo: set<nat>, out: seq<nat>, t: set<nat>, ret: seq<nat>)
    requires g.Valid() && todo <= g.used && BestSoFar(g, todo, out)
    requires HighestFeerate(g, todo, t)
    requires |out| <= |ret| && ret[..|out|] == out && g.IsLinearization(t, ret[|out|..])
    ensures BestSoFar(g, todo - t, ret)
  {
    var ts := ret[|out|..];
    assert ret == out + ts;
    forall lin | g.IsLinearization(g.used, lin) ensures Improves(g, ret, Filter(lin, todo - t), lin) {
      var rem := Filter(lin, todo);
      FilterLinearization(g, g.used, lin, todo);
      assert g.used * todo == todo;
      ChunkingIsChunking(g, rem);
      HighestFeerateIsSafe(g, todo, rem, Chunking(g, rem), t);
      TakeOut(g, out, rem, lin, ts, todo - t);
      FilterFilter(lin, todo, todo - t);
      assert todo * (todo - t) == todo - t;
    }
  }

  lemma {:induction false} BestEnd(g: Graph, out: seq<nat>)
    requires g.Valid() && BestSoFar(g, {}, out) && g.IsLinearization(g.used, out)
    ensures forall lin :: g.IsLinearization(g.used, lin) ==> AtLeastAsGood(g, out, lin)
  {
    forall lin | g.IsLinearization(g.used, lin) ensures AtLeastAsGood(g, out, lin) {
      FilterNone(lin, {});
      assert out + [] == out;
      SeqRateIsSetRate(g, out);
      SeqRateIsSetRate(g, lin);
      AtLeastAsGoodIffOutprices(g, out, lin);
    }
  }

  // ---- choosing the next set ----

  ghost predicate NotBelowFirstChunk(g: Graph, rem: seq<nat>, rate: FeeFrac) {
    Chunking(g, rem) != [] && rate.NotLower(g.SeqRate(Chunking(g, rem)[0]))
  }

  /** Where to start from: an ancestor set, unless the old linearization begins with something better. */
  method InitialCandidate(finder: AncestorCandidateFinder, old': LinearizationChunking) returns (best: SetInfo)
    requires finder.Valid() && finder.todo != {} && old'.Valid() && old'.g == finder.g
    requires old'.todo == {} || old'.todo == finder.todo
    requires old'.todo != {} ==> finder.g.IsLinearization(finder.todo, old'.Remaining())
    ensures ValidBest(finder.g, finder.todo, best)
    ensures old'.todo != {} ==> NotBelowFirstChunk(finder.g, old'.Remaining(), best.feerate)
  {
    ghost var g, todo, rem := finder.g, finder.todo, old'.Remaining();
    best := finder.FindCandidateSet();
    ghost var i :| i in todo && best.transactions == g.Ancestors(i) * todo;
    AncestorSetTopological(g, todo, i);
    NothingLeft(old');
    if old'.NumChunksLeft() > 0 {
      FirstChunkInfo(g, todo, rem);
      InfosAt(g, Chunking(g, rem), 0);
      var bestPrefix := old'.GetChunk(0);
      SetRateSize(g, bestPrefix.transactions);
      if !bestPrefix.feerate.IsEmpty() && !best.feerate.Better(bestPrefix.feerate) {
        best := bestPrefix;
      }
    }
  }

  lemma {:induction false} NothingLeft(old': LinearizationChunking)
    requires old'.Valid()
    ensures old'.NumChunksLeft() == 0 <==> old'.todo == {}
  {
    old'.RemainingFacts();
    SomeChunk(old'.g, old'.Remaining());
    DistinctCount(old'.Remaining());
  }

  /** What makes a set fit to be output next. */
  ghost predicate GoodChoice(g: Graph, todo: set<nat>, hasOld: bool, rem: seq<nat>, t: set<nat>, optimal: bool) {
    && t != {} && g.Topological(t, todo)
    && (hasOld ==> SafeToMove(g, Chunking(g, rem), t))
    && (optimal ==> HighestFeerate(g, todo, t))
  }

  /** Cut a candidate down so that moving it to the front cannot make the old linearization worse. */
  method Intersected(g: Graph, old': LinearizationChunking, best: SetInfo, ghost todo: set<nat>) returns (r: SetInfo)
    requires g.Valid() && todo <= g.used && old'.Valid() && old'.g == g && ValidBest(g, todo, best)
    requires old'.todo == {} || (old'.todo == todo && g.IsLinearization(todo, old'.Remaining()))
    requires old'.todo != {} ==> NotBelowFirstChunk(g, old'.Remaining(), best.feerate)
    ensures GoodChoice(g, todo, old'.todo != {}, old'.Remaining(), r.transactions, false)
  {
    r := best;
    NothingLeft(old');
    if old'.NumChunksLeft() > 0 {
      ghost var rem := old'.Remaining();
      r := old'.IntersectPrefixes(best);
      IntersectionTopological(g, todo, rem, best.transactions, r.transactions);
      FirstChunkInfo(g, todo, rem);
      IntersectionIsSafe(g, rem, Chunking(g, rem), best.transactions, r.transactions);
    }
  }

  lemma {:induction false} OptimalChoice(g: Graph, todo: set<nat>, hasOld: bool, rem: seq<nat>, t: set<nat>)
    requires g.Valid() && todo <= g.used && HighestFeerate(g, todo, t)
    requires hasOld ==> g.IsLinearization(todo, rem)
    ensures GoodChoice(g, todo, hasOld, rem, t, true)
  {
    if hasOld {
      ChunkingIsChunking(g, rem);
      HighestFeerateIsSafe(g, todo, rem, Chunking(g, rem), t);
    }
  }

  /** What setting up one search after another costs, for each number of transactions up to n. */
  function SetUpCosts(n: nat): nat {
    if n == 0 then 0 else SetUpCosts(n - 1) + (n + 3) / 4
  }

  /** With as many iterations, half of them after setting up are more than a search of n transactions needs, and what
      it leaves is enough for fewer. */
  function Enough(n: nat): nat {
    Pow2(n) + 1 + SetUpCosts(n)
  }

  lemma {:induction false} EnoughForFewer(m: nat, n: nat)
    requires m <= n
    ensures Enough(m) <= Enough(n)
    decreases n
  {
    if m < n {
      EnoughForFewer(m, n - 1);
      assert Pow2(n) == 2 * Pow2(n - 1);
    }
  }

  lemma {:induction false} EnoughForNext(n: nat, left: nat, done: nat)
    requires n > 0 && left >= Enough(n) && done <= Pow2(n - 1)
    ensures left > (n + 3) / 4 && done < (left - (n + 3) / 4 + 1) / 2
    ensures left - (n + 3) / 4 - done >= Enough(n - 1)
  {
    assert Pow2(n) == 2 * Pow2(n - 1);
  }

  /** If there were enough iterations, there are enough for the n transactions left. */
  ghost predicate Rich(enough: bool, src: SearchCandidateFinder?, left: nat, n: nat) {
    enough ==> src != null && left >= Enough(n)
  }

  /** Choose the set to output next, spending some of the iterations left on searching for it. */
  method ChooseNext(g: Graph, finder: AncestorCandidateFinder, src: SearchCandidateFinder?, old': LinearizationChunking,
                    iterationsLeft: nat, ghost enough: bool, ghost n: nat, ghost m: nat)
    returns (best: SetInfo, left: nat, optimal: bool)
    requires |finder.todo| == n && n == m + 1 && Rich(enough, src, iterationsLeft, n)
    requires g.Valid() && finder.Valid() && finder.g == g && finder.todo != {}
    requires src != null ==> src.Valid() && src.g == g && src.Remaining() == finder.todo
    requires old'.Valid() && old'.g == g && (old'.todo == {} || old'.todo == finder.todo)
    requires old'.todo != {} ==> g.IsLinearization(finder.todo, old'.Remaining())
    ensures GoodChoice(g, finder.todo, old'.todo != {}, old'.Remaining(), best.transactions, optimal)
    ensures Rich(enough, src, left, m) && (enough ==> optimal)
  {
    ghost var todo := finder.todo;
    best := InitialCandidate(finder, old');
    ghost var first := best;
    best, left, optimal := SearchNext(g, src, finder.NumRemaining(), best, iterationsLeft, todo, enough, m);
    KeepsNotLower(g, todo, first, best, old'.todo != {}, old'.Remaining());
    best := Trimmed(g, old', best, optimal, todo);
  }

  /** Unless it is optimal, cut a candidate down. */
  method Trimmed(g: Graph, old': LinearizationChunking, best: SetInfo, optimal: bool, ghost todo: set<nat>)
    returns (r: SetInfo)
    requires g.Valid() && todo <= g.used && old'.Valid() && old'.g == g && ValidBest(g, todo, best)
    requires old'.todo == {} || (old'.todo == todo && g.IsLinearization(todo, old'.Remaining()))
    requires old'.todo != {} ==> NotBelowFirstChunk(g, old'.Remaining(), best.feerate)
    requires optimal ==> HighestFeerate(g, todo, best.transactions)
    ensures GoodChoice(g, todo, old'.todo != {}, old'.Remaining(), r.transactions, optimal)
  {
    r := best;
    if !optimal {
      r := Intersected(g, old', best, todo);
    } else {
      OptimalChoice(g, todo, old'.todo != {}, old'.Remaining(), best.transactions);
    }
  }

  /** Look for something better than a candidate, if there are iterations to spare. */
  method SearchNext(g: Graph, src: SearchCandidateFinder?, n: nat, first: SetInfo, iterationsLeft: nat,
                    ghost todo: set<nat>, ghost enough: bool, ghost m: nat)
    returns (best: SetInfo, left: nat, optimal: bool)
    requires g.Valid() && todo <= g.used && n == |todo| && n == m + 1 && ValidBest(g, todo, first)
    requires Rich(enough, src, iterationsLeft, n)
    requires src != null ==> src.Valid() && src.g == g && src.Remaining() == todo
    ensures ValidBest(g, todo, best) && Improved(first.feerate, best.feerate)
    ensures optimal ==> HighestFeerate(g, todo, best.transactions)
    ensures Rich(enough, src, left, m) && (enough ==> optimal)
  {
    best, left := first, iterationsLeft;
    var iterationsDoneNow, maxIterationsNow := 0, 0;
    if src != null {
      var baseIterations := (n + 3) / 4;
      if left > baseIterations {
        left := left - baseIterations;
        maxIterationsNow := (left + 1) / 2;
        SetRateSize(g, best.transactions);
        best, iterationsDoneNow := src.FindCandidateSet(maxIterationsNow, best);
        left := left - iterationsDoneNow;
      }
      if enough {
        EnoughForNext(n, iterationsLeft, iterationsDoneNow);
      }
    }
    optimal := iterationsDoneNow != maxIterationsNow;
  }

  lemma {:induction false} KeepsNotLower(g: Graph, todo: set<nat>, first: SetInfo, best: SetInfo, hasOld: bool,
                                         rem: seq<nat>)
    requires g.Valid() && todo <= g.used && ValidBest(g, todo, first) && ValidBest(g, todo, best)
    requires Improved(first.feerate, best.feerate)
    requires hasOld ==> g.IsLinearization(todo, rem) && NotBelowFirstChunk(g, rem, first.feerate)
    ensures hasOld ==> NotBelowFirstChunk(g, rem, best.feerate)
  {
    if hasOld {
      FirstChunkInfo(g, todo, rem);
      SetRateSize(g, Elements(Chunking(g, rem)[0]));
      SetRateSize(g, first.transactions);
      SetRateSize(g, best.transactions);
      ImprovedNotLower(first.feerate, best.feerate);
      NotLowerTransitive(best.feerate, first.feerate, g.SeqRate(Chunking(g, rem)[0]));
    }
  }

  // ---- Linearize ----

  /** While linearizing: what has been output is as good as old so far, if there is an old one, and
      as good as anything if every choice was optimal. */
  ghost predicate Underway(g: Graph, todo: set<nat>, out: seq<nat>, rem: seq<nat>, old': seq<nat>, optimal: bool) {
    && todo <= g.used && g.Topological(g.used - todo, g.used) && g.IsLinearization(g.used - todo, out)
    && (old' != [] ==> Progress(g, todo, out, rem, old'))
    && (optimal ==> BestSoFar(g, todo, out))
  }

  lemma {:induction false} UnderwayStep(g: Graph, todo: set<nat>, out: seq<nat>, rem: seq<nat>, old': seq<nat>,
                                        optimal: bool, t: set<nat>, ret: seq<nat>, now: bool)
    requires g.Valid() && Underway(g, todo, out, rem, old', optimal)
    requires GoodChoice(g, todo, old' != [], rem, t, now)
    requires |out| <= |ret| && ret[..|out|] == out && g.IsLinearization(t, ret[|out|..])
    ensures Underway(g, todo - t, ret, Filter(rem, todo - t), old', optimal && now)
  {
    DoneStaysTopological(g, todo, t, out, ret[|out|..]);
    assert ret == out + ret[|out|..];
    if old' != [] {
      ProgressStep(g, todo, out, rem, old', t, ret);
    }
    if optimal && now {
      BestStep(g, todo, out, t, ret);
    }
  }

  lemma {:induction false} UnderwayStart(g: Graph, old': seq<nat>)
    requires g.Valid() && (old' == [] || g.IsLinearization(g.used, old'))
    ensures Underway(g, g.used, [], old', old', true)
  {
    assert g.used - g.used == {};
    assert Elements([]) == {};
    BestStart(g);
    if old' != [] {
      ProgressStart(g, old');
    }
  }

  lemma {:induction false} UnderwayEnd(g: Graph, out: seq<nat>, rem: seq<nat>, old': seq<nat>, optimal: bool)
    requires g.Valid() && (old' == [] || g.IsLinearization(g.used, old'))
    requires Underway(g, {}, out, rem, old', optimal)
    ensures g.IsLinearization(g.used, out)
    ensures old' != [] ==> AtLeastAsGood(g, out, old')
    ensures optimal ==> forall lin :: g.IsLinearization(g.used, lin) ==> AtLeastAsGood(g, out, lin)
  {
    assert g.used - {} == g.used;
    if old' != [] {
      ProgressEnd(g, out, rem, old');
    }
    if optimal {
      BestEnd(g, out);
    }
  }

  /** The finders and the old chunking all agree on what remains. */
  ghost predicate Tracking(g: Graph, finder: AncestorCandidateFinder, src: SearchCandidateFinder?,
                           old': LinearizationChunking, todo: set<nat>, hasOld: bool, rem: seq<nat>)
    reads finder, src, old'
  {
    && finder.Valid() && finder.g == g && finder.todo == todo
    && (src != null ==> src.Valid() && src.g == g && src.Remaining() == todo)
    && old'.Valid() && old'.g == g && old'.todo == (if hasOld then todo else {})
    && (hasOld ==> old'.Remaining() == rem)
  }

  lemma {:induction false} TakenAway(todo: set<nat>, t: set<nat>)
    requires t != {} && t <= todo
    ensures todo - t < todo && |todo - t| <= |todo| - 1
  {
    var x :| x in t;
    Subset(todo - t, todo - {x});
  }

  /** Append t to the output in topological order. */
  method OutputSet(g: Graph, ghost todo: set<nat>, out: seq<nat>, ghost rem: seq<nat>, ghost old': seq<nat>,
                   ghost optimal: bool, t: set<nat>, ghost now: bool) returns (ret: seq<nat>)
    requires g.Valid() && Underway(g, todo, out, rem, old', optimal)
    requires GoodChoice(g, todo, old' != [], rem, t, now)
    ensures Underway(g, todo - t, ret, Filter(rem, todo - t), old', optimal && now)
  {
    ret := AppendTopo(g, out, t);
    UnderwayStep(g, todo, out, rem, old', optimal, t, ret, now);
  }

  /** Take t out of everything that tracks what remains. */
  method MarkDoneAll(g: Graph, finder: AncestorCandidateFinder, src: SearchCandidateFinder?,
                     old': LinearizationChunking, ghost todo: set<nat>, ghost hasOld: bool, ghost rem: seq<nat>,
                     t: set<nat>) returns (done: bool)
    requires Tracking(g, finder, src, old', todo, hasOld, rem) && t != {} && t <= todo
    modifies finder, src, old'
    ensures done == (todo - t == {})
    ensures !done ==> Tracking(g, finder, src, old', todo - t, hasOld, Filter(rem, todo - t))
  {
    finder.MarkDone(t);
    done := finder.AllDone();
    if done {
      return;
    }
    if src != null {
      src.MarkDone(t);
    }
    NothingLeft(old');
    if old'.NumChunksLeft() > 0 {
      old'.MarkDone(t);
    }
  }

  /** So many iterations are always enough for an optimal linearization. */
  function EnoughFor(n: nat): nat {
    (n * n + 63) / 64 + Enough(n)
  }

  /** Nowhere worse than what is given, and if reported optimal, as it is with enough iterations, than anything. */
  method Linearize(g: Graph, maxIterations: nat, oldLinearization: seq<nat>)
    returns (linearization: seq<nat>, optimal: bool)
    requires g.Valid()
    requires oldLinearization == [] || g.IsLinearization(g.used, oldLinearization)
    ensures g.IsLinearization(g.used, linearization)
    ensures oldLinearization != [] ==> AtLeastAsGood(g, linearization, oldLinearization)
    ensures optimal ==> forall lin :: g.IsLinearization(g.used, lin) ==> AtLeastAsGood(g, linearization, lin)
    ensures maxIterations >= EnoughFor(|g.used|) ==> optimal
  {
    if |g.used| == 0 {
      UnderwayStart(g, oldLinearization);
      UnderwayEnd(g, [], oldLinearization, oldLinearization, true);
      return [], true;
    }
    var iterationsLeft: nat := maxIterations;
    var ancFinder := new AncestorCandidateFinder(g);
    var srcFinder: SearchCandidateFinder? := null;
    var startIterations := (|g.used| * |g.used| + 63) / 64;
    if iterationsLeft > startIterations {
      iterationsLeft := iterationsLeft - startIterations;
      srcFinder := new SearchCandidateFinder(g);
    }
    assert Elements([]) == {};
    var oldChunking := new LinearizationChunking(g, oldLinearization);
    linearization, optimal := OutputAll(g, ancFinder, srcFinder, oldChunking, iterationsLeft, oldLinearization);
  }

  /** Choose and output one set after another. */
  method OutputAll(g: Graph, ancFinder: AncestorCandidateFinder, srcFinder: SearchCandidateFinder?,
                   oldChunking: LinearizationChunking, iterations: nat, ghost oldLinearization: seq<nat>)
    returns (linearization: seq<nat>, optimal: bool)
    requires g.Valid() && g.used != {} && (oldLinearization == [] || g.IsLinearization(g.used, oldLinearization))
    requires Tracking(g, ancFinder, srcFinder, oldChunking, g.used, oldLinearization != [], oldLinearization)
    modifies ancFinder, srcFinder, oldChunking
    ensures g.IsLinearization(g.used, linearization)
    ensures oldLinearization != [] ==> AtLeastAsGood(g, linearization, oldLinearization)
    ensures optimal ==> forall lin :: g.IsLinearization(g.used, lin) ==> AtLeastAsGood(g, linearization, lin)
    ensures srcFinder != null && iterations >= Enough(|g.used|) ==> optimal
  {
    linearization, optimal := [], true;
    var iterationsLeft: nat := iterations;
    ghost var enough := srcFinder != null && iterations >= Enough(|g.used|);
    ghost var todo, rem, hasOld := g.used, oldLinearization, oldLinearization != [];
    UnderwayStart(g, oldLinearization);
    while true
      invariant Tracking(g, ancFinder, srcFinder, oldChunking, todo, hasOld, rem) && todo != {}
      invariant Underway(g, todo, linearization, rem, oldLinearization, optimal)
      invariant Rich(enough, srcFinder, iterationsLeft, |todo|) && (enough ==> optimal)
      decreases todo
    {
      var done;
      ghost var t;
      linearization, optimal, iterationsLeft, done, t := OutputNext(g, ancFinder, srcFinder, oldChunking, todo, rem,
                                                                    linearization, optimal, iterationsLeft,
                                                                    oldLinearization, enough);
      TakenAway(todo, t);
      todo := todo - t;
      rem := Filter(rem, todo);
      if done {
        break;
      }
    }
    UnderwayEnd(g, linearization, rem, oldLinearization, optimal);
  }

  /** Choose and output one set. */
  method OutputNext(g: Graph, ancFinder: AncestorCandidateFinder, srcFinder: SearchCandidateFinder?,
                    oldChunking: LinearizationChunking, ghost todo: set<nat>, ghost rem: seq<nat>,
                    before: seq<nat>, optimalBefore: bool, iterationsLeft: nat, ghost oldLinearization: seq<nat>,
                    ghost enough: bool)
    returns (linearization: seq<nat>, optimal: bool, left: nat, done: bool, ghost t: set<nat>)
    requires g.Valid() && todo != {}
    requires Tracking(g, ancFinder, srcFinder, oldChunking, todo, oldLinearization != [], rem)
    requires Underway(g, todo, before, rem, oldLinearization, optimalBefore)
    requires Rich(enough, srcFinder, iterationsLeft, |todo|)
    modifies ancFinder, srcFinder, oldChunking
    ensures t != {} && t <= todo && done == (todo - t == {})
    ensures Underway(g, todo - t, linearization, Filter(rem, todo - t), oldLinearization, optimal)
    ensures !done ==>
      Tracking(g, ancFinder, srcFinder, oldChunking, todo - t, oldLinearization != [], Filter(rem, todo - t))
    ensures Rich(enough, srcFinder, left, |todo - t|) && (enough && optimalBefore ==> optimal)
  {
    NotEmpty(todo);
    var best, now;
    best, left, now := ChooseNext(g, ancFinder, srcFinder, oldChunking, iterationsLeft, enough, |todo|, |todo| - 1);
    t := best.transactions;
    linearization := OutputSet(g, todo, before, rem, oldLinearization, optimalBefore, best.transactions, now);
    optimal := optimalBefore && now;
    done := MarkDoneAll(g, ancFinder, srcFinder, oldChunking, todo, oldLinearization != [], rem, best.transactions);
    RichForFewer(enough, srcFinder, left, todo, t);
  }

  lemma {:induction false} NotEmpty(s: set<nat>)
    requires s != {}
    ensures |s| > 0
  {
    var x :| x in s;
    Subset({x}, s);
  }

  lemma {:induction false} RichForFewer(enough: bool, src: SearchCandidateFinder?, left: nat, todo: set<nat>,
                                        t: set<nat>)
    requires t != {} && t <= todo && |todo| > 0 && Rich(enough, src, left, |todo| - 1)
    ensures Rich(enough, src, left, |todo - t|)
  {
    TakenAway(todo, t);
    EnoughForFewer(|todo - t|, |todo| - 1);
  }
}
