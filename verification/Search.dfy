/** Branch-and-bound search for a topologically valid subset of highest feerate. */
module Searching {
  import opened FeeFracs
  import opened Sets
  import opened Graphs
  import opened LinearizationChunkings
  import opened Components
  import opened Radix
  import opened SearchBounds

  /** A family of candidates: inc is included, und is undecided, all else is excluded. */
  datatype WorkItem = WorkItem(inc: SetInfo, und: set<nat>, potFeerate: FeeFrac)

  // ---- what the search maintains ----

  /** Positions are in order of decreasing individual feerate. */
  ghost predicate SortedByFeerate(g: Graph) {
    forall i, j {:trigger g.FeeRate(i).NotLower(g.FeeRate(j))} ::
      i in g.used && j in g.used && i < j ==> g.FeeRate(i).NotLower(g.FeeRate(j))
  }

  /** c is a topological set between inc and inc + und. */
  ghost predicate Compatible(g: Graph, todo: set<nat>, inc: set<nat>, und: set<nat>, c: set<nat>) {
    inc <= c <= inc + und && g.Topological(c, todo)
  }

  /** The family (inc, und) has a member at least as good as b. */
  ghost predicate Serves(g: Graph, todo: set<nat>, inc: set<nat>, und: set<nat>, b: set<nat>) {
    exists c :: c != {} && Compatible(g, todo, inc, und, c) && g.SetRate(c).NotLower(g.SetRate(b))
  }

  ghost predicate Candidate(g: Graph, todo: set<nat>, b: set<nat>) {
    b != {} && g.Topological(b, todo)
  }

  /** b is a topological set of higher feerate than the best known. */
  ghost predicate Challenges(g: Graph, todo: set<nat>, best: FeeFrac, b: set<nat>) {
    Candidate(g, todo, b) && g.SetRate(b).Higher(best)
  }

  /** No member of the family (inc, und), topological or not, has a feerate above both bounds. */
  ghost predicate Bounded(g: Graph, inc: set<nat>, und: set<nat>, x: FeeFrac, y: FeeFrac) {
    forall c {:trigger Between(inc, und, c)} ::
      Between(inc, und, c) ==> !g.SetRate(c).Higher(x) || !g.SetRate(c).Higher(y)
  }

  ghost predicate Between(inc: set<nat>, und: set<nat>, c: set<nat>) {
    c != {} && inc <= c <= inc + und
  }

  ghost predicate ValidFamily(g: Graph, todo: set<nat>, inc: SetInfo, und: set<nat>) {
    && inc.Describes(g) && g.Topological(inc.transactions, todo)
    && und <= todo && inc.transactions !! und
    && g.Topological(inc.transactions + und, todo)
  }

  ghost predicate ValidItem(g: Graph, todo: set<nat>, best: FeeFrac, item: WorkItem) {
    && ValidFamily(g, todo, item.inc, item.und) && item.und != {}
    && (item.inc.transactions != {} ==>
          && !item.inc.feerate.Higher(best)
          && item.potFeerate.size > 0
          && Bounded(g, item.inc.transactions, item.und, item.potFeerate, best))
  }

  ghost predicate ValidBest(g: Graph, todo: set<nat>, best: SetInfo) {
    best.Describes(g) && best.transactions != {} && g.Topological(best.transactions, todo)
  }

  /** Every challenger is matched by a member of a queued family. */
  ghost predicate Covered(g: Graph, todo: set<nat>, best: FeeFrac, queue: seq<WorkItem>) {
    forall b :: Challenges(g, todo, best, b) ==> ServedBy(g, todo, queue, b)
  }

  ghost predicate ServedBy(g: Graph, todo: set<nat>, queue: seq<WorkItem>, b: set<nat>) {
    exists item :: item in queue && Serves(g, todo, item.inc.transactions, item.und, b)
  }

  /** imp is those of todo that beat the best known set on their own. */
  ghost predicate IsImp(g: Graph, todo: set<nat>, best: FeeFrac, imp: set<nat>) {
    imp <= todo && forall i :: i in todo ==> (i in imp <==> g.FeeRate(i).Higher(best))
  }

  /** next is best or better. */
  ghost predicate Improved(best: FeeFrac, next: FeeFrac) {
    next == best || next.Better(best)
  }

  // ---- sums of transactions on one side of a price ----

  lemma {:induction false} NoGain(g: Graph, s: set<nat>, x: FeeFrac)
    requires forall t :: t in s ==> !g.FeeRate(t).Higher(x)
    ensures Value(x.fee, x.size, g.SetRate(s)) <= 0
    decreases s
  {
    if s == {} {
      SetRateEmpty(g);
    } else {
      var t :| t in s;
      NoGain(g, s - {t}, x);
      SetRateRemove(g, s, t);
      HigherIsValue(g.FeeRate(t), x);
      ValuePlus(x.fee, x.size, g.FeeRate(t), g.SetRate(s - {t}));
    }
  }

  lemma {:induction false} AllGain(g: Graph, s: set<nat>, x: FeeFrac)
    requires forall t :: t in s ==> !x.Higher(g.FeeRate(t))
    ensures Value(x.fee, x.size, g.SetRate(s)) >= 0
    decreases s
  {
    if s == {} {
      SetRateEmpty(g);
    } else {
      var t :| t in s;
      AllGain(g, s - {t}, x);
      SetRateRemove(g, s, t);
      HigherIsValue(g.FeeRate(t), x);
      ValuePlus(x.fee, x.size, g.FeeRate(t), g.SetRate(s - {t}));
    }
  }

  /** Trading the part of pot outside c, all above x, for transactions not above x, stays not above x. */
  lemma {:induction false} TradeDown(g: Graph, pot: set<nat>, c: set<nat>, x: FeeFrac)
    requires !g.SetRate(pot).Higher(x)
    requires forall t :: t in pot - c ==> !x.Higher(g.FeeRate(t))
    requires forall t :: t in c - pot ==> !g.FeeRate(t).Higher(x)
    ensures !g.SetRate(c).Higher(x)
  {
    var p, q := x.fee, x.size;
    SetRateSplit(g, pot, c);
    SetRateSplit(g, c, pot);
    assert pot * c == c * pot;
    AllGain(g, pot - c, x);
    NoGain(g, c - pot, x);
    HigherIsValue(g.SetRate(pot), x);
    HigherIsValue(g.SetRate(c), x);
    ValuePlus(p, q, g.SetRate(pot * c), g.SetRate(pot - c));
    ValuePlus(p, q, g.SetRate(c * pot), g.SetRate(c - pot));
  }

  // ---- the potential of a family ----

  /** pot extends inc by exactly those undecided improving transactions that are above pot itself. */
  ghost predicate IsPotential(g: Graph, inc: set<nat>, candidates: set<nat>, pot: set<nat>) {
    && inc <= pot <= inc + candidates
    && (forall t :: t in pot - inc ==> g.FeeRate(t).Higher(g.SetRate(pot)))
    && (forall t :: t in candidates - pot ==> !g.FeeRate(t).Higher(g.SetRate(pot)))
  }

  /** No superset of inc within inc + und is above both the potential and the best known. */
  lemma {:induction false} PotentialBounds(g: Graph, todo: set<nat>, inc: set<nat>, und: set<nat>, imp: set<nat>,
                                           best: FeeFrac, pot: set<nat>)
    requires g.PositiveSizes() && todo <= g.used && inc <= todo && und <= todo && inc != {} && best.size > 0
    requires IsImp(g, todo, best, imp) && IsPotential(g, inc, imp * und, pot)
    ensures Bounded(g, inc, und, g.SetRate(pot), best)
  {
    var rate := g.SetRate(pot);
    SetRateSize(g, pot);
    forall c | Between(inc, und, c) ensures !g.SetRate(c).Higher(rate) || !g.SetRate(c).Higher(best) {
      var x := if rate.NotLower(best) then rate else best;
      assert !rate.Higher(x);
      forall t | t in pot - c ensures !x.Higher(g.FeeRate(t)) {
        assert t in pot - inc;
      }
      forall t | t in c - pot ensures !g.FeeRate(t).Higher(x) {
        assert t in und && t in todo;
        if t in imp {
          assert t in imp * und - pot;
          NotLowerTransitive(x, rate, g.FeeRate(t));
        } else {
          NotLowerTransitive(x, best, g.FeeRate(t));
        }
      }
      TradeDown(g, pot, c, x);
    }
  }

  /** Adding to c parts of the potential of its family does not lower its feerate. */
  lemma {:induction false} JumpAhead(g: Graph, todo: set<nat>, inc: set<nat>, und: set<nat>, pot: set<nat>,
                                     best: FeeFrac, inc': set<nat>, c: set<nat>)
    requires g.PositiveSizes() && todo <= g.used && inc <= todo && und <= todo && c != {} && pot <= todo
    requires Compatible(g, todo, inc, und, c) && g.SetRate(c).Higher(best)
    requires Bounded(g, inc, und, g.SetRate(pot), best)
    requires inc <= inc' <= pot && g.Topological(inc', todo) && pot <= inc + und
    requires forall t :: t in pot - inc ==> g.FeeRate(t).Higher(g.SetRate(pot))
    ensures Compatible(g, todo, inc', und - inc', c + inc')
    ensures g.SetRate(c + inc').NotLower(g.SetRate(c))
  {
    TopologicalMeet(g, c, inc', todo);
    var extra := inc' - c;
    assert c + inc' == c + extra;
    SetRateUnion(g, c, extra);
    SetRateSize(g, c);
    var rate, rc := g.SetRate(pot), g.SetRate(c);
    assert Between(inc, und, c);
    assert rate.NotLower(rc);
    forall t | t in extra ensures !rc.Higher(g.FeeRate(t)) {
      assert t in pot - inc;
      SetRateSize(g, pot);
      NotLowerTransitive(g.FeeRate(t), rate, rc);
    }
    AllGain(g, extra, rc);
    HigherIsValue(rc, rc);
    HigherIsValue(g.SetRate(c + inc'), rc);
    ValuePlus(rc.fee, rc.size, rc, g.SetRate(extra));
  }

  // ---- the pieces of add_fn ----

  /** Add candidates to pot, best feerate first, as long as each improves it. */
  method Potential(g: Graph, inc: SetInfo, candidates: set<nat>) returns (pot: SetInfo)
    requires g.PositiveSizes() && SortedByFeerate(g) && inc.Describes(g)
    requires inc.transactions != {} && inc.transactions <= g.used && candidates <= g.used
    requires inc.transactions !! candidates
    ensures pot.Describes(g) && IsPotential(g, inc.transactions, candidates, pot.transactions)
  {
    pot := inc;
    var rest := candidates;
    while rest != {}
      invariant rest <= candidates && pot.Describes(g)
      invariant pot.transactions == inc.transactions + (candidates - rest)
      invariant forall t :: t in candidates - rest ==> g.FeeRate(t).Higher(pot.feerate)
      invariant forall t, u :: t in candidates - rest && u in rest ==> t < u
      decreases rest
    {
      var pos := First(rest);
      if !g.FeeRate(pos).Higher(pot.feerate) {
        PotentialStops(g, pot.transactions, rest, pos);
        break;
      }
      PotentialGrows(g, pot.transactions, candidates - rest, pos);
      assert (candidates - rest) + {pos} == candidates - (rest - {pos});
      pot := SetInfo(pot.transactions + {pos}, pot.feerate.Plus(g.FeeRate(pos)));
      rest := rest - {pos};
    }
  }

  lemma {:induction false} PotentialStops(g: Graph, pot: set<nat>, rest: set<nat>, pos: nat)
    requires g.PositiveSizes() && SortedByFeerate(g) && pot != {} && pot <= g.used && rest <= g.used
    requires pos in rest && (forall u :: u in rest ==> pos <= u) && !g.FeeRate(pos).Higher(g.SetRate(pot))
    ensures forall u :: u in rest ==> !g.FeeRate(u).Higher(g.SetRate(pot))
  {
    SetRateSize(g, pot);
    forall u | u in rest ensures !g.FeeRate(u).Higher(g.SetRate(pot)) {
      if u != pos {
        NotLowerTransitive(g.SetRate(pot), g.FeeRate(pos), g.FeeRate(u));
      }
    }
  }

  lemma {:induction false} PotentialGrows(g: Graph, pot: set<nat>, added: set<nat>, pos: nat)
    requires g.PositiveSizes() && SortedByFeerate(g) && pot != {} && pot <= g.used && pos in g.used
    requires added <= pot && pos !in pot && g.FeeRate(pos).Higher(g.SetRate(pot))
    requires forall t :: t in added ==> t < pos
    ensures g.SetRate(pot + {pos}) == g.SetRate(pot).Plus(g.FeeRate(pos))
    ensures forall t :: t in added + {pos} ==> g.FeeRate(t).Higher(g.SetRate(pot + {pos}))
  {
    SetRateUnion(g, pot, {pos});
    SetRateSingleton(g, pos);
    SetRateSize(g, pot);
    SetRateSize(g, pot + {pos});
    var rate, rate' := g.FeeRate(pos), g.SetRate(pot + {pos});
    Mediant(rate, g.SetRate(pot));
    PlusCommutes(rate, g.SetRate(pot));
    forall t | t in added ensures g.FeeRate(t).Higher(rate') {
      NotLowerTransitive(g.FeeRate(t), rate, rate');
    }
  }

  /** inc with every remaining ancestor set that lies within pot. */
  method JumpInclude(g: Graph, todo: set<nat>, inc: set<nat>, pot: set<nat>) returns (inc': set<nat>)
    requires g.Consistent() && todo <= g.used && g.Topological(inc, todo) && inc <= pot <= todo
    ensures inc <= inc' <= pot && g.Topological(inc', todo)
    ensures forall pos :: pos in pot && g.Ancestors(pos) * todo <= pot ==> pos in inc'
  {
    inc' := inc;
    var rest := pot - inc;
    while rest != {}
      invariant rest <= pot && inc <= inc' <= pot && g.Topological(inc', todo)
      invariant forall pos :: pos in pot && pos !in rest && g.Ancestors(pos) * todo <= pot ==> pos in inc'
      decreases rest
    {
      var pos := First(rest);
      var ancTodo := g.Ancestors(pos) * todo;
      RemainingAncestors(g, todo, pos);
      if ancTodo <= pot {
        TopologicalMeet(g, inc', ancTodo, todo);
        inc' := inc' + ancTodo;
      }
      rest := rest - {pos};
    }
  }

  lemma {:induction false} RemainingAncestors(g: Graph, todo: set<nat>, i: nat)
    requires g.Consistent() && todo <= g.used && i in todo
    ensures g.Topological(g.Ancestors(i) * todo, todo) && i in g.Ancestors(i) * todo
  {
  }

  /** Drop from imp the transactions that no longer beat best. */
  method TrimImp(g: Graph, todo: set<nat>, best: FeeFrac, imp: set<nat>) returns (r: set<nat>)
    requires g.PositiveSizes() && SortedByFeerate(g) && todo <= g.used && best.size > 0
    requires imp <= todo && forall i :: i in todo && g.FeeRate(i).Higher(best) ==> i in imp
    ensures IsImp(g, todo, best, r)
  {
    r := imp;
    while r != {}
      invariant r <= todo && forall i :: i in todo && g.FeeRate(i).Higher(best) ==> i in r
      decreases r
    {
      var check := Last(r);
      if g.FeeRate(check).Higher(best) {
        forall i | i in r ensures g.FeeRate(i).Higher(best) {
          if i != check {
            NotLowerTransitive(g.FeeRate(i), g.FeeRate(check), best);
          }
        }
        break;
      }
      r := r - {check};
    }
  }

  // ---- add_fn ----

  lemma {:induction false} ImprovedNotLower(best: FeeFrac, next: FeeFrac)
    requires Improved(best, next)
    ensures next.NotLower(best)
  {
  }

  /** Work items stay valid when the best known improves. */
  lemma {:induction false} ItemStaysValid(g: Graph, todo: set<nat>, best: FeeFrac, next: FeeFrac, item: WorkItem)
    requires g.PositiveSizes() && todo <= g.used && best.size > 0 && next.size > 0
    requires ValidItem(g, todo, best, item) && next.NotLower(best)
    ensures ValidItem(g, todo, next, item)
  {
    var inc := item.inc.transactions;
    if inc != {} {
      SetRateSize(g, inc);
      NotLowerTransitive(next, best, item.inc.feerate);
      BoundStays(g, todo, inc, item.und, item.potFeerate, best, next);
    }
  }

  lemma {:induction false} BoundStays(g: Graph, todo: set<nat>, inc: set<nat>, und: set<nat>, x: FeeFrac, best: FeeFrac,
                                      next: FeeFrac)
    requires g.PositiveSizes() && todo <= g.used && best.size > 0 && next.size > 0
    requires inc <= todo && und <= todo && Bounded(g, inc, und, x, best) && next.NotLower(best)
    ensures Bounded(g, inc, und, x, next)
  {
    forall c | Between(inc, und, c) ensures !g.SetRate(c).Higher(x) || !g.SetRate(c).Higher(next) {
      SetRateSize(g, c);
      if !g.SetRate(c).Higher(best) {
        NotLowerTransitive(next, best, g.SetRate(c));
      }
    }
  }

  lemma {:induction false} ChallengesEarlier(g: Graph, todo: set<nat>, best: FeeFrac, next: FeeFrac, b: set<nat>)
    requires g.PositiveSizes() && todo <= g.used && best.size > 0 && next.size > 0
    requires next.NotLower(best) && Challenges(g, todo, next, b)
    ensures Challenges(g, todo, best, b)
  {
    SetRateSize(g, b);
    NotLowerTransitive(g.SetRate(b), next, best);
  }

  /** When no member of a family beats the best known, the family serves no challenger. */
  lemma {:induction false} HopelessServesNone(g: Graph, todo: set<nat>, inc: set<nat>, und: set<nat>, best: FeeFrac,
                                              b: set<nat>)
    requires g.PositiveSizes() && todo <= g.used && best.size > 0
    requires forall c :: c != {} && Compatible(g, todo, inc, und, c) ==> !g.SetRate(c).Higher(best)
    requires Challenges(g, todo, best, b)
    ensures !Serves(g, todo, inc, und, b)
  {
    forall c | c != {} && Compatible(g, todo, inc, und, c) ensures !g.SetRate(c).NotLower(g.SetRate(b)) {
      SetRateSize(g, c);
      SetRateSize(g, b);
      if g.SetRate(c).NotLower(g.SetRate(b)) {
        NotLowerTransitive(g.SetRate(c), g.SetRate(b), best);
      }
    }
  }

  /** The family after jumping ahead serves every challenger the family before it served. */
  lemma {:induction false} JumpServes(g: Graph, todo: set<nat>, inc: set<nat>, und: set<nat>, pot: set<nat>,
                                      best: FeeFrac, next: FeeFrac, inc': set<nat>)
    requires g.PositiveSizes() && todo <= g.used && inc <= todo && und <= todo && pot <= todo
    requires best.size > 0 && next.size > 0 && next.NotLower(best)
    requires Bounded(g, inc, und, g.SetRate(pot), best)
    requires inc <= inc' <= pot && g.Topological(inc', todo) && pot <= inc + und
    requires forall t :: t in pot - inc ==> g.FeeRate(t).Higher(g.SetRate(pot))
    ensures forall b :: Challenges(g, todo, next, b) && Serves(g, todo, inc, und, b) ==>
      Serves(g, todo, inc', und - inc', b)
  {
    forall b | Challenges(g, todo, next, b) && Serves(g, todo, inc, und, b)
      ensures Serves(g, todo, inc', und - inc', b)
    {
      ChallengesEarlier(g, todo, best, next, b);
      var c :| c != {} && Compatible(g, todo, inc, und, c) && g.SetRate(c).NotLower(g.SetRate(b));
      SetRateSize(g, c);
      SetRateSize(g, b);
      NotLowerTransitive(g.SetRate(c), g.SetRate(b), best);
      JumpAhead(g, todo, inc, und, pot, best, inc', c);
      SetRateSize(g, c + inc');
      NotLowerTransitive(g.SetRate(c + inc'), g.SetRate(c), g.SetRate(b));
    }
  }

  /** When the potential is fully included, nothing in the family can beat the best known. */
  lemma {:induction false} NothingBeyondIncluded(g: Graph, todo: set<nat>, inc: set<nat>, und: set<nat>, best: FeeFrac,
                                                 next: FeeFrac, b: set<nat>)
    requires g.PositiveSizes() && todo <= g.used && inc <= todo && inc != {} && und <= todo
    requires best.size > 0 && next.size > 0 && next.NotLower(best) && next.NotLower(g.SetRate(inc))
    requires Bounded(g, inc, und, g.SetRate(inc), best) && Challenges(g, todo, next, b)
    ensures !Serves(g, todo, inc, und, b)
  {
    SetRateSize(g, inc);
    forall c | c != {} && Compatible(g, todo, inc, und, c) ensures !g.SetRate(c).Higher(next) {
      SetRateSize(g, c);
      assert Between(inc, und, c);
      if !g.SetRate(c).Higher(best) {
        NotLowerTransitive(next, best, g.SetRate(c));
      } else {
        NotLowerTransitive(next, g.SetRate(inc), g.SetRate(c));
      }
    }
    HopelessServesNone(g, todo, inc, und, next, b);
  }

  /** What the search carries along: the best known set, and the transactions that beat it. */
  ghost predicate ValidState(g: Graph, todo: set<nat>, best: SetInfo, imp: set<nat>) {
    && g.Valid() && SortedByFeerate(g) && todo <= g.used
    && ValidBest(g, todo, best) && IsImp(g, todo, best.feerate, imp)
  }

  ghost predicate ValidQueue(g: Graph, todo: set<nat>, best: FeeFrac, queue: seq<WorkItem>) {
    forall k :: 0 <= k < |queue| ==> ValidItem(g, todo, best, queue[k])
  }

  lemma {:induction false} QueueStaysValid(g: Graph, todo: set<nat>, best: FeeFrac, next: FeeFrac, queue: seq<WorkItem>)
    requires g.PositiveSizes() && todo <= g.used && best.size > 0 && next.size > 0
    requires ValidQueue(g, todo, best, queue) && next.NotLower(best)
    ensures ValidQueue(g, todo, next, queue)
  {
    forall k | 0 <= k < |queue| ensures ValidItem(g, todo, next, queue[k]) {
      ItemStaysValid(g, todo, best, next, queue[k]);
    }
  }

  /** How many splits the items on a queue can still lead to: each separates two sets of a family. */
  ghost function Load(g: Graph, todo: set<nat>, queue: seq<WorkItem>): int {
    if queue == [] then 0 else Weight(g, todo, queue[0]) + Load(g, todo, queue[1..])
  }

  ghost function Weight(g: Graph, todo: set<nat>, item: WorkItem): int {
    |Family(g, todo, item.inc.transactions, item.und)| - 1
  }

  lemma {:induction false} LoadJoin(g: Graph, todo: set<nat>, a: seq<WorkItem>, b: seq<WorkItem>)
    ensures Load(g, todo, a + b) == Load(g, todo, a) + Load(g, todo, b)
  {
    if a == [] {
      assert a + b == b;
    } else {
      assert (a + b)[1..] == a[1..] + b;
      LoadJoin(g, todo, a[1..], b);
    }
  }

  lemma {:induction false} LoadOne(g: Graph, todo: set<nat>, item: WorkItem)
    ensures Load(g, todo, [item]) == Weight(g, todo, item)
  {
    assert [item][1..] == [];
  }

  /** No item on the queue counts negatively. */
  lemma {:induction false} LoadNotNegative(g: Graph, todo: set<nat>, best: FeeFrac, queue: seq<WorkItem>)
    requires ValidQueue(g, todo, best, queue)
    ensures Load(g, todo, queue) >= 0
  {
    if queue != [] {
      assert ValidItem(g, todo, best, queue[0]);
      FamilySize(g, todo, queue[0].inc.transactions, queue[0].und);
      forall k | 0 <= k < |queue[1..]| ensures ValidItem(g, todo, best, queue[1..][k]) {
        assert queue[1..][k] == queue[k + 1];
      }
      LoadNotNegative(g, todo, best, queue[1..]);
    }
  }

  /** The outcome of adding a family: nothing, or one item standing for it. */
  datatype Addition = Dropped | Added(item: WorkItem)

  ghost predicate StandsFor(g: Graph, todo: set<nat>, best: FeeFrac, inc: set<nat>, und: set<nat>, a: Addition) {
    && (a.Added? ==> ValidItem(g, todo, best, a.item) && a.item.und <= und)
    && Load(g, todo, Items(a)) + 1 <= |Family(g, todo, inc, und)|
    && forall b :: Challenges(g, todo, best, b) && Serves(g, todo, inc, und, b) ==>
         a.Added? && Serves(g, todo, a.item.inc.transactions, a.item.und, b)
  }

  /** Narrow a family down without losing what beats best, take inc for the best if it is, and make a work item of
      the rest if anything in it might still win. */
  method AddFamily(g: Graph, todo: set<nat>, best: SetInfo, imp: set<nat>, inc: SetInfo, und: set<nat>)
    returns (best': SetInfo, imp': set<nat>, a: Addition)
    requires ValidState(g, todo, best, imp) && ValidFamily(g, todo, inc, und)
    ensures ValidState(g, todo, best', imp') && Improved(best.feerate, best'.feerate)
    ensures StandsFor(g, todo, best'.feerate, inc.transactions, und, a)
  {
    best', imp' := best, imp;
    SetRateSize(g, inc.transactions);
    SetRateSize(g, best.transactions);
    FamilySize(g, todo, inc.transactions, und);
    if inc.feerate.IsEmpty() {
      if und == {} {
        return best', imp', Dropped;
      }
      LoadOne(g, todo, WorkItem(inc, und, inc.feerate));
      return best', imp', Added(WorkItem(inc, und, inc.feerate));
    }
    var pot := Potential(g, inc, imp * und);
    PotentialBounds(g, todo, inc.transactions, und, imp, best.feerate, pot.transactions);
    var included := JumpInclude(g, todo, inc.transactions, pot.transactions);
    var inc' := SetInfo(included, inc.feerate.Plus(g.SetRate(included - inc.transactions)));
    var und' := und - included;
    Included(g, inc.transactions, included);
    SetRateSize(g, included);
    if inc'.feerate.Better(best.feerate) {
      best' := inc';
      imp' := TrimAfterBetter(g, todo, best.feerate, inc'.feerate, imp);
    }
    a := Conclude(g, todo, best.feerate, best'.feerate, inc.transactions, und, pot, inc', und');
  }

  lemma {:induction false} Included(g: Graph, inc: set<nat>, included: set<nat>)
    requires inc <= included
    ensures g.SetRate(included) == g.SetRate(inc).Plus(g.SetRate(included - inc))
  {
    SetRateUnion(g, inc, included - inc);
    assert included == inc + (included - inc);
  }

  method TrimAfterBetter(g: Graph, todo: set<nat>, best: FeeFrac, next: FeeFrac, imp: set<nat>) returns (r: set<nat>)
    requires g.PositiveSizes() && SortedByFeerate(g) && todo <= g.used && best.size > 0 && next.size > 0
    requires IsImp(g, todo, best, imp) && next.Better(best)
    ensures IsImp(g, todo, next, r)
  {
    forall i | i in todo && g.FeeRate(i).Higher(next) ensures i in imp {
      NotLowerTransitive(g.FeeRate(i), next, best);
    }
    r := TrimImp(g, todo, next, imp);
  }

  /** Decide whether the family, after jumping ahead to inc' and und', is worth queueing. */
  method Conclude(g: Graph, todo: set<nat>, ghost best: FeeFrac, next: FeeFrac, ghost inc: set<nat>,
                  ghost und: set<nat>, pot: SetInfo, inc': SetInfo, und': set<nat>) returns (a: Addition)
    requires g.Valid() && todo <= g.used && best.size > 0 && next.size > 0 && next.NotLower(best)
    requires inc != {} && inc <= inc'.transactions <= pot.transactions <= inc + und && und <= todo && inc !! und
    requires g.Topological(inc'.transactions, todo) && g.Topological(inc + und, todo)
    requires inc'.Describes(g) && pot.Describes(g) && und' == und - inc'.transactions
    requires Bounded(g, inc, und, pot.feerate, best) && next.NotLower(inc'.feerate)
    requires forall t :: t in pot.transactions - inc ==> g.FeeRate(t).Higher(pot.feerate)
    requires |Family(g, todo, inc, und)| >= 1
    ensures StandsFor(g, todo, next, inc, und, a)
  {
    ghost var t' := inc'.transactions;
    JumpServes(g, todo, inc, und, pot.transactions, best, next, t');
    assert t' + und' == inc + und;
    SetRateMonotone(g, t', pot.transactions);
    SetRateSize(g, pot.transactions);
    assert Bounded(g, t', und', pot.feerate, best) by {
      forall c | Between(t', und', c) ensures !g.SetRate(c).Higher(pot.feerate) || !g.SetRate(c).Higher(best) {
        assert Between(inc, und, c);
      }
    }
    if pot.feerate.size == inc'.feerate.size {
      forall b | Challenges(g, todo, next, b) ensures !Serves(g, todo, t', und', b) {
        NothingBeyondIncluded(g, todo, t', und', best, next, b);
      }
      a := Dropped;
    } else {
      assert und' != {} by {
        assert pot.transactions != t';
        ProperPart(t', pot.transactions);
        assert pot.transactions - t' <= und';
      }
      BoundStays(g, todo, t', und', pot.feerate, best, next);
      a := Added(WorkItem(inc', und', pot.feerate));
      FamilyPart(g, todo, inc, und, t', und');
      LoadOne(g, todo, a.item);
    }
  }

  lemma {:induction false} ProperPart(part: set<nat>, whole: set<nat>)
    requires part <= whole && part != whole
    ensures whole - part != {}
  {
    assert whole == part + (whole - part);
  }

  // ---- split_fn ----

  /** Splitting on t: each member of a family either contains t and its ancestors, or none of its
      descendants. */
  lemma {:induction false} SplitServes(g: Graph, todo: set<nat>, inc: set<nat>, und: set<nat>, t: nat, b: set<nat>)
    requires g.Consistent() && todo <= g.used && und <= todo && t in und
    requires Serves(g, todo, inc, und, b)
    ensures Serves(g, todo, inc, und - g.Descendants(t), b)
         || Serves(g, todo, inc + g.Ancestors(t) * todo, und - g.Ancestors(t) * todo, b)
  {
    var c :| c != {} && Compatible(g, todo, inc, und, c) && g.SetRate(c).NotLower(g.SetRate(b));
    if t in c {
      assert Compatible(g, todo, inc + g.Ancestors(t) * todo, und - g.Ancestors(t) * todo, c);
    } else {
      forall d | d in c ensures d !in g.Descendants(t) {
        assert d in g.Descendants(t) ==> t in g.Ancestors(d) * todo;
      }
      assert Compatible(g, todo, inc, und - g.Descendants(t), c);
    }
  }

  /** How much each half of a split leaves open, in descending order. */
  function SplitCounts(g: Graph, und: set<nat>, t: nat): (nat, nat) {
    var i, e := |und - g.Ancestors(t)|, |und - g.Descendants(t)|;
    if i < e then (e, i) else (i, e)
  }

  predicate FewerCounts(a: (nat, nat), b: (nat, nat)) {
    a.0 < b.0 || (a.0 == b.0 && a.1 < b.1)
  }

  /** Of select, a transaction whose split leaves least open. */
  method ChooseSplit(g: Graph, und: set<nat>, select: set<nat>) returns (split: nat)
    requires select != {}
    ensures split in select
    ensures forall t :: t in select ==> !FewerCounts(SplitCounts(g, und, t), SplitCounts(g, und, split))
  {
    split := First(select);
    var counts := SplitCounts(g, und, split);
    var rest := select - {split};
    while rest != {}
      invariant rest <= select && split in select && counts == SplitCounts(g, und, split)
      invariant forall t :: t in select && t !in rest ==> !FewerCounts(SplitCounts(g, und, t), counts)
      decreases rest
    {
      var t := First(rest);
      var now := SplitCounts(g, und, t);
      if FewerCounts(now, counts) {
        split, counts := t, now;
      }
      rest := rest - {t};
    }
  }

  /** Excluding t with its descendants, or including it with its ancestors, leaves a valid family. */
  lemma {:induction false} SplitValid(g: Graph, todo: set<nat>, inc: SetInfo, und: set<nat>, t: nat, inc': SetInfo)
    requires g.Consistent() && todo <= g.used && ValidFamily(g, todo, inc, und) && t in und
    requires inc' == SetInfo(inc.transactions + g.Ancestors(t) * todo,
                             inc.feerate.Plus(g.SetRate(g.Ancestors(t) * todo - inc.transactions)))
    ensures ValidFamily(g, todo, inc, und - g.Descendants(t)) && und - g.Descendants(t) < und
    ensures ValidFamily(g, todo, inc', und - g.Ancestors(t) * todo) && und - g.Ancestors(t) * todo < und
  {
    var anc, s := g.Ancestors(t) * todo, inc.transactions;
    RemainingAncestors(g, todo, t);
    TopologicalMeet(g, s, anc, todo);
    Included(g, s, s + anc);
    assert (s + anc) - s == anc - s;
    assert anc <= s + und;
    assert (s + anc) + (und - anc) == s + und;
    assert t in g.Descendants(t);
    ExcludeTopological(g, todo, s, und, t);
  }

  lemma {:induction false} ExcludeTopological(g: Graph, todo: set<nat>, inc: set<nat>, und: set<nat>, t: nat)
    requires g.Consistent() && todo <= g.used && g.Topological(inc, todo) && g.Topological(inc + und, todo)
    requires und <= todo && t in und
    ensures g.Topological(inc + (und - g.Descendants(t)), todo)
  {
    var kept := inc + (und - g.Descendants(t));
    forall i, x | i in kept && x in g.Ancestors(i) * todo ensures x in kept {
      if i in inc {
        assert x in inc;
      } else {
        assert x in inc + und;
        assert x in g.Descendants(t) ==> t in g.Ancestors(i);
      }
    }
  }

  /** Families that cannot beat the best known are not split. */
  method WorthSplitting(g: Graph, ghost todo: set<nat>, best: SetInfo, imp: set<nat>, item: WorkItem)
    returns (worth: bool)
    requires ValidState(g, todo, best, imp) && ValidItem(g, todo, best.feerate, item)
    ensures !worth ==> forall b :: Challenges(g, todo, best.feerate, b) ==>
      !Serves(g, todo, item.inc.transactions, item.und, b)
  {
    var first := First(item.und);
    ghost var inc, und := item.inc.transactions, item.und;
    SetRateSize(g, inc);
    SetRateSize(g, best.transactions);
    if !item.inc.feerate.IsEmpty() {
      if item.und * imp == {} {
        worth := false;
        forall c | c != {} && Compatible(g, todo, inc, und, c) ensures !g.SetRate(c).Higher(best.feerate) {
          forall t | t in c - inc ensures !g.FeeRate(t).Higher(best.feerate) {
            assert t in und && t !in item.und * imp;
          }
          TradeDown(g, inc, c, best.feerate);
        }
      } else if !item.potFeerate.Better(best.feerate) {
        worth := false;
        forall c | c != {} && Compatible(g, todo, inc, und, c) ensures !g.SetRate(c).Higher(best.feerate) {
          SetRateSize(g, c);
          assert Between(inc, und, c);
          if !g.SetRate(c).Higher(item.potFeerate) {
            NotLowerTransitive(best.feerate, item.potFeerate, g.SetRate(c));
          }
        }
      } else {
        worth := true;
      }
    } else if !g.FeeRate(first).Better(best.feerate) {
      worth := false;
      forall c | c != {} && Compatible(g, todo, inc, und, c) ensures !g.SetRate(c).Higher(best.feerate) {
        forall t | t in c ensures !g.FeeRate(t).Higher(best.feerate) {
          if t != first {
            NotLowerTransitive(best.feerate, g.FeeRate(first), g.FeeRate(t));
          }
        }
        NoGain(g, c, best.feerate);
        HigherIsValue(g.SetRate(c), best.feerate);
      }
    } else {
      worth := true;
    }
    if !worth {
      forall b | Challenges(g, todo, best.feerate, b) ensures !Serves(g, todo, inc, und, b) {
        HopelessServesNone(g, todo, inc, und, best.feerate, b);
      }
    }
  }

  /** The items that splitting one item puts on the queue. */
  function Items(a: Addition): seq<WorkItem> {
    if a.Added? then [a.item] else []
  }

  /** New items serve every remaining challenger the item served. */
  ghost predicate Replaces(g: Graph, todo: set<nat>, best: FeeFrac, item: WorkItem, items: seq<WorkItem>) {
    forall b :: Challenges(g, todo, best, b) && Serves(g, todo, item.inc.transactions, item.und, b) ==>
      ServedBy(g, todo, items, b)
  }

  /** Split a work item in two: with a chosen transaction excluded, and with it included. */
  method Split(g: Graph, todo: set<nat>, best: SetInfo, imp: set<nat>, item: WorkItem)
    returns (best': SetInfo, imp': set<nat>, items: seq<WorkItem>, split: bool)
    requires ValidState(g, todo, best, imp) && ValidItem(g, todo, best.feerate, item)
    ensures ValidState(g, todo, best', imp') && Improved(best.feerate, best'.feerate)
    ensures ValidQueue(g, todo, best'.feerate, items) && Replaces(g, todo, best'.feerate, item, items)
    ensures !split ==> items == []
    ensures Load(g, todo, items) + (if split then 1 else 0) <= Weight(g, todo, item)
    ensures |items| <= 2 && forall k :: 0 <= k < |items| ==> items[k].und < item.und
  {
    best', imp', items := best, imp, [];
    split := WorthSplitting(g, todo, best, imp, item);
    FamilySize(g, todo, item.inc.transactions, item.und);
    if split {
      var first := First(item.und);
      assert first in item.und * g.Ancestors(first);
      var t := ChooseSplit(g, item.und, item.und * g.Ancestors(first));
      best', imp', items := SplitOn(g, todo, best, imp, item, t);
    }
  }

  method SplitOn(g: Graph, todo: set<nat>, best: SetInfo, imp: set<nat>, item: WorkItem, t: nat)
    returns (best': SetInfo, imp': set<nat>, items: seq<WorkItem>)
    requires ValidState(g, todo, best, imp) && ValidItem(g, todo, best.feerate, item) && t in item.und
    ensures ValidState(g, todo, best', imp') && Improved(best.feerate, best'.feerate)
    ensures ValidQueue(g, todo, best'.feerate, items) && Replaces(g, todo, best'.feerate, item, items)
    ensures Load(g, todo, items) + 1 <= Weight(g, todo, item)
    ensures |items| <= 2 && forall k :: 0 <= k < |items| ==> items[k].und < item.und
  {
    var anc := g.Ancestors(t) * todo;
    var inc' := SetInfo(item.inc.transactions + anc, item.inc.feerate.Plus(g.SetRate(anc - item.inc.transactions)));
    SplitValid(g, todo, item.inc, item.und, t, inc');
    var best1, imp1, excluded := AddFamily(g, todo, best, imp, item.inc, item.und - g.Descendants(t));
    var best2, imp2, included := AddFamily(g, todo, best1, imp1, inc', item.und - anc);
    SplitReplaces(g, todo, best, best1, best2, item, t, inc', excluded, included);
    best', imp', items := best2, imp2, Items(excluded) + Items(included);
  }

  /** A split separates two parts of a family. */
  lemma {:induction false} SplitLoad(g: Graph, todo: set<nat>, item: WorkItem, t: nat, inc': SetInfo,
                                     excluded: Addition, included: Addition)
    requires g.Consistent() && todo <= g.used && t in item.und && item.und <= todo
    requires item.inc.transactions !! item.und
    requires g.Topological(item.inc.transactions + item.und, todo)
    requires inc'.transactions == item.inc.transactions + g.Ancestors(t) * todo
    requires Load(g, todo, Items(excluded)) + 1
          <= |Family(g, todo, item.inc.transactions, item.und - g.Descendants(t))|
    requires Load(g, todo, Items(included))
        + 1 <= |Family(g, todo, inc'.transactions, item.und - g.Ancestors(t) * todo)|
    ensures Load(g, todo, Items(excluded) + Items(included)) + 1 <= Weight(g, todo, item)
  {
    LoadJoin(g, todo, Items(excluded), Items(included));
    assert t in g.Ancestors(t) && t in g.Descendants(t);
    assert g.Ancestors(t) * todo <= item.inc.transactions + item.und;
    FamilySplit(g, todo, item.inc.transactions, item.und, inc'.transactions, item.und - g.Ancestors(t) * todo,
                item.und - g.Descendants(t), t);
  }

  lemma {:induction false} SplitReplaces(g: Graph, todo: set<nat>, best: SetInfo, best1: SetInfo, best2: SetInfo,
                                         item: WorkItem, t: nat, inc': SetInfo, excluded: Addition, included: Addition)
    requires g.Valid() && todo <= g.used && ValidBest(g, todo, best) && ValidBest(g, todo, best1)
    requires ValidBest(g, todo, best2)
    requires Improved(best.feerate, best1.feerate) && Improved(best1.feerate, best2.feerate)
    requires ValidFamily(g, todo, item.inc, item.und)
    requires t in item.und && inc'.transactions == item.inc.transactions + g.Ancestors(t) * todo
    requires StandsFor(g, todo, best1.feerate, item.inc.transactions, item.und - g.Descendants(t), excluded)
    requires StandsFor(g, todo, best2.feerate, inc'.transactions, item.und - g.Ancestors(t) * todo, included)
    ensures Improved(best.feerate, best2.feerate)
    ensures ValidQueue(g, todo, best2.feerate, Items(excluded) + Items(included))
    ensures Replaces(g, todo, best2.feerate, item, Items(excluded) + Items(included))
    ensures Load(g, todo, Items(excluded) + Items(included)) + 1 <= Weight(g, todo, item)
  {
    SplitLoad(g, todo, item, t, inc', excluded, included);
    SplitServed(g, todo, best, best1, best2, item, t, inc', excluded, included);
  }

  lemma {:induction false} SplitServed(g: Graph, todo: set<nat>, best: SetInfo, best1: SetInfo, best2: SetInfo,
                                       item: WorkItem, t: nat, inc': SetInfo, excluded: Addition, included: Addition)
    requires g.Valid() && todo <= g.used && ValidBest(g, todo, best) && ValidBest(g, todo, best1)
    requires ValidBest(g, todo, best2)
    requires Improved(best.feerate, best1.feerate) && Improved(best1.feerate, best2.feerate)
    requires item.und <= todo && t in item.und && inc'.transactions == item.inc.transactions + g.Ancestors(t) * todo
    requires StandsFor(g, todo, best1.feerate, item.inc.transactions, item.und - g.Descendants(t), excluded)
    requires StandsFor(g, todo, best2.feerate, inc'.transactions, item.und - g.Ancestors(t) * todo, included)
    ensures Improved(best.feerate, best2.feerate)
    ensures ValidQueue(g, todo, best2.feerate, Items(excluded) + Items(included))
    ensures Replaces(g, todo, best2.feerate, item, Items(excluded) + Items(included))
  {
    var items := Items(excluded) + Items(included);
    SetRateSize(g, best.transactions);
    SetRateSize(g, best1.transactions);
    SetRateSize(g, best2.transactions);
    ImprovedTransitive(best.feerate, best1.feerate, best2.feerate);
    ImprovedNotLower(best1.feerate, best2.feerate);
    if excluded.Added? {
      ItemStaysValid(g, todo, best1.feerate, best2.feerate, excluded.item);
    }
    forall b | Challenges(g, todo, best2.feerate, b) && Serves(g, todo, item.inc.transactions, item.und, b)
      ensures ServedBy(g, todo, items, b)
    {
      SplitServes(g, todo, item.inc.transactions, item.und, t, b);
      if Serves(g, todo, item.inc.transactions, item.und - g.Descendants(t), b) {
        ChallengesEarlier(g, todo, best1.feerate, best2.feerate, b);
        assert excluded.item in items;
      } else {
        assert included.item in items;
      }
    }
  }

  lemma {:induction false} ImprovedTransitive(a: FeeFrac, b: FeeFrac, c: FeeFrac)
    requires a.size > 0 && b.size > 0 && c.size > 0
    requires Improved(a, b) && Improved(b, c)
    ensures Improved(a, c)
  {
    if a != b && b != c {
      NotLowerTransitive(c, b, a);
    }
  }

  // ---- the work queue ----

  /** Every item, and everything depth-first search can make of it, fits in the queue. */
  ghost predicate Roomy(queue: seq<WorkItem>, capacity: nat) {
    forall k :: 0 <= k < |queue| ==> k + |queue[k].und| <= capacity
  }

  /** Processing one item, wherever it was taken from, keeps every challenger covered. */
  lemma {:induction false} ProcessCovered(g: Graph, todo: set<nat>, best: SetInfo, next: SetInfo, queue: seq<WorkItem>,
                       item: WorkItem, rest: seq<WorkItem>, items: seq<WorkItem>)
    requires g.Valid() && todo <= g.used && ValidBest(g, todo, best) && ValidBest(g, todo, next)
    requires Improved(best.feerate, next.feerate)
    requires Covered(g, todo, best.feerate, queue) && ValidQueue(g, todo, best.feerate, rest)
    requires forall x :: x in queue ==> x == item || x in rest
    requires Replaces(g, todo, next.feerate, item, items) && ValidQueue(g, todo, next.feerate, items)
    ensures Covered(g, todo, next.feerate, rest + items) && ValidQueue(g, todo, next.feerate, rest + items)
  {
    SetRateSize(g, best.transactions);
    SetRateSize(g, next.transactions);
    ImprovedNotLower(best.feerate, next.feerate);
    QueueStaysValid(g, todo, best.feerate, next.feerate, rest);
    forall b | Challenges(g, todo, next.feerate, b) ensures ServedBy(g, todo, rest + items, b) {
      ChallengesEarlier(g, todo, best.feerate, next.feerate, b);
      var x :| x in queue && Serves(g, todo, x.inc.transactions, x.und, b);
      if x in rest {
        assert x in rest + items;
      } else {
        var y :| y in items && Serves(g, todo, y.inc.transactions, y.und, b);
        assert y in rest + items;
      }
    }
  }

  /** Adding the items of a split item behind n others keeps the queue within capacity. */
  lemma {:induction false} RoomForSplit(queue: seq<WorkItem>, items: seq<WorkItem>, und: set<nat>, capacity: nat)
    requires Roomy(queue, capacity) && |queue| + |und| <= capacity && |items| <= 2
    requires forall k :: 0 <= k < |items| ==> items[k].und != {} && items[k].und < und
    ensures Roomy(queue + items, capacity) && |queue + items| <= capacity
  {
    forall k | 0 <= k < |items| ensures 1 <= |items[k].und| < |und| {
      ProperSubsetSize(items[k].und, und);
      ProperSubsetSize({}, items[k].und);
    }
    var all := queue + items;
    forall k | 0 <= k < |all| ensures k + |all[k].und| <= capacity {
      if k >= |queue| {
        assert all[k] == items[k - |queue|];
      }
    }
    if |items| > 0 {
      var last := items[|items| - 1];
      assert all[|all| - 1] == last;
    }
  }

  lemma {:induction false} ProperSubsetSize(a: set<nat>, b: set<nat>)
    requires a < b
    ensures |a| < |b|
  {
    var x :| x in b && x !in a;
    var c := b - {x};
    assert c == a + (c - a);
  }

  /** Split an item in two, each appended unless it is hopeless. */
  method Process(g: Graph, todo: set<nat>, best: SetInfo, imp: set<nat>, ghost queue: seq<WorkItem>,
                 item: WorkItem, rest: seq<WorkItem>, capacity: nat)
    returns (best': SetInfo, imp': set<nat>, queue': seq<WorkItem>, split: bool)
    requires ValidState(g, todo, best, imp) && ValidQueue(g, todo, best.feerate, queue)
    requires Covered(g, todo, best.feerate, queue) && item in queue
    requires (forall x :: x in queue ==> x == item || x in rest) && (forall x :: x in rest ==> x in queue)
    requires Roomy(rest, capacity) && |rest| + |item.und| <= capacity
    ensures ValidState(g, todo, best', imp') && Improved(best.feerate, best'.feerate)
    ensures ValidQueue(g, todo, best'.feerate, queue') && Covered(g, todo, best'.feerate, queue')
    ensures !split ==> queue' == rest
    ensures Load(g, todo, queue') + (if split then 1 else 0) <= Load(g, todo, rest) + Weight(g, todo, item)
    ensures Roomy(queue', capacity) && rest <= queue'
    // The queue never has to be reallocated.
    ensures |queue'| <= capacity
  {
    var items;
    assert ValidQueue(g, todo, best.feerate, rest) by {
      forall k | 0 <= k < |rest| ensures ValidItem(g, todo, best.feerate, rest[k]) {
        assert rest[k] in queue;
      }
    }
    best', imp', items, split := Split(g, todo, best, imp, item);
    ProcessCovered(g, todo, best, best', queue, item, rest, items);
    RoomForSplit(rest, items, item.und, capacity);
    queue' := rest + items;
    LoadJoin(g, todo, rest, items);
  }

  // ---- initial work items ----

  /** At least as good as b: some queued component's part of it, or its part outside all of them. */
  ghost predicate PartKept(g: Graph, todo: set<nat>, queue: seq<WorkItem>, toCover: set<nat>, b: set<nat>) {
    || ServedBy(g, todo, queue, b)
    || (b * toCover != {} && g.SetRate(b * toCover).NotLower(g.SetRate(b)))
  }

  lemma {:induction false} ComponentClosed(g: Graph, todo: set<nat>, toCover: set<nat>, component: set<nat>)
    requires g.Consistent() && todo <= g.used
    requires ClosedIn(g, todo, toCover) && ClosedIn(g, toCover, component)
    ensures ClosedIn(g, todo, component) && ClosedIn(g, todo, toCover - component)
    ensures g.Topological(component, todo)
  {
    forall i, x | i in component && x in Neighbours(g, i) * todo ensures x in component {
      assert x in Neighbours(g, i) * todo;
      assert x in Neighbours(g, i) * toCover;
    }
    ComplementClosed(g, todo, component);
    forall i, x | i in toCover - component && x in Neighbours(g, i) * todo ensures x in toCover - component {
      assert x in todo - component;
    }
    forall i | i in component ensures g.Ancestors(i) * todo <= component {
      assert Neighbours(g, i) * todo <= component;
    }
  }

  /** Taking a component away: the better part of b lies inside it or outside it. */
  lemma {:induction false} PartStaysKept(g: Graph, todo: set<nat>, queue: seq<WorkItem>, toCover: set<nat>,
                                         component: set<nat>, b: set<nat>)
    requires g.Valid() && todo <= g.used && Candidate(g, todo, b)
    requires component <= toCover <= todo && g.Topological(component, todo)
    requires PartKept(g, todo, queue, toCover, b)
    ensures PartKept(g, todo, queue + [WorkItem(SetInfo({}, Zero()), component, Zero())], toCover - component, b)
  {
    var queue' := queue + [WorkItem(SetInfo({}, Zero()), component, Zero())];
    if ServedBy(g, todo, queue, b) {
      var item :| item in queue && Serves(g, todo, item.inc.transactions, item.und, b);
      assert item in queue';
    } else {
      var x := b * toCover;
      var y, z := x * component, x - component;
      SetRateSplit(g, x, component);
      SetRateSize(g, b);
      SetRateSize(g, x);
      SetRateSize(g, y);
      SetRateSize(g, z);
      assert y == b * component && z == b * (toCover - component);
      TopologicalMeet(g, b, component, todo);
      if y != {} && (z == {} || g.SetRate(y).NotLower(g.SetRate(x))) {
        assert z == {} ==> y == x;
        NotLowerTransitive(g.SetRate(y), g.SetRate(x), g.SetRate(b));
        assert Compatible(g, todo, {}, component, y);
        assert queue'[|queue|] in queue';
      } else {
        assert x == y + z;
        assert y == {} ==> z == x;
        Mediant(g.SetRate(z), g.SetRate(y));
        PlusCommutes(g.SetRate(z), g.SetRate(y));
        NotLowerTransitive(g.SetRate(z), g.SetRate(x), g.SetRate(b));
      }
    }
  }

  ghost predicate InitialItems(g: Graph, todo: set<nat>, queue: seq<WorkItem>) {
    forall k :: 0 <= k < |queue| ==>
      && queue[k].inc == SetInfo({}, Zero())
      && queue[k].und != {} && g.Topological(queue[k].und, todo)
  }

  /** One work item per connected component of todo, and a first best if none is known. */
  method InitialQueue(g: Graph, todo: set<nat>, best: SetInfo) returns (queue: seq<WorkItem>, best': SetInfo)
    requires g.Valid() && todo <= g.used && todo != {}
    requires best.feerate.IsEmpty() || ValidBest(g, todo, best)
    ensures ValidBest(g, todo, best') && (!best.feerate.IsEmpty() ==> best' == best)
    ensures InitialItems(g, todo, queue) && Roomy(queue, |todo|) && |queue| <= |todo|
    ensures Load(g, todo, queue) <= Pow2(|todo| - 1)
    ensures forall b {:trigger Candidate(g, todo, b)} :: Candidate(g, todo, b) ==> ServedBy(g, todo, queue, b)
  {
    var toCover := todo;
    queue, best' := [], best;
    SpreadStart(g, todo);
    while toCover != {}
      invariant Spread(g, todo, queue, toCover)
      invariant best'.feerate.IsEmpty() ==> toCover == todo && best' == best
      invariant !best'.feerate.IsEmpty() ==> ValidBest(g, todo, best') && (!best.feerate.IsEmpty() ==> best' == best)
      decreases toCover
    {
      var component := FindConnectedComponent(g, toCover);
      ComponentClosed(g, todo, toCover, component);
      ComponentConnected(g, toCover, component);
      SetRateSize(g, component);
      if best'.feerate.IsEmpty() {
        best' := SetInfo(component, g.SetRate(component));
      }
      SpreadStep(g, todo, queue, toCover, component);
      queue := queue + [WorkItem(SetInfo({}, Zero()), component, Zero())];
      toCover := toCover - component;
    }
    SpreadEnd(g, todo, queue);
  }

  /** Work items for all components of todo outside toCover. */
  ghost predicate Spread(g: Graph, todo: set<nat>, queue: seq<WorkItem>, toCover: set<nat>) {
    && ClosedIn(g, todo, toCover)
    && InitialItems(g, todo, queue) && Roomy(queue, |todo|) && |queue| + |toCover| <= |todo|
    && todo != {} && Load(g, todo, queue) + Splits(|toCover|) <= Pow2(|todo| - 1)
    && forall b {:trigger Candidate(g, todo, b)} :: Candidate(g, todo, b) ==> PartKept(g, todo, queue, toCover, b)
  }

  /** The most splits that n transactions can take. */
  ghost function Splits(n: nat): nat {
    if n == 0 then 0 else Pow2(n - 1)
  }

  lemma {:induction false} SpreadLoad(g: Graph, todo: set<nat>, queue: seq<WorkItem>, component: set<nat>, n: nat,
                                      rest: nat)
    requires g.Consistent() && todo <= g.used && component != {} && Connected(g, component)
    requires g.Topological(component, todo) && rest + |component| == n
    ensures var item := WorkItem(SetInfo({}, Zero()), component, Zero());
            Load(g, todo, queue + [item]) + Splits(rest) <= Load(g, todo, queue) + Splits(n)
  {
    var item := WorkItem(SetInfo({}, Zero()), component, Zero());
    LoadJoin(g, todo, queue, [item]);
    LoadOne(g, todo, item);
    ComponentFamily(g, todo, component);
    ProperSubsetSize({}, component);
    PowParts(|component|, rest);
  }

  lemma {:induction false} ComponentConnected(g: Graph, toCover: set<nat>, component: set<nat>)
    requires g.Consistent() && toCover <= g.used && toCover != {} && ClosedIn(g, toCover, component)
    requires First(toCover) in component
    requires forall s :: ClosedIn(g, toCover, s) && First(toCover) in s ==> component <= s
    ensures Connected(g, component)
  {
    forall s | s != {} && ClosedIn(g, component, s) ensures s == component {
      ComplementClosed(g, component, s);
      WithinComponent(g, toCover, component, s);
      WithinComponent(g, toCover, component, component - s);
    }
  }

  lemma {:induction false} WithinComponent(g: Graph, toCover: set<nat>, component: set<nat>, s: set<nat>)
    requires ClosedIn(g, toCover, component) && ClosedIn(g, component, s)
    ensures ClosedIn(g, toCover, s)
  {
    forall i | i in s ensures Neighbours(g, i) * toCover <= s {
      assert Neighbours(g, i) * toCover <= component;
      assert Neighbours(g, i) * component <= s;
    }
  }

  lemma {:induction false} SpreadStart(g: Graph, todo: set<nat>)
    requires todo != {}
    ensures Spread(g, todo, [], todo)
  {
    forall b | Candidate(g, todo, b) ensures PartKept(g, todo, [], todo, b) {
      assert b * todo == b;
    }
  }

  lemma {:induction false} SpreadEnd(g: Graph, todo: set<nat>, queue: seq<WorkItem>)
    requires Spread(g, todo, queue, {})
    ensures forall b {:trigger Candidate(g, todo, b)} :: Candidate(g, todo, b) ==> ServedBy(g, todo, queue, b)
  {
    forall b | Candidate(g, todo, b) ensures ServedBy(g, todo, queue, b) {
      assert PartKept(g, todo, queue, {}, b);
    }
  }

  lemma {:induction false} SpreadStep(g: Graph, todo: set<nat>, queue: seq<WorkItem>, toCover: set<nat>,
                                      component: set<nat>)
    requires g.Valid() && todo <= g.used && Spread(g, todo, queue, toCover)
    requires component <= toCover && component != {} && Connected(g, component)
    requires ClosedIn(g, todo, toCover - component) && g.Topological(component, todo)
    ensures Spread(g, todo, queue + [WorkItem(SetInfo({}, Zero()), component, Zero())], toCover - component)
  {
    var item := WorkItem(SetInfo({}, Zero()), component, Zero());
    var queue' := queue + [item];
    ComponentTaken(toCover, component);
    SpreadLoad(g, todo, queue, component, |toCover|, |toCover - component|);
    forall k | 0 <= k < |queue'|
      ensures queue'[k].inc == SetInfo({}, Zero()) && queue'[k].und != {} && g.Topological(queue'[k].und, todo)
      ensures k + |queue'[k].und| <= |todo|
    {
      assert queue'[k] == if k < |queue| then queue[k] else item;
    }
    forall b | Candidate(g, todo, b) ensures PartKept(g, todo, queue', toCover - component, b) {
      PartStaysKept(g, todo, queue, toCover, component, b);
    }
  }

  lemma {:induction false} ComponentTaken(toCover: set<nat>, component: set<nat>)
    requires component <= toCover && component != {}
    ensures 1 <= |component| <= |toCover| && |toCover - component| + |component| == |toCover|
  {
    ProperSubsetSize({}, component);
    assert toCover == component + (toCover - component);
  }

  lemma {:induction false} InitialValid(g: Graph, todo: set<nat>, best: SetInfo, queue: seq<WorkItem>)
    requires g.Valid() && todo <= g.used && InitialItems(g, todo, queue)
    requires forall b {:trigger Candidate(g, todo, b)} :: Candidate(g, todo, b) ==> ServedBy(g, todo, queue, b)
    ensures ValidQueue(g, todo, best.feerate, queue) && Covered(g, todo, best.feerate, queue)
  {
    forall k | 0 <= k < |queue| ensures ValidItem(g, todo, best.feerate, queue[k]) {
      ComponentItemValid(g, todo, best.feerate, queue[k]);
    }
  }

  lemma {:induction false} ComponentItemValid(g: Graph, todo: set<nat>, best: FeeFrac, item: WorkItem)
    requires item.inc == SetInfo({}, Zero()) && item.und != {} && g.Topological(item.und, todo)
    ensures ValidItem(g, todo, best, item)
  {
    SetRateEmpty(g);
    assert item.inc.transactions + item.und == item.und;
  }

  // ---- FindCandidateSet ----

  /** Everything the search loop maintains. */
  ghost predicate Searching(g: Graph, todo: set<nat>, first: SetInfo, best: SetInfo, imp: set<nat>,
                            queue: seq<WorkItem>, capacity: nat) {
    && todo != {} && capacity >= 2 * |todo|
    && ValidState(g, todo, best, imp) && ValidBest(g, todo, first) && Improved(first.feerate, best.feerate)
    && ValidQueue(g, todo, best.feerate, queue) && Covered(g, todo, best.feerate, queue)
    && Roomy(queue, capacity)
  }

  lemma {:induction false} SwapKeeps(g: Graph, todo: set<nat>, first: SetInfo, best: SetInfo, imp: set<nat>,
                                     queue: seq<WorkItem>, capacity: nat)
    requires Searching(g, todo, first, best, imp, queue, capacity) && |queue| > 1
    ensures Searching(g, todo, first, best, imp, queue[0 := queue[1]][1 := queue[0]], capacity)
  {
    var swapped := queue[0 := queue[1]][1 := queue[0]];
    assert swapped[0] == queue[1] && swapped[1] == queue[0];
    forall x | x in queue ensures x in swapped {
      var k :| 0 <= k < |queue| && queue[k] == x;
      assert swapped[if k == 0 then 1 else if k == 1 then 0 else k] == x;
    }
    UndWithin(g, todo, best.feerate, queue, 0);
    ProperSubsetSize({}, todo);
    forall b | Challenges(g, todo, best.feerate, b) ensures ServedBy(g, todo, swapped, b) {
      var x :| x in queue && Serves(g, todo, x.inc.transactions, x.und, b);
      assert x in swapped;
    }
    forall k | 0 <= k < |swapped|
      ensures ValidItem(g, todo, best.feerate, swapped[k]) && k + |swapped[k].und| <= capacity
    {
      assert swapped[k] == queue[if k == 0 then 1 else if k == 1 then 0 else k];
    }
  }

  lemma {:induction false} UndWithin(g: Graph, todo: set<nat>, best: FeeFrac, queue: seq<WorkItem>, k: nat)
    requires ValidQueue(g, todo, best, queue) && k < |queue|
    ensures 1 <= |queue[k].und| <= |todo|
  {
    assert ValidItem(g, todo, best, queue[k]);
    var und := queue[k].und;
    ProperSubsetSize({}, und);
    assert todo == und + (todo - und);
  }

  /** Process one item taken from the queue, counting the split if there was one. */
  method Step(g: Graph, todo: set<nat>, best: SetInfo, imp: set<nat>, ghost queue: seq<WorkItem>, item: WorkItem,
              rest: seq<WorkItem>, capacity: nat, iterationsLeft: nat, ghost first: SetInfo)
    returns (best': SetInfo, imp': set<nat>, queue': seq<WorkItem>, left': nat)
    requires Searching(g, todo, first, best, imp, queue, capacity) && iterationsLeft > 0 && item in queue
    requires (forall x :: x in queue ==> x == item || x in rest) && (forall x :: x in rest ==> x in queue)
    requires Roomy(rest, capacity) && |rest| + |item.und| <= capacity
    ensures Searching(g, todo, first, best', imp', queue', capacity) && rest <= queue'
    ensures left' == iterationsLeft - 1 || (left' == iterationsLeft && queue' == rest)
    ensures Load(g, todo, queue') + iterationsLeft - left' <= Load(g, todo, rest) + Weight(g, todo, item)
  {
    var split;
    best', imp', queue', split := Process(g, todo, best, imp, queue, item, rest, capacity);
    SetRateSize(g, first.transactions);
    SetRateSize(g, best.transactions);
    SetRateSize(g, best'.transactions);
    ImprovedTransitive(first.feerate, best.feerate, best'.feerate);
    left' := if split then iterationsLeft - 1 else iterationsLeft;
  }

  /** One split, of the oldest item. */
  method BreadthFirst(g: Graph, todo: set<nat>, best: SetInfo, imp: set<nat>, queue: seq<WorkItem>, capacity: nat,
                      iterationsLeft: nat, ghost first: SetInfo)
    returns (best': SetInfo, imp': set<nat>, queue': seq<WorkItem>, left': nat)
    requires Searching(g, todo, first, best, imp, queue, capacity) && queue != [] && iterationsLeft > 0
    requires |queue| - 1 + |queue[0].und| <= capacity
    ensures Searching(g, todo, first, best', imp', queue', capacity)
    ensures left' < iterationsLeft || (left' == iterationsLeft && |queue'| < |queue|)
    ensures Load(g, todo, queue') + iterationsLeft - left' <= Load(g, todo, queue)
  {
    TakenFromFront(queue, capacity);
    best', imp', queue',
        left' := Step(g, todo, best, imp, queue, queue[0], queue[1..], capacity, iterationsLeft, first);
  }

  /** Perhaps let the second item go first; then split the newest items as long as the queue might overflow. */
  method DepthFirst(g: Graph, todo: set<nat>, best: SetInfo, imp: set<nat>, queue: seq<WorkItem>, capacity: nat,
                    iterationsLeft: nat, ghost first: SetInfo)
    returns (best': SetInfo, imp': set<nat>, queue': seq<WorkItem>, left': nat)
    requires Searching(g, todo, first, best, imp, queue, capacity) && queue != []
    ensures Searching(g, todo, first, best', imp', queue', capacity) && queue' != []
    ensures left' < iterationsLeft || (left' == iterationsLeft && |queue'| <= |queue|)
    ensures left' <= iterationsLeft && Load(g, todo, queue') + iterationsLeft - left' <= Load(g, todo, queue)
    ensures left' == 0 || |queue'| - 1 + |queue'[0].und| <= capacity
  {
    best', imp', queue', left' := best, imp, queue, iterationsLeft;
    var swap: bool := *;
    if |queue| > 1 && swap {
      SwapKeeps(g, todo, first, best, imp, queue, capacity);
      SwapLoad(g, todo, queue);
      queue' := queue[0 := queue[1]][1 := queue[0]];
    }
    while |queue'| - 1 + |queue'[0].und| > capacity
      invariant Searching(g, todo, first, best', imp', queue', capacity) && queue' != []
      invariant left' < iterationsLeft || (left' == iterationsLeft && |queue'| <= |queue|)
      invariant Load(g, todo, queue') + iterationsLeft - left' <= Load(g, todo, queue)
      decreases left', |queue'|
    {
      if left' == 0 {
        break;
      }
      UndWithin(g, todo, best'.feerate, queue', 0);
      var elem, rest := queue'[|queue'| - 1], queue'[..|queue'| - 1];
      TakenFromBack(queue', capacity);
      LoadBack(g, todo, queue');
      best', imp', queue', left' := Step(g, todo, best', imp', queue', elem, rest, capacity, left', first);
    }
  }

  lemma {:induction false} LoadBack(g: Graph, todo: set<nat>, queue: seq<WorkItem>)
    requires queue != []
    ensures var elem, rest := queue[|queue| - 1], queue[..|queue| - 1];
            Load(g, todo, queue) == Load(g, todo, rest) + Weight(g, todo, elem)
  {
    var elem, rest := queue[|queue| - 1], queue[..|queue| - 1];
    assert queue == rest + [elem];
    LoadJoin(g, todo, rest, [elem]);
    LoadOne(g, todo, elem);
  }

  lemma {:induction false} SwapLoad(g: Graph, todo: set<nat>, queue: seq<WorkItem>)
    requires |queue| > 1
    ensures Load(g, todo, queue[0 := queue[1]][1 := queue[0]]) == Load(g, todo, queue)
  {
    var swapped := queue[0 := queue[1]][1 := queue[0]];
    assert swapped[1..][1..] == queue[1..][1..];
    assert swapped[0] == queue[1] && swapped[1..][0] == queue[0];
  }

  lemma {:induction false} TakenFromBack(queue: seq<WorkItem>, capacity: nat)
    requires queue != [] && Roomy(queue, capacity)
    ensures var elem, rest := queue[|queue| - 1], queue[..|queue| - 1];
            && (forall x :: x in queue ==> x == elem || x in rest) && (forall x :: x in rest ==> x in queue)
            && Roomy(rest, capacity) && |rest| + |elem.und| <= capacity
  {
    assert queue == queue[..|queue| - 1] + [queue[|queue| - 1]];
  }

  lemma {:induction false} TakenFromFront(queue: seq<WorkItem>, capacity: nat)
    requires queue != [] && Roomy(queue, capacity)
    ensures var elem, rest := queue[0], queue[1..];
            && (forall x :: x in queue ==> x == elem || x in rest) && (forall x :: x in rest ==> x in queue)
            && Roomy(rest, capacity)
  {
    assert queue == [queue[0]] + queue[1..];
    forall k | 0 <= k < |queue[1..]| ensures k + |queue[1..][k].und| <= capacity {
      assert queue[1..][k] == queue[k + 1];
    }
  }

  /** An empty queue leaves no challenger. */
  lemma {:induction false} SearchedAll(g: Graph, todo: set<nat>, best: SetInfo)
    requires g.Valid() && ValidBest(g, todo, best) && Covered(g, todo, best.feerate, [])
    ensures HighestFeerate(g, todo, best.transactions)
  {
    forall x | x != {} && g.Topological(x, todo) ensures g.SetRate(best.transactions).NotLower(g.SetRate(x)) {
      assert Challenges(g, todo, best.feerate, x) ==> ServedBy(g, todo, [], x);
    }
  }

  /** Search for a topological subset of todo with the highest feerate, starting from a known one.
      When fewer than maxIterations splits were done, the result is optimal, and no more are ever needed than half as
      many as todo has subsets. */
  method FindCandidate(g: Graph, todo: set<nat>, maxIterations: nat, known: SetInfo)
    returns (best: SetInfo, iterations: nat)
    requires g.Valid() && SortedByFeerate(g) && todo <= g.used && todo != {}
    requires known.feerate.IsEmpty() || ValidBest(g, todo, known)
    ensures ValidBest(g, todo, best)
    ensures !known.feerate.IsEmpty() ==> Improved(known.feerate, best.feerate)
    ensures iterations <= maxIterations && iterations <= Pow2(|todo| - 1)
    ensures iterations < maxIterations ==> HighestFeerate(g, todo, best.transactions)
  {
    var queue;
    queue, best := InitialQueue(g, todo, known);
    ghost var first := best;
    var iterationsLeft: nat := maxIterations;
    var capacity := if 2 * |todo| > 256 then 2 * |todo| else 256;
    SetRateSize(g, best.transactions);
    var imp := TrimImp(g, todo, best.feerate, todo);
    InitialValid(g, todo, best, queue);
    while queue != []
      invariant Searching(g, todo, first, best, imp, queue, capacity) && iterationsLeft <= maxIterations
      invariant maxIterations - iterationsLeft + Load(g, todo, queue) <= Pow2(|todo| - 1)
      decreases iterationsLeft, |queue|
    {
      best, imp, queue, iterationsLeft := DepthFirst(g, todo, best, imp, queue, capacity, iterationsLeft, first);
      if iterationsLeft == 0 {
        break;
      }
      best, imp, queue, iterationsLeft := BreadthFirst(g, todo, best, imp, queue, capacity, iterationsLeft, first);
    }
    iterations := maxIterations - iterationsLeft;
    LoadNotNegative(g, todo, best.feerate, queue);
    if iterationsLeft > 0 {
      SearchedAll(g, todo, best);
    }
  }
}
