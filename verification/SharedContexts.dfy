// Two maps that fan out the same block (core/scheduler.go, HandleMap): when
// their expansions launch an invocation twice, in some run and in every run.
module SharedContexts {
  import opened Digraphs
  import opened Pipelines
  import opened DependencyGraphs
  import opened SchedulerState
  import opened SchedulerInvariant
  import opened SchedulerSteps
  import opened ConcurrentRuns
  import opened SchedulerGaps
  import opened WithheldRuns
  import opened SiblingGathering
  import opened PipelinePlans
  import opened ExamplePipelines
  import opened ExampleInputs

  /** Some run of the plan launches an invocation twice. */
  ghost predicate CanRepeat(p: Plan)
    requires p.fan.Keys == p.contexts.Keys
  {
    exists run: seq<System> :: Run(p, run) && Repeats(run[|run| - 1])
  }

  lemma ReachesTransitive(e: Edges, u: Id, v: Id, w: Id)
    requires Reaches(e, u, v) && Reaches(e, v, w)
    ensures Reaches(e, u, w)
  {
    var q :| PathFromTo(e, q, v, w);
    ReachesAlong(e, u, q);
  }

  lemma {:induction false} ReachesAlong(e: Edges, u: Id, q: seq<Id>)
    requires |q| >= 1 && IsPath(e, q) && Reaches(e, u, q[0])
    ensures Reaches(e, u, q[|q| - 1])
  {
    if |q| >= 2 {
      assert StepAt(e, q, 0);
      ReachesThenEdge(e, u, q[0], q[1]);
      Slice(e, q, 1, |q|);
      assert q[1..] == q[1..|q|];
      ReachesAlong(e, u, q[1..]);
    }
  }

  // ---- The run that waits for one block alone ----------------------------------------------------

  /** All invocations of the block. */
  ghost function OfBlock(d: Id): iset<Key> {
    iset k: Key | k.id == d
  }

  /** What b needs and the withheld block does not come before. */
  ghost function Independent(p: Plan, last: Id, b: Id): set<Id> {
    set x | x in Ancestry(p, b) && x != last && !Reaches(EdgesOf(p.blocks), last, x)
  }

  /** All results but those of the block have arrived, and nothing is executable. */
  ghost predicate Withheld(p: Plan, sys: System, last: Id, b: Id) {
    p.Sound() && Inv(p, sys) && Exhausted(sys, OfBlock(last)) && p.CanRun(b) && p.DependsOn(b, last)
  }

  lemma IndependentAnswered(p: Plan, sys: System, last: Id, b: Id)
    requires Withheld(p, sys, last, b)
    ensures Answered(p, sys, Independent(p, last, b))
  {
    assert KeysOf(sys.s.queue) == [] && sys.Launched() == sys.taken;
    var e := EdgesOf(p.blocks);
    forall x, d | x in Independent(p, last, b) && p.DependsOn(x, d)
      ensures d in Independent(p, last, b) && p.Effective(d) && (HasLaunched(sys, d) ==> HasReported(sys.reported, d))
    {
      DependencyKnown(p, x, d);
      if x == b { EdgeReaches(e, d, b); } else { EdgeThenReaches(e, d, x, b); }
      if d == last { EdgeReaches(e, last, x); }
      if Reaches(e, last, d) { ReachesThenEdge(e, last, d, x); }
    }
  }

  /** Whatever b needs and does not need the withheld block has completed. */
  lemma IndependentCompletes(p: Plan, sys: System, last: Id, b: Id, x: Id)
    requires Withheld(p, sys, last, b) && x in Independent(p, last, b) && x != b
    ensures x in sys.s.completed
  {
    IndependentAnswered(p, sys, last, b);
    NoneWaits(p, sys, Independent(p, last, b));
    assert KeysOf(sys.s.queue) == [] && sys.Launched() == sys.taken;
    AnsweredCompletes(p, sys, x);
  }

  lemma ReadyIsLaunched(p: Plan, sys: System, b: Id)
    requires p.Sound() && Inv(p, sys) && b in Ids(p.blocks) && p.DepsIn(b, sys.s.completed)
    ensures HasLaunched(sys, b)
  {
    var k := BlockHasInstance(p, sys, b);
    assert k in sys.Launched();
  }

  /** Only the withheld block is missing: it has been handed out, and not completed. */
  lemma LastIsOut(p: Plan, sys: System, last: Id, b: Id) returns (k: Key)
    requires Withheld(p, sys, last, b)
    ensures k.id == last && k in sys.taken && last !in sys.s.completed
    ensures last in p.contexts ==> k == Base(last)
  {
    var e := EdgesOf(p.blocks);
    assert KeysOf(sys.s.queue) == [] && sys.Launched() == sys.taken;
    DependencyKnown(p, b, last);
    EdgeReaches(e, last, b);
    AcyclicNotSelfReaching(e, b);
    forall d | p.DependsOn(last, d) ensures d in sys.s.completed {
      DependencyKnown(p, last, d);
      AcyclicNotSelfReaching(e, last);
      if d == last { EdgeReaches(e, last, last); }
      if Reaches(e, last, d) { ReachesThenEdge(e, last, d, last); }
      EdgeThenReaches(e, d, last, b);
      IndependentCompletes(p, sys, last, b, d);
    }
    ReadyIsLaunched(p, sys, last);
    k :| k in sys.Launched() && k.id == last;
    if last in p.contexts { TakenMapIsBase(p, sys, k); }
  }

  /** No other dependency of b lies below d, so d may be the last b waits for. */
  ghost predicate MayBeLast(p: Plan, b: Id, d: Id) {
    p.DependsOn(b, d) && forall x :: p.DependsOn(b, x) ==> !Reaches(EdgesOf(p.blocks), d, x)
  }

  /** Nothing else the block depends on lies below the last. */
  lemma OthersComplete(p: Plan, sys: System, last: Id, b: Id)
    requires Withheld(p, sys, last, b) && MayBeLast(p, b, last)
    ensures forall d :: p.DependsOn(b, d) && d != last ==> d in sys.s.completed
  {
    var e := EdgesOf(p.blocks);
    AcyclicNotSelfReaching(e, b);
    forall d | p.DependsOn(b, d) && d != last ensures d in sys.s.completed {
      DependencyKnown(p, b, d);
      EdgeReaches(e, d, b);
      IndependentCompletes(p, sys, last, b, d);
    }
  }

  /** The other map does not lie below the last one. */
  lemma FirstCompletes(p: Plan, sys: System, first: Id, last: Id, b: Id)
    requires Withheld(p, sys, last, b) && p.Clashes(first, last, b)
    ensures first in sys.s.completed
  {
    var e := EdgesOf(p.blocks);
    assert p.EntersContext(first, b);
    ContextIsBelow(p, first);
    AcyclicNotSelfReaching(e, b);
    var d :| p.DependsOn(b, d) && (d == first || p.Under(first, d));
    if d != first && Reaches(e, last, first) {
      ReachesTransitive(e, last, first, d);
    }
    IndependentCompletes(p, sys, last, b, first);
  }

  /** A block one map has fanned out still waits while another map above it is out. */
  lemma ExpandedPends(p: Plan, sys: System, first: Id, last: Id, b: Id)
    requires p.Sound() && Inv(p, sys) && p.Under(first, b) && first in sys.s.completed
    requires p.Under(last, b) && last !in sys.s.completed
    ensures Mapped(b, 0) in sys.s.pending
  {
    assert p.Effective(first);
    assert p.Instance(Mapped(b, 0), sys.s.completed);
    ContextWaits(p, sys, last);
    assert !HasLaunched(sys, b);
  }

  /** All that the shared block waits for is the last map. */
  lemma OnlyLastMissing(p: Plan, sys: System, first: Id, last: Id, b: Id)
    requires Withheld(p, sys, last, b) && p.Clashes(first, last, b)
    ensures ClashingResult(p, sys.s, last)
  {
    AcyclicNotSelfReaching(EdgesOf(p.blocks), last);
    FirstCompletes(p, sys, first, last, b);
    var k := LastIsOut(p, sys, last, b);
    OthersComplete(p, sys, last, b);
    EdgeReaches(EdgesOf(p.blocks), last, b);
    ExpandedPends(p, sys, first, last, b);
  }

  lemma LastResultRepeats(p: Plan, sys: System, last: Id) returns (next: System)
    requires p.Sound() && Inv(p, sys) && Base(last) in sys.taken && ClashingResult(p, sys.s, last)
    ensures Step(p, sys, next) && Repeats(next)
  {
    var s' := UpdatesTotal(p.blocks, p.contexts, sys.s, MapDone(last, p.fan[last]));
    next := System(s', sys.taken, sys.reported + {Base(last)});
    assert Applies(p, sys, Base(last), next);
    ApplyPreserves(p, sys, Base(last), next);
  }

  lemma ClashCanRepeat(p: Plan, first: Id, last: Id, b: Id) returns (run: seq<System>)
    requires p.Sound() && p.Clashes(first, last, b) && p.CanRun(b)
    ensures Run(p, run) && Repeats(run[|run| - 1])
  {
    run := RunAllBut(p, OfBlock(last));
    var sys := run[|run| - 1];
    OnlyLastMissing(p, sys, first, last, b);
    var k := LastIsOut(p, sys, last, b);
    var next := LastResultRepeats(p, sys, last);
    RunExtends(p, run, next);
    run := run + [next];
  }

  /** Some run launches an invocation twice, exactly when two maps fan out a
      block that can run and can be left waiting for the second of them alone:
      nothing else it depends on lies below that map. */
  lemma RepeatsIffClash(p: Plan)
    requires p.Sound()
    ensures CanRepeat(p) <==> exists first, last, b :: p.Clashes(first, last, b) && p.CanRun(b)
  {
    if first, last, b :| p.Clashes(first, last, b) && p.CanRun(b) {
      var run := ClashCanRepeat(p, first, last, b);
    } else {
      forall run: seq<System> | Run(p, run) ensures !Repeats(run[|run| - 1]) {
        LaunchedAtMostOnce(p, run, |run| - 1);
      }
    }
  }

  /** The same, told of the document. */
  lemma DocumentRepeatsIff(blocks: seq<Block>, kinds: Kinds, counts: map<Id, nat>)
    requires Runnable(blocks, kinds) && MapIds(blocks, kinds) <= counts.Keys
    ensures var p := PlanOf(blocks, kinds, counts);
            p.fan.Keys == p.contexts.Keys && (CanRepeat(p) <==> !ClashFree(blocks, kinds, counts))
  {
    var p := PlanOf(blocks, kinds, counts);
    PlanIsValidIff(blocks, kinds, counts);
    RepeatsIffClash(p);
  }

  // ---- In every order -----------------------------------------------------------------------------

  /** Several maps fan b out, and whatever it waits for last is one of them. */
  ghost predicate Doubled(p: Plan, b: Id) {
    && (exists m, m' :: m != m' && p.Under(m, b) && p.Under(m', b))
    && forall d :: MayBeLast(p, b, d) ==> p.Under(d, b)
  }

  /** Such a block can run. */
  ghost predicate AlwaysRepeats(p: Plan) {
    exists b :: b in Ids(p.blocks) && Doubled(p, b) && p.CanRun(b)
  }

  /** Some invocation of b has been launched twice. */
  ghost predicate LaunchedTwice(sys: System, b: Id) {
    exists i: nat :: multiset(sys.Launched())[Mapped(b, i)] >= 2
  }

  lemma StillTwice(sys: System, sys': System, b: Id)
    requires sys.Launched() <= sys'.Launched() && LaunchedTwice(sys, b)
    ensures LaunchedTwice(sys', b)
  {
    var i: nat :| multiset(sys.Launched())[Mapped(b, i)] >= 2;
    var more := sys'.Launched()[|sys.Launched()|..];
    assert sys'.Launched() == sys.Launched() + more;
    assert multiset(sys'.Launched()) == multiset(sys.Launched()) + multiset(more);
  }

  lemma TwiceRepeats(sys: System, b: Id)
    requires LaunchedTwice(sys, b)
    ensures Repeats(sys)
  {
    if !Repeats(sys) { AtMostOnce(sys.Launched()); }
  }

  /** The result that makes a block ready is that of a dependency which may be last. */
  lemma MadeReadyByLast(p: Plan, sys: System, b: Id, d: Id)
    requires p.Sound() && Safe(p, sys) && d !in sys.s.completed
    requires p.DepsIn(b, sys.s.completed + {d}) && p.DependsOn(b, d)
    ensures MayBeLast(p, b, d)
  {
    forall x | p.DependsOn(b, x) ensures !Reaches(EdgesOf(p.blocks), d, x) {
      AcyclicNotSelfReaching(EdgesOf(p.blocks), d);
      DownstreamWaits(p, sys, d);
    }
  }

  lemma DoubledPends(p: Plan, sys: System, b: Id, d: Id)
    requires p.Sound() && Inv(p, sys) && Doubled(p, b) && HasLaunched(sys, d) && d !in sys.s.completed
    requires p.DepsIn(b, sys.s.completed + {d}) && p.DependsOn(b, d)
    ensures p.Under(d, b) && Mapped(b, 0) in sys.s.pending
  {
    MadeReadyByLast(p, sys, b, d);
    assert p.Under(d, b);
    var m, m' :| m != m' && p.Under(m, b) && p.Under(m', b);
    var first := if m == d then m' else m;
    ContextIsBelow(p, first);
    AboveReady(p, sys, first, b, sys.s.completed + {d});
    ExpandedPends(p, sys, first, d, b);
  }

  lemma LaunchedIsReady(p: Plan, sys: System, b: Id)
    requires p.Sound() && Safe(p, sys) && HasLaunched(sys, b)
    ensures b in Ids(p.blocks) && p.DepsIn(b, sys.s.completed)
  {
    var k :| k in sys.Launched() && k.id == b;
    assert p.Instance(k, sys.s.completed);
  }

  /** What a result launches has been waiting for that block. */
  lemma BecameReady(p: Plan, sys: System, d: Id, sys': System, b: Id)
    requires p.Sound() && Inv(p, sys) && Safe(p, sys') && sys'.s.completed <= sys.s.completed + {d}
    requires !HasLaunched(sys, b) && HasLaunched(sys', b)
    ensures p.DepsIn(b, sys.s.completed + {d}) && p.DependsOn(b, d) && d !in sys.s.completed && p.Effective(d)
  {
    LaunchedIsReady(p, sys', b);
    if p.DepsIn(b, sys.s.completed) { ReadyIsLaunched(p, sys, b); }
  }

  lemma QueueGrows(sys: System, batch: seq<Key>, sys': System)
    requires sys'.taken == sys.taken && sys.s.queue <= sys'.s.queue
    requires KeysOf(sys'.s.queue[|sys.s.queue|..]) == batch
    ensures sys'.Launched() == sys.Launched() + batch
  {
    var q, q' := sys.s.queue, sys'.s.queue;
    assert q' == q + q'[|q|..];
    KeysOfConcat(q, q'[|q|..]);
  }

  /** What a map result launches: its own ready blocks, and whatever was ready and waiting. */
  lemma MapBatch(p: Plan, sys: System, m: Id, sys': System) returns (first: seq<Key>, second: seq<Key>)
    requires p.Sound() && Safe(p, sys) && m in p.contexts && p.fan[m] > 0 && sys'.taken == sys.taken
    requires Updates(p.blocks, p.contexts, sys.s, MapDone(m, p.fan[m]), sys'.s)
    ensures sys'.Launched() == sys.Launched() + (first + second)
    ensures NoDuplicates(first) && NoDuplicates(second)
    ensures forall k :: k in first <==>
              k.Mapped? && p.Under(m, k.id) && k.index < p.fan[m] && p.DepsIn(k.id, sys.s.completed + {m})
    ensures forall k :: k in first ==> (k in second <==> k in sys.s.pending)
  {
    first, second := LaunchedByMap(p, sys.s, m, p.fan[m], sys'.s);
    QueueGrows(sys, first + second, sys');
  }

  lemma InBothIsTwice(sys: System, first: seq<Key>, second: seq<Key>, sys': System, b: Id)
    requires sys'.Launched() == sys.Launched() + (first + second)
    requires Mapped(b, 0) in first && Mapped(b, 0) in second
    ensures LaunchedTwice(sys', b)
  {
    assert multiset(sys'.Launched()) == multiset(sys.Launched()) + multiset(first) + multiset(second);
    assert multiset(sys'.Launched())[Mapped(b, 0)] >= 2;
  }

  lemma DoubledAtResult(p: Plan, sys: System, k: Key, sys': System, b: Id)
    requires p.Sound() && Inv(p, sys) && Applies(p, sys, k, sys') && !AlreadyProcessed(sys.s, k)
    requires Doubled(p, b) && !HasLaunched(sys, b) && HasLaunched(sys', b)
    ensures LaunchedTwice(sys', b)
  {
    var d := k.id;
    ApplyPreserves(p, sys, k, sys');
    AppliedCompletes(p, sys, k, sys');
    BecameReady(p, sys, d, sys', b);
    assert k in sys.Launched();
    DoubledPends(p, sys, b, d);
    TakenMapIsBase(p, sys, k);
    var first, second := MapBatch(p, sys, d, sys');
    InBothIsTwice(sys, first, second, sys', b);
  }

  lemma DoubledStep(p: Plan, sys: System, sys': System, b: Id)
    requires p.Sound() && Inv(p, sys) && Step(p, sys, sys') && Doubled(p, b)
    requires HasLaunched(sys, b) ==> LaunchedTwice(sys, b)
    ensures HasLaunched(sys', b) ==> LaunchedTwice(sys', b)
  {
    if n :| Takes(sys, n, sys') {
      TakeKeepsLaunched(sys, n, sys');
    } else {
      var k :| Applies(p, sys, k, sys');
      if AlreadyProcessed(sys.s, k) {
        assert sys'.Launched() == sys.Launched();
      } else if HasLaunched(sys, b) {
        ApplyPreserves(p, sys, k, sys');
        StillTwice(sys, sys', b);
      } else if HasLaunched(sys', b) {
        DoubledAtResult(p, sys, k, sys', b);
      }
    }
  }

  lemma DoubledStepAt(p: Plan, run: seq<System>, i: nat, b: Id)
    requires p.Sound() && Run(p, run) && i + 1 < |run| && Doubled(p, b)
    requires HasLaunched(run[i], b) ==> LaunchedTwice(run[i], b)
    ensures HasLaunched(run[i + 1], b) ==> LaunchedTwice(run[i + 1], b)
  {
    EveryStateKeepsInv(p, run, i);
    assert StepAtIndex(p, run, i);
    DoubledStep(p, run[i], run[i + 1], b);
  }

  lemma DoubledAtStart(p: Plan, sys: System, b: Id)
    requires p.Sound() && Start(p, sys) && Doubled(p, b)
    ensures !HasLaunched(sys, b)
  {
    InitialInv(p);
    AddBlocksIs(p, p.blocks);
    var m, m' :| m != m' && p.Under(m, b) && p.Under(m', b);
    ContextWaits(p, sys, m);
  }

  /** In whatever order results arrive, such a block is launched twice or not at all. */
  lemma {:induction false} EveryOrderRepeats(p: Plan, run: seq<System>, i: nat, b: Id)
    requires p.Sound() && Run(p, run) && i < |run| && Doubled(p, b)
    ensures HasLaunched(run[i], b) ==> LaunchedTwice(run[i], b)
  {
    if i == 0 {
      DoubledAtStart(p, run[0], b);
    } else {
      EveryOrderRepeats(p, run, i - 1, b);
      DoubledStepAt(p, run, i - 1, b);
    }
  }

  lemma ReachableRepeats(p: Plan, sys: System, b: Id)
    requires p.Sound() && Reachable(p, sys) && Doubled(p, b) && HasLaunched(sys, b)
    ensures LaunchedTwice(sys, b)
  {
    var run: seq<System> :| Run(p, run) && run[|run| - 1] == sys;
    var n := |run| - 1;
    assert run[n] == sys;
    EveryOrderRepeats(p, run, n, b);
  }

  lemma AnsweredRepeats(p: Plan, sys: System, b: Id)
    requires p.Sound() && Reachable(p, sys) && AllAnswered(sys)
    requires Doubled(p, b) && b in Ids(p.blocks) && p.CanRun(b)
    ensures LaunchedTwice(sys, b)
  {
    ReachableKeeps(p, sys);
    AnsweredIsLaunched(p, sys, b);
    ReachableRepeats(p, sys, b);
  }

  // ---- Otherwise some order spares the block ---------------------------------------------------------

  /** The last of the dependencies: none of the others lies below it. */
  lemma {:induction false} LastOf(p: Plan, b: Id, among: set<Id>) returns (d: Id)
    requires p.Sound() && among != {} && forall x :: x in among ==> p.DependsOn(b, x)
    requires forall x, y :: x in among && p.DependsOn(b, y) && Reaches(EdgesOf(p.blocks), x, y) ==> y in among
    ensures MayBeLast(p, b, d)
    decreases |among|
  {
    var e := EdgesOf(p.blocks);
    d :| d in among;
    var below := set x | x in among && Reaches(e, d, x);
    if below != {} {
      AcyclicNotSelfReaching(e, d);
      assert d !in below && below <= among;
      SubsetCard(below, among - {d});
      forall x, y | x in below && p.DependsOn(b, y) && Reaches(e, x, y) ensures y in below {
        ReachesTransitive(e, d, x, y);
      }
      d := LastOf(p, b, below);
    } else {
      forall x | p.DependsOn(b, x) ensures !Reaches(e, d, x) {
        assert x !in below;
      }
    }
  }

  /** When the result of d makes b ready, no other map has fanned b out. */
  ghost predicate SparedBy(p: Plan, b: Id, d: Id) {
    MayBeLast(p, b, d) && (p.Under(d, b) ==> forall m :: p.Under(m, b) ==> m == d)
  }

  lemma SomeSpares(p: Plan, b: Id, x: Id) returns (d: Id)
    requires p.Sound() && !Doubled(p, b) && p.DependsOn(b, x)
    ensures SparedBy(p, b, d)
  {
    if y :| MayBeLast(p, b, y) && !p.Under(y, b) {
      d := y;
    } else {
      forall y | p.DependsOn(b, y) ensures y in Ids(p.blocks) { DependencyKnown(p, b, y); }
      var needed := set y | y in Ids(p.blocks) && p.DependsOn(b, y);
      assert x in needed;
      d := LastOf(p, b, needed);
    }
  }

  lemma OnceNow(sys: System, more: seq<Key>, sys': System, b: Id)
    requires sys'.Launched() == sys.Launched() + more && !HasLaunched(sys, b)
    requires forall i: nat :: multiset(more)[Mapped(b, i)] <= 1
    ensures !LaunchedTwice(sys', b)
  {
    assert multiset(sys'.Launched()) == multiset(sys.Launched()) + multiset(more);
    forall i: nat ensures multiset(sys'.Launched())[Mapped(b, i)] <= 1 {
      assert Mapped(b, i) !in sys.Launched();
    }
  }

  lemma NotYetFannedOut(p: Plan, sys: System, d: Id, b: Id, i: nat)
    requires Safe(p, sys) && d !in sys.s.completed && forall m :: p.Under(m, b) ==> m == d
    ensures Mapped(b, i) !in sys.s.pending
  {
    assert !p.Instance(Mapped(b, i), sys.s.completed);
  }

  lemma MapSpares(p: Plan, sys: System, d: Id, sys': System, b: Id)
    requires p.Sound() && Safe(p, sys) && d in p.contexts && p.fan[d] > 0 && sys'.taken == sys.taken
    requires Updates(p.blocks, p.contexts, sys.s, MapDone(d, p.fan[d]), sys'.s)
    requires d !in sys.s.completed && SparedBy(p, b, d) && !HasLaunched(sys, b)
    ensures !LaunchedTwice(sys', b)
  {
    var first, second := MapBatch(p, sys, d, sys');
    AtMostOnce(first);
    AtMostOnce(second);
    assert multiset(first + second) == multiset(first) + multiset(second);
    forall i: nat ensures multiset(first + second)[Mapped(b, i)] <= 1 {
      if p.Under(d, b) { NotYetFannedOut(p, sys, d, b, i); }
    }
    OnceNow(sys, first + second, sys', b);
  }

  lemma CompletionSpares(p: Plan, sys: System, k: Key, sys': System, b: Id)
    requires p.Sound() && Safe(p, sys) && k.id !in p.contexts && sys'.taken == sys.taken
    requires Promotes(sys.s.(completed := sys.s.completed + {k.id}), sys'.s) && !HasLaunched(sys, b)
    ensures !LaunchedTwice(sys', b)
  {
    var order := CompleteLaunches(p, sys, k, sys'.s);
    LaunchExtends(p, sys, sys.s.completed + {k.id}, sys.s.pending, order, sys');
    AtMostOnce(order);
    OnceNow(sys, order, sys', b);
  }

  lemma ResultSpares(p: Plan, sys: System, k: Key, sys': System, b: Id)
    requires p.Sound() && Inv(p, sys) && Applies(p, sys, k, sys') && k.id !in sys.s.completed && p.Effective(k.id)
    requires SparedBy(p, b, k.id) && !HasLaunched(sys, b)
    ensures !LaunchedTwice(sys', b)
  {
    if k.id in p.contexts {
      TakenMapIsBase(p, sys, k);
      MapSpares(p, sys, k.id, sys', b);
    } else {
      CompletionSpares(p, sys, k, sys', b);
    }
  }

  /** A result completes its block and keeps what has completed. */
  lemma ResultCompletes(p: Plan, sys: System, k: Key, sys': System)
    requires p.Sound() && Inv(p, sys) && Applies(p, sys, k, sys') && p.Effective(k.id)
    ensures sys.s.completed + {k.id} <= sys'.s.completed
  {
    ApplyPreserves(p, sys, k, sys');
    assert HasReported(sys'.reported, k.id);
    KeepsReported(p, sys, sys'.reported);
  }

  lemma KeepsReported(p: Plan, sys: System, reported: set<Key>)
    requires CompletedHasReported(p, sys) && sys.reported <= reported
    ensures forall x :: x in sys.s.completed ==> p.Effective(x) && HasReported(reported, x)
  {
    forall x | x in sys.s.completed ensures HasReported(reported, x) {
      var r :| r in sys.reported && r.id == x;
      assert r in reported;
    }
  }

  lemma ResultReadies(p: Plan, sys: System, last: Id, b: Id, k: Key, next: System)
    requires Withheld(p, sys, last, b) && SparedBy(p, b, last) && b in Ids(p.blocks)
    requires k.id == last && last !in sys.s.completed && Applies(p, sys, k, next)
    ensures HasLaunched(next, b) && !LaunchedTwice(next, b)
  {
    EdgeReaches(EdgesOf(p.blocks), last, b);
    OthersComplete(p, sys, last, b);
    ResultCompletes(p, sys, k, next);
    ApplyPreserves(p, sys, k, next);
    ReadyIsLaunched(p, next, b);
    DownstreamWaits(p, sys, last);
    ResultSpares(p, sys, k, next, b);
  }

  lemma SparedRun(p: Plan, b: Id, d: Id) returns (run: seq<System>)
    requires p.Sound() && b in Ids(p.blocks) && p.CanRun(b) && SparedBy(p, b, d)
    ensures Run(p, run) && HasLaunched(run[|run| - 1], b) && !LaunchedTwice(run[|run| - 1], b)
  {
    run := RunAllBut(p, OfBlock(d));
    var sys := run[|run| - 1];
    var k := LastIsOut(p, sys, d, b);
    var next := DeliverOne(p, sys, k);
    ResultReadies(p, sys, d, b, k, next);
    RunExtends(p, run, next);
    run := run + [next];
  }

  lemma SparedAtStart(p: Plan, b: Id) returns (run: seq<System>)
    requires p.Sound() && b in Ids(p.blocks) && forall d :: !p.DependsOn(b, d)
    ensures Run(p, run) && HasLaunched(run[|run| - 1], b) && !LaunchedTwice(run[|run| - 1], b)
  {
    var sys := System(AddBlocks(EMPTY, p.blocks), [], {});
    run := [sys];
    InitialInv(p);
    ReadyIsLaunched(p, sys, b);
    if LaunchedTwice(sys, b) { TwiceRepeats(sys, b); }
  }

  /** Whenever a block that can run is launched, some invocation of it is launched
      twice, in whatever order results arrive, exactly when several maps fan it
      out and whatever it waits for last is one of them. */
  lemma AlwaysTwiceIff(p: Plan, b: Id)
    requires p.Sound() && b in Ids(p.blocks) && p.CanRun(b)
    ensures Doubled(p, b) <==>
            forall run: seq<System> :: Run(p, run) && HasLaunched(run[|run| - 1], b) ==>
              LaunchedTwice(run[|run| - 1], b)
  {
    if Doubled(p, b) {
      forall run: seq<System> | Run(p, run) && HasLaunched(run[|run| - 1], b)
        ensures LaunchedTwice(run[|run| - 1], b)
      {
        EveryOrderRepeats(p, run, |run| - 1, b);
      }
    } else if x :| p.DependsOn(b, x) {
      var d := SomeSpares(p, b, x);
      var run := SparedRun(p, b, d);
    } else {
      var run := SparedAtStart(p, b);
    }
  }

  // ---- Concretely -----------------------------------------------------------------------------------

  lemma SharedByTwo(p: Plan, b: Id, m: Id, m': Id)
    requires p.Sound() && m != m' && p.Under(m, b) && p.Under(m', b)
    requires forall d :: p.DependsOn(b, d) ==> d == m || d == m'
    ensures Doubled(p, b)
  {
  }

  lemma SharedByTwoRepeats(p: Plan, b: Id, m: Id, m': Id)
    requires p.Sound() && m != m' && p.Under(m, b) && p.Under(m', b)
    requires forall d :: p.DependsOn(b, d) ==> d == m || d == m'
    requires forall x :: x in p.fan ==> p.fan[x] > 0
    ensures forall run: seq<System> :: Run(p, run) && AllAnswered(run[|run| - 1]) ==> LaunchedTwice(run[|run| - 1], b)
    ensures AlwaysRepeats(p)
  {
    SharedByTwo(p, b, m, m');
    AllCanRun(p, b);
    forall run: seq<System> | Run(p, run) && AllAnswered(run[|run| - 1]) ensures LaunchedTwice(run[|run| - 1], b) {
      assert Reachable(p, run[|run| - 1]);
      AnsweredRepeats(p, run[|run| - 1], b);
    }
  }

  lemma ThirdRepeats(p: Plan)
    requires p.Sound() && p.contexts.Keys == {1, 2} && p.contexts[1] == {3} && p.contexts[2] == {3}
    requires (forall d :: p.DependsOn(3, d) ==> d == 1 || d == 2) && p.fan[1] > 0 && p.fan[2] > 0
    ensures forall run: seq<System> :: Run(p, run) && AllAnswered(run[|run| - 1]) ==> LaunchedTwice(run[|run| - 1], 3)
    ensures AlwaysRepeats(p)
  {
    SharedByTwoRepeats(p, 3, 1, 2);
  }

  lemma TwoMapsRepeat(counts: map<Id, nat>)
    requires counts.Keys == {1, 2} && counts[1] > 0 && counts[2] > 0
    ensures var p := PlanOf(TWO_MAPS, KINDS, counts);
            && p.fan.Keys == p.contexts.Keys && AlwaysRepeats(p)
            && forall run: seq<System> :: Run(p, run) && AllAnswered(run[|run| - 1]) ==>
                 LaunchedTwice(run[|run| - 1], 3)
  {
    TwoMapsPlan(counts);
    ThirdRepeats(PlanOf(TWO_MAPS, KINDS, counts));
  }

  /** A document validation accepts, in which the block its two maps share is
      launched twice whatever they yield and in whatever order results arrive. */
  lemma TwoMapsRunItTwice(counts: map<Id, nat>)
    requires counts.Keys == {1, 2} && counts[1] > 0 && counts[2] > 0
    ensures Validated(TWO_MAPS, KINDS, TYPES)
    ensures var p := PlanOf(TWO_MAPS, KINDS, counts);
            && p.fan.Keys == p.contexts.Keys && AlwaysRepeats(p)
            && forall run: seq<System> :: Run(p, run) && AllAnswered(run[|run| - 1]) ==>
                 LaunchedTwice(run[|run| - 1], 3)
  {
    TwoMapsRepeat(counts);
    TwoMapsIsValidated();
  }
}
