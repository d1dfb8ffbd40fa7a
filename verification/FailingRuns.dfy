// Runs in which blocks fail and the pipeline is cancelled (core/scheduler.go,
// server/engine/engine.go): results that were in flight still arrive, and a map
// among them puts new work into the halted scheduler.
module FailingRuns {
  import opened Digraphs
  import opened Pipelines
  import opened DependencyGraphs
  import opened SchedulerState
  import opened SchedulerInvariant
  import opened SchedulerSteps
  import opened ConcurrentRuns
  import opened SchedulerGaps
  import opened WithheldRuns
  import opened PipelinePlans
  import opened ExamplePipelines
  import opened ExampleInputs

  /** An invocation that has been handed out reports an error. */
  ghost predicate Fails(p: Plan, sys: System, k: Key, sys': System) {
    && k in sys.taken
    && sys'.taken == sys.taken && sys'.reported == sys.reported + {k}
    && (if AlreadyProcessed(sys.s, k) then sys'.s == sys.s
        else Updates(p.blocks, p.contexts, sys.s, Failed(k.id), sys'.s))
  }

  ghost predicate Cancelled(sys: System, sys': System) {
    sys' == System(Halted(sys.s), sys.taken, sys.reported)
  }

  ghost predicate AnyStep(p: Plan, sys: System, sys': System)
    requires p.fan.Keys == p.contexts.Keys
  {
    Step(p, sys, sys') || (exists k :: Fails(p, sys, k, sys')) || Cancelled(sys, sys')
  }

  ghost predicate AnyStepAt(p: Plan, run: seq<System>, i: nat)
    requires p.fan.Keys == p.contexts.Keys && i + 1 < |run|
  {
    AnyStep(p, run[i], run[i + 1])
  }

  ghost predicate AnyRun(p: Plan, run: seq<System>)
    requires p.fan.Keys == p.contexts.Keys
  {
    |run| > 0 && Start(p, run[0]) && forall i: nat :: i + 1 < |run| ==> AnyStepAt(p, run, i)
  }

  /** Whatever is dropped by halting, what remains is safe. */
  lemma HaltIsSafe(p: Plan, sys: System, sys': System)
    requires Safe(p, sys) && sys'.s == Halted(sys.s) && sys'.taken == sys.taken
    requires sys.reported <= sys'.reported && forall k :: k in sys'.reported ==> k in sys.taken
    ensures Safe(p, sys') && (Repeats(sys') ==> Repeats(sys))
  {
    assert KeysOf(sys'.s.queue) == [] && sys'.Launched() == sys.taken;
    if !Repeats(sys) { NoDuplicatesParts(sys.taken, KeysOf(sys.s.queue)); }
    AtMostTwiceParts(sys.taken, KeysOf(sys.s.queue));
    forall k | k in sys.taken ensures k in sys.Launched() {}
    forall b | b in sys.s.completed ensures HasReported(sys'.reported, b) {
      var r :| r in sys.reported && r.id == b;
      assert r in sys'.reported;
    }
  }

  lemma FailIsSafe(p: Plan, sys: System, k: Key, sys': System)
    requires Safe(p, sys) && Fails(p, sys, k, sys')
    ensures Safe(p, sys') && (Repeats(sys') ==> Repeats(sys))
  {
    if AlreadyProcessed(sys.s, k) {
      ReportedStays(p, sys, k, sys');
    } else {
      HaltIsSafe(p, sys, sys');
    }
  }

  lemma AnyStepIsSafe(p: Plan, sys: System, sys': System)
    requires p.Sound() && Safe(p, sys) && AnyStep(p, sys, sys')
    ensures Safe(p, sys')
    ensures p.Valid() && !Repeats(sys) ==> !Repeats(sys')
  {
    if Cancelled(sys, sys') {
      HaltIsSafe(p, sys, sys');
    } else if k :| Fails(p, sys, k, sys') {
      FailIsSafe(p, sys, k, sys');
    } else if n :| Takes(sys, n, sys') {
      TakePreserves(p, sys, n, sys');
    } else {
      var k :| Applies(p, sys, k, sys');
      ApplyIsSafe(p, sys, k, sys');
      if p.Valid() { NoClashWhenApplied(p, sys, k); }
    }
  }

  /** Over every interleaving of sweeps, successes, failures, redelivered
      results and cancellations. */
  lemma {:induction false} EveryStateIsSafe(p: Plan, run: seq<System>, i: nat)
    requires p.Sound() && AnyRun(p, run) && i < |run|
    ensures Safe(p, run[i])
  {
    if i == 0 {
      InitialInv(p);
    } else {
      EveryStateIsSafe(p, run, i - 1);
      assert AnyStepAt(p, run, i - 1);
      AnyStepIsSafe(p, run[i - 1], run[i]);
    }
  }

  lemma AnyStepKeepsOnce(p: Plan, run: seq<System>, i: nat)
    requires p.Valid() && AnyRun(p, run) && i + 1 < |run| && !Repeats(run[i])
    ensures !Repeats(run[i + 1])
  {
    EveryStateIsSafe(p, run, i);
    assert AnyStepAt(p, run, i);
    AnyStepIsSafe(p, run[i], run[i + 1]);
  }

  /** Without a clash, nothing is launched twice. */
  lemma {:induction false} OnceInAnyRun(p: Plan, run: seq<System>, i: nat)
    requires p.Valid() && AnyRun(p, run) && i < |run|
    ensures !Repeats(run[i])
  {
    if i == 0 {
      InitialInv(p);
    } else {
      OnceInAnyRun(p, run, i - 1);
      AnyStepKeepsOnce(p, run, i - 1);
    }
  }

  /** No invocation is ever handed out more than twice, and without a clash none
      more than once, also when a map result revives a pipeline that was halted. */
  lemma HandedOutAtMostOnce(p: Plan, run: seq<System>, i: nat)
    requires p.Sound() && AnyRun(p, run) && i < |run|
    ensures AtMostTwice(run[i].taken)
    ensures p.Valid() ==> NoDuplicates(run[i].taken)
  {
    EveryStateIsSafe(p, run, i);
    var sys := run[i];
    AtMostTwiceParts(sys.taken, KeysOf(sys.s.queue));
    if p.Valid() {
      OnceInAnyRun(p, run, i);
      NoDuplicatesParts(sys.taken, KeysOf(sys.s.queue));
    }
  }

  /** What a sweep hands out has had all its dependencies completed: a block
      whose invocations only failed completes nothing. */
  lemma HandedOutAfterSuccess(p: Plan, run: seq<System>, i: nat, n: nat, k: Key, d: Id)
    requires p.Sound() && AnyRun(p, run) && i + 1 < |run|
    requires Takes(run[i], n, run[i + 1]) && k in run[i + 1].taken && p.DependsOn(k.id, d)
    ensures d in run[i].s.completed && HasReported(run[i].reported, d)
  {
    EveryStateIsSafe(p, run, i);
    TakePreserves(p, run[i], n, run[i + 1]);
    assert k in run[i + 1].Launched();
  }

  /** A block completes by a successful result of one of its invocations, and
      by nothing else. */
  lemma CompletedBySuccess(p: Plan, run: seq<System>, i: nat, b: Id)
    requires p.Sound() && AnyRun(p, run) && i + 1 < |run|
    requires b in run[i + 1].s.completed && b !in run[i].s.completed
    ensures exists k: Key :: k.id == b && Applies(p, run[i], k, run[i + 1])
  {
    EveryStateIsSafe(p, run, i);
    assert AnyStepAt(p, run, i);
    var sys, sys' := run[i], run[i + 1];
    if !Cancelled(sys, sys') && (forall k :: !Fails(p, sys, k, sys')) && (forall n :: !Takes(sys, n, sys')) {
      var k :| Applies(p, sys, k, sys');
      if !AlreadyProcessed(sys.s, k) {
        AppliedCompletes(p, sys, k, sys');
      }
    }
  }

  // ---- A pipeline that resumes after its failure ----------------------------------------

  lemma SourcesAreQueued(p: Plan, sys: System, x: Id)
    requires p.Sound() && Inv(p, sys) && x in Ids(p.blocks) && (forall d :: !p.DependsOn(x, d))
    requires sys.s.completed == {} && sys.taken == []
    ensures Base(x) in KeysOf(sys.s.queue)
  {
    assert p.Instance(Base(x), {});
    assert sys.Launched() == KeysOf(sys.s.queue);
  }

  /** The result of a map reaches a halted scheduler, and a sweep takes what it queued. */
  lemma RevivedByMap(p: Plan, sys: System, m: Id, b: Id) returns (mid: System, next: System)
    requires p.Sound() && NothingWaits(sys.s) && sys.s.completed == {} && Base(m) in sys.taken
    requires m in p.contexts && p.fan[m] > 0 && p.Under(m, b) && forall d :: p.DependsOn(b, d) ==> d == m
    ensures AnyStep(p, sys, mid) && AnyStep(p, mid, next)
    ensures Mapped(b, 0) in next.taken
  {
    var s' := UpdatesTotal(p.blocks, p.contexts, sys.s, MapDone(m, p.fan[m]));
    mid := System(s', sys.taken, sys.reported + {Base(m)});
    var first, second := LaunchedByMap(p, sys.s, m, p.fan[m], s');
    assert Mapped(b, 0) in first;
    var n := |s'.queue|;
    next := System(s'.(queue := s'.queue[n..]), mid.taken + KeysOf(s'.queue[..n]), mid.reported);
    assert s'.queue[..n] == s'.queue && s'.queue[|sys.s.queue|..] == s'.queue;
    assert Mapped(b, 0) in first + second;
    assert Applies(p, sys, Base(m), mid) && Takes(mid, n, next);
  }

  lemma StartState(p: Plan) returns (sys: System)
    requires p.Sound()
    ensures Start(p, sys) && sys.s.completed == {} && sys.taken == [] && sys.reported == {}
    ensures forall x :: x in Ids(p.blocks) && (forall d :: !p.DependsOn(x, d)) ==> Base(x) in KeysOf(sys.s.queue)
    ensures forall k :: k in KeysOf(sys.s.queue) ==> k.Base?
  {
    sys := System(AddBlocks(EMPTY, p.blocks), [], {});
    InitialInv(p);
    AddBlocksIs(p, p.blocks);
    forall x | x in Ids(p.blocks) && (forall d :: !p.DependsOn(x, d)) ensures Base(x) in KeysOf(sys.s.queue) {
      SourcesAreQueued(p, sys, x);
    }
  }

  lemma SweepThenFail(p: Plan, s0: System, other: Key) returns (s1: System, s2: System)
    requires s0.s.completed == {} && s0.taken == [] && other in KeysOf(s0.s.queue)
    ensures Takes(s0, |s0.s.queue|, s1) && Fails(p, s1, other, s2)
    ensures s2.s == Halted(s1.s) && s2.s.completed == {} && s2.taken == s1.taken == KeysOf(s0.s.queue)
  {
    assert s0.s.queue[..|s0.s.queue|] == s0.s.queue;
    s1 := System(s0.s.(queue := []), [] + KeysOf(s0.s.queue), s0.reported);
    s2 := System(Halted(s1.s), s1.taken, s1.reported + {other});
  }

  lemma UntilFailure(p: Plan, m: Id, other: Id) returns (s0: System, s1: System, s2: System)
    requires p.Sound() && m in Ids(p.blocks) && other in Ids(p.blocks)
    requires (forall d :: !p.DependsOn(m, d)) && (forall d :: !p.DependsOn(other, d))
    ensures Start(p, s0) && AnyStep(p, s0, s1) && AnyStep(p, s1, s2) && Fails(p, s1, Base(other), s2)
    ensures NothingWaits(s2.s) && s2.s.cancelled && s2.s.completed == {} && Base(m) in s2.taken
    ensures forall k :: k in s2.taken ==> k.Base?
  {
    s0 := StartState(p);
    s1, s2 := SweepThenFail(p, s0, Base(other));
  }

  lemma FiveStates(p: Plan, run: seq<System>)
    requires p.fan.Keys == p.contexts.Keys && |run| == 5 && Start(p, run[0])
    requires AnyStep(p, run[0], run[1]) && AnyStep(p, run[1], run[2]) && AnyStep(p, run[2], run[3]) &&
             AnyStep(p, run[3], run[4])
    ensures AnyRun(p, run)
  {
    forall i: nat | i + 1 < |run| ensures AnyStepAt(p, run, i) {
      assert i == 0 || i == 1 || i == 2 || i == 3;
    }
  }

  /** The start, everything handed out, one failure, one map result, and a
      sweep over what that result queued. */
  lemma ResumesAfterFailure(p: Plan, m: Id, other: Id, b: Id) returns (run: seq<System>)
    requires p.Sound() && m in p.contexts && p.fan[m] > 0 && other in Ids(p.blocks) && other != m
    requires (forall d :: !p.DependsOn(m, d)) && (forall d :: !p.DependsOn(other, d))
    requires p.Under(m, b) && forall d :: p.DependsOn(b, d) ==> d == m
    ensures AnyRun(p, run) && |run| == 5 && Fails(p, run[1], Base(other), run[2])
    ensures run[2].s.queue == [] && run[2].s.pending == map[] && run[2].s.cancelled
    ensures Mapped(b, 0) in run[4].taken && Mapped(b, 0) !in run[2].taken
  {
    var s0, s1, s2 := UntilFailure(p, m, other);
    var s3, s4 := RevivedByMap(p, s2, m, b);
    run := [s0, s1, s2, s3, s4];
    FiveStates(p, run);
  }

  lemma MapReduceResumes() returns (run: seq<System>)
    ensures var p := PlanOf(MAP_REDUCE, KINDS, map[1 := 1]);
            && p.fan.Keys == p.contexts.Keys && AnyRun(p, run) && |run| == 5
            && run[2].s.cancelled && run[2].s.queue == [] && run[2].s.pending == map[]
            && Mapped(2, 0) in run[4].taken && Mapped(2, 0) !in run[2].taken
  {
    MapReduceBlocks();
    MapReducePlan(map[1 := 1]);
    run := ResumesAfterFailure(PlanOf(MAP_REDUCE, KINDS, map[1 := 1]), 1, 4, 2);
  }

  /** Here a block fails while the map is still at work, and the mapped block
      runs all the same. */
  lemma FailedPipelineResumes() returns (run: seq<System>)
    ensures Validated(MAP_REDUCE, KINDS, TYPES)
    ensures var p := PlanOf(MAP_REDUCE, KINDS, map[1 := 1]);
            && p.fan.Keys == p.contexts.Keys && AnyRun(p, run) && |run| == 5
            && run[2].s.cancelled && run[2].s.queue == [] && run[2].s.pending == map[]
            && Mapped(2, 0) in run[4].taken && Mapped(2, 0) !in run[2].taken
  {
    run := MapReduceResumes();
    MapReduceIsValidated();
  }
}
