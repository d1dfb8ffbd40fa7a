// The command line's execution loop (cli/cmd/run.go): take the head of the
// queue, execute it, report its result, repeat.
module SequentialRun {
  import opened Digraphs
  import opened Pipelines
  import opened DependencyGraphs
  import opened MapContexts
  import opened SchedulerState
  import opened PipelineScheduler
  import opened SchedulerInvariant
  import opened SchedulerSteps
  import opened PipelinePlans
  import opened ConcurrentRuns
  import opened WithheldRuns
  import opened SiblingGathering
  import opened SharedContexts
  import opened FinishedRuns

  /** Done: nothing left.  Stuck: something is pending but nothing can run.
      Broken: a block failed. */
  datatype Outcome = Done | Stuck | Broken

  /** What executing an invocation reports, given the invocations that fail and
      the number of items each map block writes. */
  function Execute(kinds: Kinds, counts: map<Id, nat>, failing: set<Key>, inv: Invocation): BlockResult {
    if KeyOf(inv) in failing then Failed(inv.id)
    else if inv.name in kinds && kinds[inv.name] == Map && inv.id in counts then MapDone(inv.id, counts[inv.id])
    else Complete(inv.id)
  }

  /** Each entry comes after every invocation of every dependency. */
  ghost predicate AfterAllSiblings(p: Plan, log: seq<Key>) {
    forall i, d, j :: 0 <= i < |log| && p.DependsOn(log[i].id, d) && Final(p, j) && j.id == d ==> j in log[..i]
  }

  lemma ExecuteIsResult(blocks: seq<Block>, kinds: Kinds, counts: map<Id, nat>, failing: set<Key>, k: Key)
    requires UniqueIds(blocks) && MapIds(blocks, kinds) <= counts.Keys
    requires k.id in Ids(blocks) && k !in failing
    requires var p := PlanOf(blocks, kinds, counts); k.id in p.contexts ==> k.Base?
    ensures var p := PlanOf(blocks, kinds, counts);
            && p.fan.Keys == p.contexts.Keys
            && Execute(kinds, counts, failing, p.InvocationFor(k)) == p.ResultOf(k)
  {
    var p := PlanOf(blocks, kinds, counts);
    var b := p.BlockAt(k.id);
    KeyOfInvocationFor(p, k);
    if k.id in p.contexts {
      var c :| c in blocks && IsMap(kinds, c) && c.id == k.id;
      BlockAtFinds(p, c);
    }
  }

  /** An invocation taken for the first time is not mistaken for a duplicate. */
  lemma FirstResultIsNew(p: Plan, sys: System, k: Key)
    requires p.Sound() && Inv(p, sys) && k in sys.taken && (k.Base? ==> k !in sys.reported)
    ensures !AlreadyProcessed(sys.s, k)
  {
    if k.id in sys.s.completed {
      var r :| r in sys.reported && r.id == k.id;
      assert r in sys.Launched() && k in sys.Launched();
      MappedIffExpanded(p, sys.s.completed, r);
      MappedIffExpanded(p, sys.s.completed, k);
    }
  }

  /** The queue is first-in first-out, so its launch order is the order of execution. */
  lemma LaunchedInOrder(p: Plan, sys: System)
    requires p.Sound() && Inv(p, sys)
    ensures AfterAllSiblings(p, sys.taken)
  {
    var l := sys.Launched();
    forall i, d, j | 0 <= i < |sys.taken| && p.DependsOn(sys.taken[i].id, d) && Final(p, j) && j.id == d
      ensures j in sys.taken[..i]
    {
      assert l[i] == sys.taken[i] && l[..i] == sys.taken[..i];
      assert l[i] in l && d in sys.s.completed;
      FinalOfCompleted(p, sys, d, j);
      assert AfterDependencies(p, sys.s.completed, l[i], l[..i]);
    }
  }

  lemma FinalOfCompleted(p: Plan, sys: System, d: Id, j: Key)
    requires p.Sound() && Inv(p, sys) && d in sys.s.completed && Final(p, j) && j.id == d
    ensures p.Instance(j, sys.s.completed)
  {
    if j.Mapped? {
      var m :| p.Under(m, d) && m in p.contexts.Keys && m in p.fan && j.index < p.fan[m];
      var r :| r in sys.reported && r.id == d;
      assert r in sys.Launched();
      if m !in sys.s.completed { ContextWaits(p, sys, m); }
    } else {
      ExpandedInTheEnd(p, sys.s.completed, d);
    }
  }

  lemma ExpandedInTheEnd(p: Plan, completed: set<Id>, d: Id)
    ensures p.Expanded(d, completed) ==> p.Expanded(d, p.contexts.Keys)
  {
    if p.Expanded(d, completed) {
      var m :| p.Under(m, d) && m in completed;
      assert m in p.contexts.Keys;
    }
  }

  /** Between two iterations: a state of a run in which everything executed has
      reported. */
  ghost predicate Between(blocks: seq<Block>, kinds: Kinds, counts: map<Id, nat>, s: State, log: seq<Key>) {
    && Runnable(blocks, kinds) && MapIds(blocks, kinds) <= counts.Keys
    && var p := PlanOf(blocks, kinds, counts);
       p.Sound() && Reachable(p, System(s, log, ToSet(log)))
  }

  lemma SafeLog(p: Plan, sys: System)
    requires p.Sound() && Inv(p, sys)
    ensures AfterAllSiblings(p, sys.taken) && AtMostTwice(sys.taken)
    ensures !Repeats(sys) ==> NoDuplicates(sys.taken)
  {
    LaunchedInOrder(p, sys);
    AtMostTwiceParts(sys.taken, KeysOf(sys.s.queue));
    if !Repeats(sys) { NoDuplicatesParts(sys.taken, KeysOf(sys.s.queue)); }
  }

  /** What every prefix of the execution order is. */
  ghost predicate InGoodOrder(p: Plan, log: seq<Key>) {
    AfterAllSiblings(p, log) && AtMostTwice(log) && (p.Valid() ==> NoDuplicates(log))
  }

  /** The head of the queue is taken. */
  lemma TakesHead(p: Plan, sys: System) returns (next: System)
    requires p.Sound() && Reachable(p, sys) && sys.s.queue != []
    ensures var inv := sys.s.queue[0];
            next == System(sys.s.(queue := sys.s.queue[1..]), sys.taken + [KeyOf(inv)], sys.reported)
    ensures Reachable(p, next) && Inv(p, next)
    ensures var k := KeyOf(sys.s.queue[0]); k.Base? ==> k !in sys.taken
    ensures |sys.taken| < 2 * |Universe(p)|
  {
    next := System(sys.s.(queue := sys.s.queue[1..]), sys.taken + [KeyOf(sys.s.queue[0])], sys.reported);
    assert KeysOf(sys.s.queue[..1]) == [KeyOf(sys.s.queue[0])];
    assert Takes(sys, 1, next);
    ReachableStep(p, sys, next);
    ReachableKeeps(p, next);
    TakenInUniverse(p, next);
    HeadIsNew(p, sys);
  }

  lemma HeadIsNew(p: Plan, sys: System)
    requires p.Sound() && Reachable(p, sys) && sys.s.queue != []
    ensures var k := KeyOf(sys.s.queue[0]); k.Base? ==> k !in sys.taken
  {
    ReachableKeeps(p, sys);
    AtMostTwiceParts(sys.taken, KeysOf(sys.s.queue));
    assert KeysOf(sys.s.queue)[0] == KeyOf(sys.s.queue[0]);
  }

  lemma SurelyRepeats(p: Plan, sys: System)
    requires p.Sound() && Reachable(p, sys) && AllAnswered(sys)
    ensures AlwaysRepeats(p) ==> !NoDuplicates(sys.taken)
  {
    if AlwaysRepeats(p) {
      var b :| b in Ids(p.blocks) && Doubled(p, b) && p.CanRun(b);
      AnsweredRepeats(p, sys, b);
      TwiceRepeats(sys, b);
      assert KeysOf(sys.s.queue) == [] && sys.Launched() == sys.taken;
    }
  }

  lemma QuietEnd(blocks: seq<Block>, kinds: Kinds, counts: map<Id, nat>, s: State, log: seq<Key>)
    requires Between(blocks, kinds, counts, s, log) && s.queue == []
    ensures var p := PlanOf(blocks, kinds, counts);
            && InGoodOrder(p, log)
            && (s.pending == map[] <==> UsedMapsYield(p))
            && (forall k :: k in log <==> Final(p, k) && p.CanRun(k.id))
            && (AlwaysRepeats(p) ==> !NoDuplicates(log))
  {
    var p := PlanOf(blocks, kinds, counts);
    var sys := System(s, log, ToSet(log));
    ReachableKeeps(p, sys);
    SafeLog(p, sys);
    if p.Valid() { ReachableOnce(p, sys); }
    FinishedIffMapsYield(p, sys);
    forall k ensures k in log <==> Final(p, k) && p.CanRun(k.id) { WhatHasRun(p, sys, k); }
    SurelyRepeats(p, sys);
  }

  /** One iteration on the head of the queue is safe whatever its result. */
  lemma IterationSafe(blocks: seq<Block>, kinds: Kinds, counts: map<Id, nat>, s: State, log: seq<Key>)
    requires Between(blocks, kinds, counts, s, log) && s.queue != []
    ensures var p := PlanOf(blocks, kinds, counts);
            var log' := log + [KeyOf(s.queue[0])];
            InGoodOrder(p, log') && |log| < 2 * |Universe(p)|
  {
    var p := PlanOf(blocks, kinds, counts);
    var taken := TakesHead(p, System(s, log, ToSet(log)));
    SafeLog(p, taken);
    if p.Valid() { ReachableOnce(p, taken); }
  }

  lemma ReportKeeps(blocks: seq<Block>, kinds: Kinds, counts: map<Id, nat>, failing: set<Key>,
                    sys: System, k: Key, sys': System)
    requires Runnable(blocks, kinds) && MapIds(blocks, kinds) <= counts.Keys
    requires var p := PlanOf(blocks, kinds, counts);
             && p.Sound() && Reachable(p, sys) && Inv(p, sys) && k.id in Ids(blocks)
             && Updates(blocks, p.contexts, sys.s, Execute(kinds, counts, failing, p.InvocationFor(k)), sys'.s)
    requires k in sys.taken && (k.Base? ==> k !in sys.reported) && k !in failing
    requires sys'.taken == sys.taken && sys'.reported == sys.reported + {k}
    ensures Reachable(PlanOf(blocks, kinds, counts), sys')
  {
    var p := PlanOf(blocks, kinds, counts);
    if k.id in p.contexts { TakenMapIsBase(p, sys, k); }
    ExecuteIsResult(blocks, kinds, counts, failing, k);
    FirstResultIsNew(p, sys, k);
    assert Applies(p, sys, k, sys');
    ReachableStep(p, sys, sys');
  }

  lemma IterationKeeps(blocks: seq<Block>, kinds: Kinds, counts: map<Id, nat>, failing: set<Key>,
                       s: State, log: seq<Key>, s': State)
    requires Between(blocks, kinds, counts, s, log) && s.queue != []
    requires Updates(blocks, PlanOf(blocks, kinds, counts).contexts, s.(queue := s.queue[1..]),
                     Execute(kinds, counts, failing, s.queue[0]), s')
    requires KeyOf(s.queue[0]) !in failing
    ensures Between(blocks, kinds, counts, s', log + [KeyOf(s.queue[0])])
  {
    var p := PlanOf(blocks, kinds, counts);
    var k := KeyOf(s.queue[0]);
    var sys := System(s, log, ToSet(log));
    ReachableKeeps(p, sys);
    assert s.queue[0] in s.queue;
    var taken := TakesHead(p, sys);
    ToSetGrows(log, k);
    ReportKeeps(blocks, kinds, counts, failing, taken, k, System(s', log + [k], ToSet(log + [k])));
  }

  /** A scheduler for the pipeline with its map contexts identified. */
  method StartScheduler(blocks: seq<Block>, kinds: Kinds, ghost counts: map<Id, nat>) returns (scheduler: Scheduler)
    requires Runnable(blocks, kinds) && MapIds(blocks, kinds) <= counts.Keys
    ensures fresh(scheduler) && scheduler.blocks == blocks
    ensures scheduler.contexts == PlanOf(blocks, kinds, counts).contexts
    ensures Between(blocks, kinds, counts, scheduler.Current(), [])
  {
    PlanIsSound(blocks, kinds, counts);
    scheduler := new Scheduler();
    var added := scheduler.AddPipeline(blocks);
    scheduler.IdentifyMapContexts(kinds);
    IdentifiedContexts(TypedGraph(scheduler.graph, ById(blocks), kinds), blocks, kinds, counts);
    ghost var first := System(AddBlocks(EMPTY, blocks), [], {});
    assert Run(PlanOf(blocks, kinds, counts), [first]) && [first][|[first]| - 1] == first;
    assert ToSet<Key>([]) == {};
  }

  /** What a run leaves behind: every invocation came after all invocations of
      its dependencies, and at most once where no maps clash.  A failure ends the
      run.  Otherwise whatever has no empty map above it has been executed, and
      nothing else; that is everything exactly when every map that feeds a block
      yielded at least one item.  Something ran twice if several maps fan out a
      block that can run and waits for one of them last. */
  ghost predicate Ran(blocks: seq<Block>, kinds: Kinds, counts: map<Id, nat>, failing: set<Key>,
                      log: seq<Key>, outcome: Outcome)
  {
    var p := PlanOf(blocks, kinds, counts);
    && AfterAllSiblings(p, log) && AtMostTwice(log) && (ClashFree(blocks, kinds, counts) ==> NoDuplicates(log))
    && (outcome == Broken ==>
          log != [] && log[|log| - 1] in failing && forall k :: k in log[..|log| - 1] ==> k !in failing)
    && (outcome == Done ==> forall k :: k in log <==> Final(p, k))
    && (outcome != Broken ==>
          && (forall k :: k in log ==> k !in failing)
          && (forall k :: k in log <==> Final(p, k) && p.CanRun(k.id))
          && (outcome == Done <==> UsedMapsYield(p))
          && (AlwaysRepeats(p) ==> !NoDuplicates(log)))
  }

  lemma RanToTheEnd(blocks: seq<Block>, kinds: Kinds, counts: map<Id, nat>, failing: set<Key>,
                    s: State, log: seq<Key>, outcome: Outcome)
    requires Between(blocks, kinds, counts, s, log) && s.queue == [] && forall k :: k in log ==> k !in failing
    requires outcome == if s.pending == map[] then Done else Stuck
    ensures Ran(blocks, kinds, counts, failing, log, outcome)
  {
    PlanIsValidIff(blocks, kinds, counts);
    QuietEnd(blocks, kinds, counts, s, log);
    var p := PlanOf(blocks, kinds, counts);
    if UsedMapsYield(p) {
      forall b ensures p.CanRun(b) { AllRunWhenMapsYield(p, b); }
    }
  }

  lemma RanAndFailed(blocks: seq<Block>, kinds: Kinds, counts: map<Id, nat>, failing: set<Key>, log: seq<Key>, k: Key)
    requires Runnable(blocks, kinds) && MapIds(blocks, kinds) <= counts.Keys
    requires InGoodOrder(PlanOf(blocks, kinds, counts), log + [k])
    requires k in failing && forall j :: j in log ==> j !in failing
    ensures Ran(blocks, kinds, counts, failing, log + [k], Broken)
  {
    PlanIsValidIff(blocks, kinds, counts);
    assert (log + [k])[..|log|] == log;
  }

  lemma RanUntilFailure(blocks: seq<Block>, kinds: Kinds, counts: map<Id, nat>, failing: set<Key>,
                        s: State, log: seq<Key>)
    requires Between(blocks, kinds, counts, s, log) && s.queue != [] && forall k :: k in log ==> k !in failing
    requires KeyOf(s.queue[0]) in failing
    ensures Ran(blocks, kinds, counts, failing, log + [KeyOf(s.queue[0])], Broken)
  {
    IterationSafe(blocks, kinds, counts, s, log);
    RanAndFailed(blocks, kinds, counts, failing, log, KeyOf(s.queue[0]));
  }

  /** Runs the pipeline to the end. */
  method RunPipeline(blocks: seq<Block>, kinds: Kinds, counts: map<Id, nat>, failing: set<Key>)
    returns (log: seq<Key>, outcome: Outcome)
    requires Runnable(blocks, kinds) && MapIds(blocks, kinds) <= counts.Keys
    ensures Ran(blocks, kinds, counts, failing, log, outcome)
  {
    ghost var p := PlanOf(blocks, kinds, counts);
    PlanIsSound(blocks, kinds, counts);
    var scheduler := StartScheduler(blocks, kinds, counts);
    log := [];
    while true
      invariant fresh(scheduler) && scheduler.blocks == blocks && scheduler.contexts == p.contexts
      invariant Between(blocks, kinds, counts, scheduler.Current(), log)
      invariant forall k :: k in log ==> k !in failing
      decreases 2 * |Universe(p)| - |log|
    {
      ghost var s := scheduler.Current();
      var next, done := scheduler.Next();
      if done || next.None? {
        outcome := if done then Done else Stuck;
        RanToTheEnd(blocks, kinds, counts, failing, s, log, outcome);
        return;
      }
      var invocation := next.value;
      var result := Execute(kinds, counts, failing, invocation);
      scheduler.Update(result);
      if result.Failed? {
        RanUntilFailure(blocks, kinds, counts, failing, s, log);
        return log + [KeyOf(invocation)], Broken;
      }
      IterationSafe(blocks, kinds, counts, s, log);
      IterationKeeps(blocks, kinds, counts, failing, s, log, scheduler.Current());
      log := log + [KeyOf(invocation)];
    }
  }
}
