// The engine's view of one pipeline (server/engine/engine.go): sweeps drain the
// queue, results come back in any order and may be delivered more than once.
module ConcurrentRuns {
  import opened Digraphs
  import opened Pipelines
  import opened DependencyGraphs
  import opened SchedulerState
  import opened SchedulerInvariant
  import opened SchedulerSteps

  // ---- Atomic steps -----------------------------------------------------------------

  ghost predicate Start(p: Plan, sys: System) {
    sys == System(AddBlocks(EMPTY, p.blocks), [], {})
  }

  /** The first n executable invocations are handed out; a sweep takes them all,
      the command line takes one. */
  ghost predicate Takes(sys: System, n: nat, sys': System) {
    n <= |sys.s.queue| &&
    sys' == System(sys.s.(queue := sys.s.queue[n..]), sys.taken + KeysOf(sys.s.queue[..n]), sys.reported)
  }

  /** The engine's duplicate test; results of mapped invocations are never
      recorded under their own key, so it only recognises unmapped ones. */
  predicate AlreadyProcessed(s: State, k: Key) {
    k.Base? && k.id in s.completed
  }

  /** The result of an invocation that has been handed out arrives. */
  ghost predicate Applies(p: Plan, sys: System, k: Key, sys': System)
    requires p.fan.Keys == p.contexts.Keys
  {
    && k in sys.taken
    && sys'.taken == sys.taken && sys'.reported == sys.reported + {k}
    && (if AlreadyProcessed(sys.s, k) then sys'.s == sys.s
        else Updates(p.blocks, p.contexts, sys.s, p.ResultOf(k), sys'.s))
  }

  ghost predicate Step(p: Plan, sys: System, sys': System)
    requires p.fan.Keys == p.contexts.Keys
  {
    (exists n :: Takes(sys, n, sys')) || (exists k :: Applies(p, sys, k, sys'))
  }

  ghost predicate StepAtIndex(p: Plan, run: seq<System>, i: nat)
    requires p.fan.Keys == p.contexts.Keys && i + 1 < |run|
  {
    Step(p, run[i], run[i + 1])
  }

  ghost predicate Run(p: Plan, run: seq<System>)
    requires p.fan.Keys == p.contexts.Keys
  {
    |run| > 0 && Start(p, run[0]) && forall i: nat :: i + 1 < |run| ==> StepAtIndex(p, run, i)
  }

  // ---- Single steps -----------------------------------------------------------------

  lemma TakeKeepsLaunched(sys: System, n: nat, sys': System)
    requires Takes(sys, n, sys')
    ensures sys'.Launched() == sys.Launched()
    ensures forall inv :: inv in sys'.s.queue ==> inv in sys.s.queue
  {
    KeysOfConcat(sys.s.queue[..n], sys.s.queue[n..]);
    assert sys.s.queue[..n] + sys.s.queue[n..] == sys.s.queue;
  }

  lemma SameLaunchedIsSafe(p: Plan, sys: System, sys': System)
    requires Safe(p, sys) && sys'.Launched() == sys.Launched() && sys'.reported == sys.reported
    requires sys'.s == sys.s.(queue := sys'.s.queue)
    requires forall inv :: inv in sys'.s.queue ==> inv in sys.s.queue
    requires forall k :: k in sys.taken ==> k in sys'.taken
    ensures Safe(p, sys')
  {
  }

  lemma TakePreserves(p: Plan, sys: System, n: nat, sys': System)
    requires Safe(p, sys) && Takes(sys, n, sys')
    ensures Safe(p, sys') && sys'.Launched() == sys.Launched()
    ensures Inv(p, sys) ==> Inv(p, sys')
  {
    TakeKeepsLaunched(sys, n, sys');
    SameLaunchedIsSafe(p, sys, sys');
  }

  /** A result that completes nothing changes nothing. */
  lemma IdleResult(p: Plan, sys: System, s': State)
    requires p.Sound() && Safe(p, sys) && Promotes(sys.s, s')
    ensures s' == sys.s
  {
    ReadyKeysAre(p, sys.s);
    assert ReadyKeys(sys.s) == {};
    PromotesIdle(sys.s, s');
  }

  lemma ReportedStays(p: Plan, sys: System, k: Key, sys': System)
    requires Safe(p, sys) && k in sys.taken && sys' == System(sys.s, sys.taken, sys.reported + {k})
    ensures Safe(p, sys') && sys'.Launched() == sys.Launched()
    ensures Inv(p, sys) && (k.id in sys.s.completed || !p.Effective(k.id)) ==> Inv(p, sys')
  {
    forall b | b in sys.s.completed ensures HasReported(sys'.reported, b) {
      var r :| r in sys.reported && r.id == b;
      assert r in sys'.reported;
    }
    assert sys'.Launched() == sys.Launched();
    if Inv(p, sys) && (k.id in sys.s.completed || !p.Effective(k.id)) {
      forall b | HasReported(sys'.reported, b) && p.Effective(b) ensures b in sys.s.completed {
        var r :| r in sys'.reported && r.id == b;
        assert r == k || HasReported(sys.reported, b);
      }
    }
  }

  /** A taken invocation of a map block is the block itself, not an indexed one. */
  lemma TakenMapIsBase(p: Plan, sys: System, k: Key)
    requires p.Sound() && Safe(p, sys) && k in sys.taken && k.id in p.contexts
    ensures k == Base(k.id)
  {
    assert k in sys.Launched() && p.Instance(k, sys.s.completed);
  }

  /** A result completes its block at most. */
  lemma AppliedCompletes(p: Plan, sys: System, k: Key, sys': System)
    requires p.Sound() && Safe(p, sys) && Applies(p, sys, k, sys') && !AlreadyProcessed(sys.s, k)
    ensures sys'.s.completed <= sys.s.completed + {k.id}
  {
    if k.id in p.contexts {
      TakenMapIsBase(p, sys, k);
      var n := p.fan[k.id];
      var mid :| HandlesMap(p.blocks, p.contexts, sys.s, k.id, n, mid) && Promotes(mid, sys'.s);
      PromotesSaturates(mid, sys'.s);
      if n > 0 {
        var ids: seq<Id> :| HandlesMapIn(p.blocks, p.contexts, sys.s, k.id, n, ids, mid);
        ExpandAllCompletes(sys.s.(completed := sys.s.completed + {k.id}), p.blocks, ids, n);
      }
    } else {
      PromotesSaturates(sys.s.(completed := sys.s.completed + {k.id}), sys'.s);
    }
  }

  lemma {:induction false} ExpandAllCompletes(s: State, blocks: seq<Block>, ids: seq<Id>, n: nat)
    ensures ExpandAll(s, blocks, ids, n).completed == s.completed
  {
    if ids != [] { ExpandAllCompletes(s, blocks, ids[..|ids| - 1], n); }
  }

  /** The first result of a map that yields items while one of its blocks holds
      invocations of another map and is ready. */
  ghost predicate ClashingResult(p: Plan, s: State, m: Id) {
    m in p.contexts && m in p.fan && p.fan[m] > 0 && m !in s.completed && ClashesNow(p, s, m)
  }

  lemma ApplyIsSafe(p: Plan, sys: System, k: Key, sys': System)
    requires p.Sound() && Safe(p, sys) && Applies(p, sys, k, sys')
    ensures Safe(p, sys') && (Repeats(sys) ==> Repeats(sys'))
    ensures Repeats(sys') ==> Repeats(sys) || ClashingResult(p, sys.s, k.id)
  {
    if AlreadyProcessed(sys.s, k) {
      ReportedStays(p, sys, k, sys');
    } else if k.id !in p.contexts {
      CompleteIsSafe(p, sys, k, sys');
    } else {
      TakenMapIsBase(p, sys, k);
      if p.fan[k.id] > 0 {
        MapIsSafe(p, sys, k.id, sys');
      } else {
        IdleResult(p, sys, sys'.s);
        ReportedStays(p, sys, k, sys');
      }
    }
  }

  lemma ApplyPreserves(p: Plan, sys: System, k: Key, sys': System)
    requires p.Sound() && Inv(p, sys) && Applies(p, sys, k, sys')
    ensures Inv(p, sys') && sys.Launched() <= sys'.Launched()
    ensures Repeats(sys') <==> Repeats(sys) || ClashingResult(p, sys.s, k.id)
  {
    if AlreadyProcessed(sys.s, k) {
      ReportedStays(p, sys, k, sys');
    } else if k.id !in p.contexts {
      CompletePreserves(p, sys, k, sys');
    } else {
      TakenMapIsBase(p, sys, k);
      if p.fan[k.id] > 0 {
        MapPreserves(p, sys, k.id, sys');
      } else {
        IdleResult(p, sys, sys'.s);
        ReportedStays(p, sys, k, sys');
      }
    }
  }

  lemma NoClashWhenApplied(p: Plan, sys: System, k: Key)
    requires p.Valid() && Safe(p, sys) && k in sys.taken
    ensures !ClashingResult(p, sys.s, k.id)
  {
    if ClashingResult(p, sys.s, k.id) {
      assert k in sys.Launched();
      ClashIsStatic(p, sys, k.id);
    }
  }

  lemma StepPreserves(p: Plan, sys: System, sys': System)
    requires p.Sound() && Inv(p, sys) && Step(p, sys, sys')
    ensures Inv(p, sys') && (Repeats(sys) ==> Repeats(sys'))
    ensures p.Valid() && !Repeats(sys) ==> !Repeats(sys')
  {
    if n :| Takes(sys, n, sys') {
      TakePreserves(p, sys, n, sys');
    } else {
      var k :| Applies(p, sys, k, sys');
      ApplyPreserves(p, sys, k, sys');
      if p.Valid() { NoClashWhenApplied(p, sys, k); }
    }
  }

  // ---- Every state of every run keeps the invariant ---------------------------------

  /** Over every interleaving of sweeps, results and redelivered results. */
  lemma {:induction false} EveryStateKeepsInv(p: Plan, run: seq<System>, i: nat)
    requires p.Sound() && Run(p, run) && i < |run|
    ensures Inv(p, run[i])
  {
    if i == 0 {
      InitialInv(p);
    } else {
      EveryStateKeepsInv(p, run, i - 1);
      assert StepAtIndex(p, run, i - 1);
      StepPreserves(p, run[i - 1], run[i]);
    }
  }

  lemma StepKeepsOnce(p: Plan, run: seq<System>, i: nat)
    requires p.Valid() && Run(p, run) && i + 1 < |run| && !Repeats(run[i])
    ensures !Repeats(run[i + 1])
  {
    EveryStateKeepsInv(p, run, i);
    assert StepAtIndex(p, run, i);
    StepPreserves(p, run[i], run[i + 1]);
  }

  /** Without a clash, nothing is launched twice. */
  lemma {:induction false} LaunchedAtMostOnce(p: Plan, run: seq<System>, i: nat)
    requires p.Valid() && Run(p, run) && i < |run|
    ensures !Repeats(run[i])
  {
    if i == 0 {
      InitialInv(p);
    } else {
      LaunchedAtMostOnce(p, run, i - 1);
      StepKeepsOnce(p, run, i - 1);
    }
  }

  /** A state some run arrives at. */
  ghost predicate Reachable(p: Plan, sys: System)
    requires p.fan.Keys == p.contexts.Keys
  {
    exists run: seq<System> :: Run(p, run) && run[|run| - 1] == sys
  }

  lemma RunExtends(p: Plan, run: seq<System>, sys: System)
    requires p.fan.Keys == p.contexts.Keys && Run(p, run) && Step(p, run[|run| - 1], sys)
    ensures Run(p, run + [sys])
  {
    var run' := run + [sys];
    forall i: nat | i + 1 < |run'| ensures StepAtIndex(p, run', i) {
      if i + 1 < |run| { assert StepAtIndex(p, run, i); }
    }
  }

  lemma ReachableStep(p: Plan, sys: System, sys': System)
    requires p.fan.Keys == p.contexts.Keys && Reachable(p, sys) && Step(p, sys, sys')
    ensures Reachable(p, sys')
  {
    var run: seq<System> :| Run(p, run) && run[|run| - 1] == sys;
    RunExtends(p, run, sys');
    assert (run + [sys'])[|run + [sys']| - 1] == sys';
  }

  lemma ReachableKeeps(p: Plan, sys: System)
    requires p.Sound() && Reachable(p, sys)
    ensures Inv(p, sys)
  {
    var run: seq<System> :| Run(p, run) && run[|run| - 1] == sys;
    EveryStateKeepsInv(p, run, |run| - 1);
  }

  lemma ReachableOnce(p: Plan, sys: System)
    requires p.Valid() && Reachable(p, sys)
    ensures !Repeats(sys)
  {
    var run: seq<System> :| Run(p, run) && run[|run| - 1] == sys;
    LaunchedAtMostOnce(p, run, |run| - 1);
  }

  // ---- Safety ---------------------------------------------------------------------------

  /** Each invocation of the plan is pending, or has been launched: at most
      twice, and without a clash executable once or handed out once. */
  lemma OnePlacePerInvocation(p: Plan, run: seq<System>, i: nat, k: Key)
    requires p.Sound() && Run(p, run) && i < |run|
    ensures var sys := run[i];
            var executable := KeysOf(sys.s.queue);
            && (p.Instance(k, sys.s.completed) <==> k in sys.s.pending || k in executable || k in sys.taken)
            && !(k in sys.s.pending && k in executable)
            && !(k in sys.s.pending && k in sys.taken)
            && multiset(sys.taken)[k] + multiset(executable)[k] <= (if k.Base? then 1 else 2)
            && (p.Valid() ==>
                  NoDuplicates(executable) && NoDuplicates(sys.taken) && !(k in executable && k in sys.taken))
  {
    EveryStateKeepsInv(p, run, i);
    var sys := run[i];
    assert multiset(sys.Launched()) == multiset(sys.taken) + multiset(KeysOf(sys.s.queue));
    if p.Valid() {
      LaunchedAtMostOnce(p, run, i);
      NoDuplicatesParts(sys.taken, KeysOf(sys.s.queue));
    }
  }

  /** Whatever a sweep hands out, all its dependencies have reported by then. */
  lemma HandedOutAfterDependencies(p: Plan, run: seq<System>, i: nat, n: nat, k: Key, d: Id)
    requires p.Sound() && Run(p, run) && i + 1 < |run|
    requires Takes(run[i], n, run[i + 1]) && k in run[i + 1].taken && p.DependsOn(k.id, d)
    ensures HasReported(run[i].reported, d)
  {
    EveryStateKeepsInv(p, run, i);
    TakePreserves(p, run[i], n, run[i + 1]);
    assert k in run[i + 1].Launched();
    assert d in run[i].s.completed;
  }

  /** A redelivered result changes nothing, whether the engine recognises the
      duplicate (an unmapped invocation) or applies it again (a mapped one). */
  lemma DuplicateResultIgnored(p: Plan, run: seq<System>, i: nat, k: Key)
    requires p.Sound() && Run(p, run) && i + 1 < |run|
    requires k in run[i].reported && Applies(p, run[i], k, run[i + 1])
    ensures run[i + 1] == run[i]
  {
    EveryStateKeepsInv(p, run, i);
    DuplicateStep(p, run[i], k, run[i + 1]);
  }

  lemma DuplicateStep(p: Plan, sys: System, k: Key, sys': System)
    requires p.Sound() && Inv(p, sys) && k in sys.reported && Applies(p, sys, k, sys')
    ensures sys' == sys
  {
    assert sys'.reported == sys.reported;
    if !AlreadyProcessed(sys.s, k) {
      if k.id in p.contexts {
        DuplicateMapResult(p, sys, k);
      } else {
        DuplicateCompletion(p, sys, k);
      }
      IdleResult(p, sys, sys'.s);
    }
  }

  lemma DuplicateCompletion(p: Plan, sys: System, k: Key)
    requires Inv(p, sys) && k in sys.reported && k.id !in p.contexts
    ensures sys.s.(completed := sys.s.completed + {k.id}) == sys.s
  {
    assert HasReported(sys.reported, k.id);
    assert sys.s.completed + {k.id} == sys.s.completed;
  }

  /** A map result that comes again is one that yielded nothing. */
  lemma DuplicateMapResult(p: Plan, sys: System, k: Key)
    requires p.Sound() && Inv(p, sys) && k in sys.reported && !AlreadyProcessed(sys.s, k) && k.id in p.contexts
    ensures k == Base(k.id) && k.id in p.fan && p.fan[k.id] == 0
  {
    assert HasReported(sys.reported, k.id);
    TakenMapIsBase(p, sys, k);
  }

  // ---- No stall ----------------------------------------------------------------------------

  ghost predicate Settled(sys: System) {
    sys.s.queue == [] && forall k :: k in sys.taken ==> HasReported(sys.reported, k.id)
  }

  /** Nothing is executable and everything handed out has been answered. */
  ghost predicate AllAnswered(sys: System) {
    sys.s.queue == [] && forall k :: k in sys.taken ==> k in sys.reported
  }

  ghost predicate UsedMapsYield(p: Plan) {
    forall m, b :: m in p.contexts && p.DependsOn(b, m) ==> m in p.fan && p.fan[m] > 0
  }

  /** Every block has an invocation in the plan, whatever has completed. */
  lemma BlockHasInstance(p: Plan, sys: System, b: Id) returns (k: Key)
    requires p.Sound() && Safe(p, sys) && b in Ids(p.blocks)
    ensures k.id == b && p.Instance(k, sys.s.completed)
  {
    if p.Expanded(b, sys.s.completed) {
      var m :| p.Under(m, b) && m in sys.s.completed;
      assert p.Effective(m);
      k := Mapped(b, 0);
    } else {
      k := Base(b);
    }
  }

  ghost function WaitingIn(sys: System, blocks: set<Id>): set<Id> {
    set k | k in sys.s.pending && k.id in blocks :: k.id
  }

  /** The blocks contain their own dependencies, none of which is an empty map
      or still unanswered. */
  ghost predicate Answered(p: Plan, sys: System, blocks: set<Id>) {
    forall b, d :: b in blocks && p.DependsOn(b, d) ==>
      d in blocks && p.Effective(d) && (HasLaunched(sys, d) ==> HasReported(sys.reported, d))
  }

  /** A block that neither waits nor is unanswered has completed. */
  lemma AnsweredCompletes(p: Plan, sys: System, d: Id)
    requires p.Sound() && Inv(p, sys) && d in Ids(p.blocks) && p.Effective(d)
    requires forall k :: k in sys.s.pending ==> k.id != d
    requires HasLaunched(sys, d) ==> HasReported(sys.reported, d)
    ensures d in sys.s.completed
  {
    var j := BlockHasInstance(p, sys, d);
    assert j in sys.Launched();
  }

  lemma WaitsOnOther(p: Plan, sys: System, blocks: set<Id>) returns (b: Id, d: Id)
    requires p.Sound() && Inv(p, sys) && WaitingIn(sys, blocks) != {}
    ensures b in blocks && p.DependsOn(b, d) && d in Ids(p.blocks) && d !in sys.s.completed
    ensures d in blocks ==> forall k :: k in sys.s.pending ==> k.id != d
  {
    b := MinimalElement(EdgesOf(p.blocks), WaitingIn(sys, blocks));
    var k :| k in sys.s.pending && k.id == b;
    d :| p.DependsOn(b, d) && d !in sys.s.completed;
    DependencyKnown(p, b, d);
  }

  /** With nothing executable, such blocks have all been handed out. */
  lemma NoneWaits(p: Plan, sys: System, blocks: set<Id>)
    requires p.Sound() && Inv(p, sys) && sys.s.queue == [] && Answered(p, sys, blocks)
    ensures forall k :: k in sys.s.pending ==> k.id !in blocks
  {
    if WaitingIn(sys, blocks) != {} {
      var b, d := WaitsOnOther(p, sys, blocks);
      AnsweredCompletes(p, sys, d);
    }
    assert forall k :: k in sys.s.pending && k.id in blocks ==> k.id in WaitingIn(sys, blocks);
  }

  /** With nothing executable and every block handed out reported at least
      once, the run is over exactly when all maps that feed something yielded
      items; otherwise it is stuck. */
  lemma FinishedIffMapsYield(p: Plan, sys: System)
    requires p.Sound() && Inv(p, sys) && Settled(sys)
    ensures sys.s.pending == map[] <==> UsedMapsYield(p)
  {
    assert KeysOf(sys.s.queue) == [] && sys.Launched() == sys.taken;
    if sys.s.pending == map[] {
      forall m, b | m in p.contexts && p.DependsOn(b, m) ensures p.fan[m] > 0 {
        DependencyKnown(p, b, m);
        var k := BlockHasInstance(p, sys, b);
        assert k in sys.Launched();
        assert m in sys.s.completed;
      }
    }
    if UsedMapsYield(p) {
      forall b, d | p.DependsOn(b, d) ensures d in Ids(p.blocks) { DependencyKnown(p, b, d); }
      NoneWaits(p, sys, Ids(p.blocks));
      assert forall k :: k !in sys.s.pending;
    }
  }

  /** No stall: when everything handed out has been answered, nothing is left
      waiting -- if and only if no map that feeds a block came back empty. */
  lemma NoStall(p: Plan, run: seq<System>, i: nat)
    requires p.Sound() && Run(p, run) && i < |run|
    requires AllAnswered(run[i])
    ensures run[i].s.pending == map[] <==> UsedMapsYield(p)
  {
    EveryStateKeepsInv(p, run, i);
    FinishedIffMapsYield(p, run[i]);
  }
}
