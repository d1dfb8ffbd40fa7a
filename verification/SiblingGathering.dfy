// The documentation has a reduce wait for all N mapped invocations
// (spec/scheduler.md).  The engine tests readiness on block ids, so one
// finished sibling is enough (core/scheduler.go): this module says exactly when
// the promise is kept for every order of results.
module SiblingGathering {
  import opened Digraphs
  import opened Pipelines
  import opened DependencyGraphs
  import opened SchedulerState
  import opened SchedulerInvariant
  import opened SchedulerSteps
  import opened ConcurrentRuns
  import opened WithheldRuns
  import opened PipelinePlans
  import opened ExamplePipelines
  import opened ExampleInputs

  /** All invocations of every dependency of whatever was handed out have reported. */
  ghost predicate GathersSiblings(p: Plan, sys: System) {
    forall k, d, j ::
      k in sys.taken && p.DependsOn(k.id, d) && p.Instance(j, sys.s.completed) && j.id == d ==> j in sys.reported
  }

  /** No block that feeds one that can run is fanned out more than once. */
  ghost predicate SingleFanIn(p: Plan) {
    forall m, d, b :: p.Under(m, d) && p.DependsOn(b, d) && p.CanRun(b) ==> m in p.fan && p.fan[m] <= 1
  }

  lemma MappedIffExpanded(p: Plan, completed: set<Id>, k: Key)
    requires p.Instance(k, completed)
    ensures k.Mapped? <==> p.Expanded(k.id, completed)
  {
  }

  lemma OnlyInstance(p: Plan, completed: set<Id>, j: Key, r: Key)
    requires p.Instance(j, completed) && p.Instance(r, completed) && j.id == r.id
    requires forall m :: p.Under(m, j.id) ==> m in p.fan && p.fan[m] <= 1
    ensures j == r
  {
    MappedIffExpanded(p, completed, j);
    MappedIffExpanded(p, completed, r);
  }

  lemma SingleFanInGathers(p: Plan, sys: System)
    requires p.Sound() && Safe(p, sys) && SingleFanIn(p)
    ensures GathersSiblings(p, sys)
  {
    forall k, d, j | k in sys.taken && p.DependsOn(k.id, d) && p.Instance(j, sys.s.completed) && j.id == d
      ensures j in sys.reported
    {
      assert k in sys.Launched() && d in sys.s.completed;
      LaunchedCanRun(p, sys, k.id);
      var r :| r in sys.reported && r.id == d;
      assert r in sys.Launched();
      OnlyInstance(p, sys.s.completed, j, r);
    }
  }

  // ---- A run that withholds one sibling's result ---------------------------------------

  ghost function Ancestry(p: Plan, b: Id): set<Id> {
    set x | x in Ids(p.blocks) && (x == b || Reaches(EdgesOf(p.blocks), x, b))
  }

  /** With all of them answered by one invocation at least, everything b needs
      is settled. */
  lemma AncestryAnswered(p: Plan, sys: System, b: Id)
    requires p.Sound() && Inv(p, sys) && p.CanRun(b) && b in Ids(p.blocks) && sys.s.queue == []
    requires forall y :: HasLaunched(sys, y) && Reaches(EdgesOf(p.blocks), y, b) ==> HasReported(sys.reported, y)
    ensures Answered(p, sys, Ancestry(p, b))
  {
    var e := EdgesOf(p.blocks);
    forall x, y | x in Ancestry(p, b) && p.DependsOn(x, y)
      ensures y in Ancestry(p, b) && p.Effective(y) && (HasLaunched(sys, y) ==> HasReported(sys.reported, y))
    {
      DependencyKnown(p, x, y);
      if x == b { EdgeReaches(e, y, b); } else { EdgeThenReaches(e, y, x, b); }
    }
  }

  /** Then b itself has been launched. */
  lemma AncestryLaunches(p: Plan, sys: System, b: Id)
    requires p.Sound() && Inv(p, sys) && p.CanRun(b) && b in Ids(p.blocks) && sys.s.queue == []
    requires forall y :: HasLaunched(sys, y) && Reaches(EdgesOf(p.blocks), y, b) ==> HasReported(sys.reported, y)
    ensures HasLaunched(sys, b)
  {
    AncestryAnswered(p, sys, b);
    NoneWaits(p, sys, Ancestry(p, b));
    assert b in Ancestry(p, b);
    var k := BlockHasInstance(p, sys, b);
    assert k in sys.Launched();
  }

  /** A block that can run is launched by the time everything handed out has
      been answered. */
  lemma AnsweredIsLaunched(p: Plan, sys: System, b: Id)
    requires p.Sound() && Inv(p, sys) && b in Ids(p.blocks) && p.CanRun(b) && AllAnswered(sys)
    ensures HasLaunched(sys, b)
  {
    assert KeysOf(sys.s.queue) == [] && sys.Launched() == sys.taken;
    AncestryLaunches(p, sys, b);
  }

  lemma FirstSiblingLaunched(p: Plan, sys: System, k: Key)
    requires Inv(p, sys) && k.Mapped? && k in sys.Launched()
    ensures Mapped(k.id, 0) in sys.Launched()
  {
    FirstSibling(p, sys.s.completed, k);
  }

  lemma SiblingReports(p: Plan, sys: System, y: Id, d: Id)
    requires p.Sound() && Inv(p, sys) && HasLaunched(sys, y) && Exhausted(sys, iset{Mapped(d, 1)})
    ensures HasReported(sys.reported, y)
  {
    assert KeysOf(sys.s.queue) == [] && sys.Launched() == sys.taken;
    var k :| k in sys.Launched() && k.id == y;
    if k == Mapped(d, 1) {
      FirstSiblingLaunched(p, sys, k);
      assert Mapped(d, 0) in sys.reported;
    } else {
      assert k in sys.reported;
    }
  }

  /** Two siblings and a dependent that can run suffice for a run that starts
      the dependent while a sibling is still out. */
  lemma FanInRunsEarly(p: Plan, m: Id, d: Id, b: Id) returns (run: seq<System>)
    requires p.Sound() && p.CanRun(b)
    requires p.Under(m, d) && p.DependsOn(b, d) && p.fan[m] > 1
    ensures Run(p, run)
    ensures var sys := run[|run| - 1];
            && HasReported(ToSet(sys.taken), b)
            && ((forall m' :: !p.Under(m', b)) ==> Base(b) in sys.taken)
            && p.Instance(Mapped(d, 1), sys.s.completed) && Mapped(d, 1) !in sys.reported
  {
    DependencyKnown(p, b, d);
    run := RunAllBut(p, iset{Mapped(d, 1)});
    var sys := run[|run| - 1];
    forall y | HasLaunched(sys, y) ensures HasReported(sys.reported, y) { SiblingReports(p, sys, y, d); }
    AncestryLaunches(p, sys, b);
    assert KeysOf(sys.s.queue) == [] && sys.Launched() == sys.taken;
    var k :| k in sys.Launched() && k.id == b;
    assert k in ToSet(sys.taken);
    LaunchedCanRun(p, sys, b);
    ContextIsBelow(p, m);
    ReachesThenEdge(EdgesOf(p.blocks), m, d, b);
    MappedIffExpanded(p, sys.s.completed, k);
  }

  ghost predicate AlwaysGathers(p: Plan)
    requires p.fan.Keys == p.contexts.Keys
  {
    forall run: seq<System> :: Run(p, run) ==> GathersSiblings(p, run[|run| - 1])
  }

  lemma SafeAt(p: Plan, run: seq<System>, i: nat)
    requires p.Sound() && Run(p, run) && i < |run|
    ensures Safe(p, run[i])
  {
    EveryStateKeepsInv(p, run, i);
  }

  lemma RunGathers(p: Plan, run: seq<System>)
    requires p.Sound() && Run(p, run) && SingleFanIn(p)
    ensures GathersSiblings(p, run[|run| - 1])
  {
    SafeAt(p, run, |run| - 1);
    SingleFanInGathers(p, run[|run| - 1]);
  }

  /** Under every order of results each block waits for all siblings of its
      dependencies, exactly when no block that feeds one that can run is fanned
      out to two or more invocations. */
  lemma GathersIffSingleFanIn(p: Plan)
    requires p.Sound()
    ensures AlwaysGathers(p) <==> SingleFanIn(p)
  {
    if SingleFanIn(p) {
      forall run: seq<System> | Run(p, run) ensures GathersSiblings(p, run[|run| - 1]) {
        RunGathers(p, run);
      }
    } else {
      var m, d, b :| p.Under(m, d) && p.DependsOn(b, d) && p.CanRun(b) && !(m in p.fan && p.fan[m] <= 1);
      var run := FanInRunsEarly(p, m, d, b);
      var k :| k in ToSet(run[|run| - 1].taken) && k.id == b;
      assert !GathersSiblings(p, run[|run| - 1]);
    }
  }

  // ---- The failing case, concretely -----------------------------------------------------

  lemma AllCanRun(p: Plan, b: Id)
    requires p.fan.Keys == p.contexts.Keys && forall m :: m in p.fan ==> p.fan[m] > 0
    ensures p.CanRun(b)
  {
  }

  lemma StartsEarly(p: Plan, m: Id, d: Id, b: Id) returns (run: seq<System>)
    requires p.Sound() && (forall x :: x in p.fan ==> p.fan[x] > 1) && p.Under(m, d) && p.DependsOn(b, d)
    requires forall x :: x in p.contexts ==> b !in p.contexts[x]
    ensures Run(p, run)
    ensures var sys := run[|run| - 1];
            && Base(b) in sys.taken && Mapped(d, 1) !in sys.reported && p.Instance(Mapped(d, 1), sys.s.completed)
  {
    AllCanRun(p, b);
    run := FanInRunsEarly(p, m, d, b);
  }

  lemma ThirdStartsEarly(p: Plan) returns (run: seq<System>)
    requires p.Sound() && p.contexts.Keys == {1} && p.contexts[1] == {2} && p.fan[1] > 1 && p.DependsOn(3, 2)
    ensures Run(p, run)
    ensures var sys := run[|run| - 1];
            && Base(3) in sys.taken && Mapped(2, 1) !in sys.reported && p.Instance(Mapped(2, 1), sys.s.completed)
  {
    run := StartsEarly(p, 1, 2, 3);
  }

  lemma MapReduceStartsEarly() returns (run: seq<System>)
    ensures var p := PlanOf(MAP_REDUCE, KINDS, map[1 := 2]);
            && p.fan.Keys == p.contexts.Keys && Run(p, run) && p.DependsOn(3, 2)
            && var sys := run[|run| - 1];
               Base(3) in sys.taken && Mapped(2, 1) !in sys.reported && p.Instance(Mapped(2, 1), sys.s.completed)
  {
    MapReducePlan(map[1 := 2]);
    run := ThirdStartsEarly(PlanOf(MAP_REDUCE, KINDS, map[1 := 2]));
  }

  /** With two items, the reduce of the smallest map-reduce pipeline can be
      started while the second mapped invocation runs. */
  lemma ReduceStartsEarly() returns (run: seq<System>)
    ensures Validated(MAP_REDUCE, KINDS, TYPES)
    ensures var p := PlanOf(MAP_REDUCE, KINDS, map[1 := 2]);
            && p.fan.Keys == p.contexts.Keys && Run(p, run) && p.DependsOn(3, 2)
            && var sys := run[|run| - 1];
               Base(3) in sys.taken && Mapped(2, 1) !in sys.reported && p.Instance(Mapped(2, 1), sys.s.completed)
  {
    run := MapReduceStartsEarly();
    MapReduceIsValidated();
  }
}
