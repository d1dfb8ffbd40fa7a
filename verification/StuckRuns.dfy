// A map that yields nothing stalls the pipeline (core/scheduler.go, HandleMap),
// shown on a document validation accepts.
module StuckRuns {
  import opened Digraphs
  import opened Pipelines
  import opened DependencyGraphs
  import opened SchedulerState
  import opened SchedulerInvariant
  import opened SchedulerSteps
  import opened ConcurrentRuns
  import opened WithheldRuns
  import opened PipelinePlans
  import opened ExamplePipelines
  import opened ExampleInputs

  /** Every plan has a run in which everything handed out has been answered. */
  lemma AnsweredRun(p: Plan) returns (run: seq<System>)
    requires p.Sound()
    ensures Run(p, run)
    ensures var sys := run[|run| - 1]; sys.s.queue == [] && forall k :: k in sys.taken ==> k in sys.reported
  {
    run := RunAllBut(p, iset{});
  }

  lemma EmptyMapStallsPlan(p: Plan, m: Id, b: Id) returns (run: seq<System>)
    requires p.Sound() && m in p.contexts && p.DependsOn(b, m) && p.fan[m] == 0
    ensures Run(p, run)
    ensures var sys := run[|run| - 1];
            sys.s.queue == [] && (forall k :: k in sys.taken ==> k in sys.reported) && sys.s.pending != map[]
  {
    run := AnsweredRun(p);
    NoStall(p, run, |run| - 1);
  }

  lemma SecondWaits(p: Plan) returns (run: seq<System>)
    requires p.Sound() && p.contexts.Keys == {1} && p.fan == map[1 := 0] &&
             p.DependsOn(2, 1)
    ensures Run(p, run)
    ensures var sys := run[|run| - 1];
            sys.s.queue == [] && (forall k :: k in sys.taken ==> k in sys.reported) && sys.s.pending != map[]
  {
    run := EmptyMapStallsPlan(p, 1, 2);
  }

  lemma MapReduceStalls() returns (run: seq<System>)
    ensures var p := PlanOf(MAP_REDUCE, KINDS, map[1 := 0]);
            && p.fan.Keys == p.contexts.Keys && Run(p, run)
            && var sys := run[|run| - 1];
               sys.s.queue == [] && (forall k :: k in sys.taken ==> k in sys.reported) && sys.s.pending != map[]
  {
    MapReducePlan(map[1 := 0]);
    run := SecondWaits(PlanOf(MAP_REDUCE, KINDS, map[1 := 0]));
  }

  /** With no items, the mapped block waits for ever. */
  lemma EmptyMapStalls() returns (run: seq<System>)
    ensures Validated(MAP_REDUCE, KINDS, TYPES)
    ensures var p := PlanOf(MAP_REDUCE, KINDS, map[1 := 0]);
            && p.fan.Keys == p.contexts.Keys && Run(p, run)
            && var sys := run[|run| - 1];
               sys.s.queue == [] && (forall k :: k in sys.taken ==> k in sys.reported) && sys.s.pending != map[]
  {
    run := MapReduceStalls();
    MapReduceIsValidated();
  }
}
