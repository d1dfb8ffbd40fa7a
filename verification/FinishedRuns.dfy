// What has been executed when a run comes to rest, finished or stuck.
module FinishedRuns {
  import opened Digraphs
  import opened Pipelines
  import opened DependencyGraphs
  import opened SchedulerState
  import opened SchedulerInvariant
  import opened SchedulerSteps
  import opened ConcurrentRuns
  import opened SiblingGathering

  /** The invocations of a finished run: mapped blocks once per item, all
      others once. */
  ghost predicate Final(p: Plan, k: Key) {
    p.Instance(k, p.contexts.Keys)
  }

  /** Once all maps above a block have completed, its invocations are the final ones. */
  lemma InstanceWhenMapsDone(p: Plan, completed: set<Id>, k: Key)
    requires forall m :: p.Under(m, k.id) ==> m in completed
    ensures p.Instance(k, completed) <==> Final(p, k)
  {
    if k.Mapped? && Final(p, k) {
      var m :| p.Under(m, k.id) && m in p.contexts.Keys && m in p.fan && k.index < p.fan[m];
      assert m in completed;
    }
    if k.Mapped? && p.Instance(k, completed) {
      var m :| p.Under(m, k.id) && m in completed && m in p.fan && k.index < p.fan[m];
      assert m in p.contexts.Keys;
    }
    if k.Base? && p.Expanded(k.id, completed) {
      var m :| p.Under(m, k.id) && m in completed;
      assert m in p.contexts.Keys;
    }
    if k.Base? && p.Expanded(k.id, p.contexts.Keys) {
      var m :| p.Under(m, k.id) && m in p.contexts.Keys;
      assert m in completed;
    }
  }

  /** What has been launched is final: the maps above it have completed. */
  lemma LaunchedIsFinal(p: Plan, sys: System, k: Key)
    requires p.Sound() && Safe(p, sys) && HasLaunched(sys, k.id)
    ensures p.CanRun(k.id) && (p.Instance(k, sys.s.completed) <==> Final(p, k))
  {
    LaunchedCanRun(p, sys, k.id);
    forall m | p.Under(m, k.id) ensures m in sys.s.completed { ContextIsBelow(p, m); }
    InstanceWhenMapsDone(p, sys.s.completed, k);
  }

  /** The invocations of a block are launched together. */
  lemma SiblingsLaunched(p: Plan, sys: System, k: Key)
    requires Inv(p, sys) && p.Instance(k, sys.s.completed) && HasLaunched(sys, k.id)
    ensures k in sys.Launched()
  {
  }

  lemma FinalIsKnown(p: Plan, k: Key)
    requires p.Sound() && Final(p, k)
    ensures k.id in Ids(p.blocks)
  {
  }

  /** When everything handed out has been answered, whatever has no empty map
      above it has been executed, completely, and nothing else has. */
  lemma WhatHasRun(p: Plan, sys: System, k: Key)
    requires p.Sound() && Inv(p, sys) && AllAnswered(sys)
    ensures k in sys.taken <==> Final(p, k) && p.CanRun(k.id)
  {
    assert KeysOf(sys.s.queue) == [] && sys.Launched() == sys.taken;
    if k in sys.taken {
      assert k in sys.Launched();
      LaunchedIsFinal(p, sys, k);
    }
    if Final(p, k) && p.CanRun(k.id) {
      FinalIsKnown(p, k);
      AnsweredIsLaunched(p, sys, k.id);
      LaunchedIsFinal(p, sys, k);
      SiblingsLaunched(p, sys, k);
    }
  }

  /** So it is in every run, whatever the interleaving of sweeps and results. */
  lemma EveryRunExecutes(p: Plan, run: seq<System>, i: nat, k: Key)
    requires p.Sound() && Run(p, run) && i < |run| && AllAnswered(run[i])
    ensures k in run[i].taken <==> Final(p, k) && p.CanRun(k.id)
  {
    EveryStateKeepsInv(p, run, i);
    WhatHasRun(p, run[i], k);
  }

  /** Where all maps that feed a block yield items, every block can run. */
  lemma AllRunWhenMapsYield(p: Plan, b: Id)
    requires p.Sound() && UsedMapsYield(p)
    ensures p.CanRun(b)
  {
    forall m | m in p.contexts && Reaches(EdgesOf(p.blocks), m, b) ensures p.fan[m] > 0 {
      var v := FirstStep(EdgesOf(p.blocks), m, b);
      assert p.DependsOn(v, m);
    }
  }
}
