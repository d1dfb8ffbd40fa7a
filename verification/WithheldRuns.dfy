// How long runs can be; and the run that keeps sweeping and delivering results,
// all but some.
module WithheldRuns {
  import opened Digraphs
  import opened Pipelines
  import opened DependencyGraphs
  import opened SchedulerState
  import opened SchedulerInvariant
  import opened SchedulerSteps
  import opened ConcurrentRuns

  ghost function Universe(p: Plan): set<Key>
    requires p.fan.Keys == p.contexts.Keys
  {
    (set b | b in Ids(p.blocks) :: Base(b)) +
    (set m, b, i: nat | m in p.contexts && b in p.contexts[m] && i < p.fan[m] :: Mapped(b, i))
  }

  lemma InstanceInUniverse(p: Plan, completed: set<Id>, k: Key)
    requires p.Sound() && p.Instance(k, completed)
    ensures k in Universe(p)
  {
    if k.Mapped? {
      var m :| p.Under(m, k.id) && m in completed && m in p.fan && k.index < p.fan[m];
    }
  }

  /** Only finitely many invocations can ever be launched, each at most twice. */
  lemma TakenInUniverse(p: Plan, sys: System)
    requires p.Sound() && Safe(p, sys)
    ensures forall k :: k in sys.Launched() ==> k in Universe(p)
    ensures |sys.Launched()| <= 2 * |Universe(p)| && |sys.reported| <= |Universe(p)|
    ensures !Repeats(sys) ==> |sys.Launched()| <= |Universe(p)|
  {
    var universe := Universe(p);
    forall k | k in sys.Launched() ensures k in universe {
      InstanceInUniverse(p, sys.s.completed, k);
    }
    BoundedCard(multiset(sys.Launched()), universe);
    if !Repeats(sys) { NoDuplicatesCard(sys.Launched(), universe); }
    forall k | k in sys.reported ensures k in universe { assert k in sys.Launched(); }
    SubsetCard(sys.reported, universe);
  }

  // ---- Every run ends --------------------------------------------------------------------

  /** A sweep that hands something out, or a result that is new. */
  ghost predicate Progress(p: Plan, sys: System, sys': System)
    requires p.fan.Keys == p.contexts.Keys
  {
    (exists n :: n > 0 && Takes(sys, n, sys')) || (exists k :: k !in sys.reported && Applies(p, sys, k, sys'))
  }

  ghost predicate ProgressAt(p: Plan, run: seq<System>, i: nat)
    requires p.fan.Keys == p.contexts.Keys && i + 1 < |run|
  {
    Progress(p, run[i], run[i + 1])
  }

  lemma {:induction false} StepsAreCounted(p: Plan, run: seq<System>, i: nat)
    requires p.fan.Keys == p.contexts.Keys && Run(p, run) && i < |run|
    requires forall j: nat :: j + 1 < |run| ==> ProgressAt(p, run, j)
    ensures i <= |run[i].taken| + |run[i].reported|
  {
    if i > 0 {
      StepsAreCounted(p, run, i - 1);
      assert ProgressAt(p, run, i - 1);
    }
  }

  /** However sweeps and results interleave, only so many of them can get
      anything done; a run without empty sweeps and redelivered results is no
      longer than that. */
  lemma EveryRunEnds(p: Plan, run: seq<System>)
    requires p.Sound() && Run(p, run)
    requires forall i: nat :: i + 1 < |run| ==> ProgressAt(p, run, i)
    ensures |run| - 1 <= 3 * |Universe(p)|
    ensures p.Valid() ==> |run| - 1 <= 2 * |Universe(p)|
  {
    var last := |run| - 1;
    StepsAreCounted(p, run, last);
    EveryStateKeepsInv(p, run, last);
    TakenInUniverse(p, run[last]);
    if p.Valid() { LaunchedAtMostOnce(p, run, last); }
  }

  /** Where no such step is left, everything handed out has been answered. */
  lemma NoProgressIffAnswered(p: Plan, sys: System)
    requires p.Sound() && Safe(p, sys)
    ensures (forall sys' :: !Progress(p, sys, sys')) <==>
            sys.s.queue == [] && forall k :: k in sys.taken ==> k in sys.reported
  {
    if sys.s.queue != [] {
      var next := SweepAll(sys);
      assert Progress(p, sys, next);
    } else if k :| k in sys.taken && k !in sys.reported {
      var next := DeliverOne(p, sys, k);
      assert Progress(p, sys, next);
    }
  }

  lemma SweepAll(sys: System) returns (next: System)
    requires sys.s.queue != []
    ensures Takes(sys, |sys.s.queue|, next) && next.reported == sys.reported && |next.taken| > |sys.taken|
  {
    var n := |sys.s.queue|;
    next := System(sys.s.(queue := sys.s.queue[n..]), sys.taken + KeysOf(sys.s.queue[..n]), sys.reported);
  }

  lemma DeliverOne(p: Plan, sys: System, k: Key) returns (next: System)
    requires p.fan.Keys == p.contexts.Keys && k in sys.taken && k !in sys.reported
    ensures Applies(p, sys, k, next)
  {
    var s' := sys.s;
    if !AlreadyProcessed(sys.s, k) {
      s' := UpdatesTotal(p.blocks, p.contexts, sys.s, p.ResultOf(k));
    }
    next := System(s', sys.taken, sys.reported + {k});
  }

  // ---- Withholding some results ------------------------------------------------------------

  /** No result of those has arrived. */
  ghost predicate NoneOf(sys: System, held: iset<Key>) {
    forall k :: k in sys.reported ==> k !in held
  }

  ghost predicate Exhausted(sys: System, held: iset<Key>) {
    && sys.s.queue == [] && NoneOf(sys, held)
    && forall k :: k in sys.taken && k !in held ==> k in sys.reported
  }

  ghost function Outstanding(p: Plan, sys: System): int
    requires p.fan.Keys == p.contexts.Keys
  {
    3 * |Universe(p)| - |sys.taken| - |sys.reported|
  }

  lemma LessOutstanding(p: Plan, sys: System, next: System)
    requires p.Sound() && Inv(p, sys) && Step(p, sys, next)
    requires |next.taken| + |next.reported| > |sys.taken| + |sys.reported|
    ensures Inv(p, next) && 0 <= Outstanding(p, next) < Outstanding(p, sys)
  {
    StepPreserves(p, sys, next);
    TakenInUniverse(p, next);
  }

  /** One more sweep, or one more result other than those held. */
  lemma OneMoreStep(p: Plan, sys: System, held: iset<Key>) returns (next: System)
    requires p.fan.Keys == p.contexts.Keys && NoneOf(sys, held) && !Exhausted(sys, held)
    ensures Step(p, sys, next) && NoneOf(next, held)
    ensures |next.taken| + |next.reported| > |sys.taken| + |sys.reported|
  {
    if sys.s.queue != [] {
      next := SweepAll(sys);
    } else {
      var k :| k in sys.taken && k !in held && k !in sys.reported;
      next := DeliverOne(p, sys, k);
    }
  }

  /** A run that can go on, and how much is left to do at most. */
  ghost predicate GoesOn(p: Plan, run: seq<System>, held: iset<Key>, left: nat)
    requires p.fan.Keys == p.contexts.Keys
  {
    && Run(p, run)
    && var sys := run[|run| - 1];
       Inv(p, sys) && NoneOf(sys, held) && Outstanding(p, sys) <= left
  }

  /** Where such a run ends. */
  ghost predicate Ends(p: Plan, run: seq<System>, held: iset<Key>)
    requires p.fan.Keys == p.contexts.Keys
  {
    && Run(p, run)
    && var sys := run[|run| - 1];
       Inv(p, sys) && Exhausted(sys, held)
  }

  lemma OneMoreState(p: Plan, run: seq<System>, held: iset<Key>, left: nat) returns (next: seq<System>)
    requires p.Sound() && GoesOn(p, run, held, left)
    ensures Ends(p, next, held) || (left > 0 && GoesOn(p, next, held, left - 1))
  {
    var sys := run[|run| - 1];
    if Exhausted(sys, held) {
      next := run;
    } else {
      var state := OneMoreStep(p, sys, held);
      LessOutstanding(p, sys, state);
      RunExtends(p, run, state);
      next := run + [state];
    }
  }

  /** Keep sweeping and delivering results, all but some, until nothing else is left. */
  lemma {:induction false} RunWithholding(p: Plan, run: seq<System>, held: iset<Key>, left: nat)
    returns (run': seq<System>)
    requires p.Sound() && GoesOn(p, run, held, left)
    ensures Ends(p, run', held)
    decreases left
  {
    var next := OneMoreState(p, run, held, left);
    if Ends(p, next, held) {
      run' := next;
    } else {
      run' := RunWithholding(p, next, held, left - 1);
    }
  }

  /** From the start, with some results withheld. */
  lemma RunAllBut(p: Plan, held: iset<Key>) returns (run: seq<System>)
    requires p.Sound()
    ensures Run(p, run)
    ensures var sys := run[|run| - 1]; Inv(p, sys) && Exhausted(sys, held)
  {
    var first := System(AddBlocks(EMPTY, p.blocks), [], {});
    InitialInv(p);
    TakenInUniverse(p, first);
    assert Run(p, [first]);
    run := RunWithholding(p, [first], held, Outstanding(p, first));
  }
}
