// Restart: the pipeline is added again and its recorded results are replayed
// (core/scheduler_server.go, Rehydrate).  Map contexts are identified only
// afterwards (server/engine/engine.go), so the replay knows none.
module Recovery {
  import opened Digraphs
  import opened Pipelines
  import opened DependencyGraphs
  import opened SchedulerState
  import opened PipelineScheduler
  import opened SchedulerInvariant
  import opened SchedulerSteps
  import opened ConcurrentRuns
  import opened SchedulerGaps
  import opened ExamplePipelines

  function Without(q: seq<Invocation>, id: Id): seq<Invocation> {
    if q == [] then []
    else
      var rest := Without(q[..|q| - 1], id);
      if q[|q| - 1].id == id then rest else rest + [q[|q| - 1]]
  }

  /** All entries of the block go, the others stay as often as they were. */
  lemma {:induction false} WithoutRemoves(q: seq<Invocation>, id: Id)
    ensures forall inv :: multiset(Without(q, id))[inv] == if inv.id == id then 0 else multiset(q)[inv]
  {
    if q != [] {
      var n := |q| - 1;
      WithoutRemoves(q[..n], id);
      assert q == q[..n] + [q[n]];
    }
  }

  lemma WithoutSnoc(q: seq<Invocation>, inv: Invocation, id: Id)
    ensures Without(q + [inv], id) == if inv.id == id then Without(q, id) else Without(q, id) + [inv]
  {
    assert (q + [inv])[..|q|] == q;
  }

  lemma WithoutOneMore(a: seq<Invocation>, b: seq<Invocation>, inv: Invocation, id: Id)
    requires Without(a + b, id) == Without(a, id) + Without(b, id)
    ensures Without(a + (b + [inv]), id) == Without(a, id) + Without(b + [inv], id)
  {
    WithoutSnoc(b, inv, id);
    WithoutSnoc(a + b, inv, id);
    assert a + (b + [inv]) == a + b + [inv];
  }

  /** What is left of two parts of a queue is left in their order, */
  lemma {:induction false} WithoutConcat(a: seq<Invocation>, b: seq<Invocation>, id: Id)
    ensures Without(a + b, id) == Without(a, id) + Without(b, id)
  {
    if b == [] {
      assert a + b == a;
    } else {
      var front, inv := b[..|b| - 1], b[|b| - 1];
      WithoutConcat(a, front, id);
      WithoutOneMore(a, front, inv, id);
      assert b == front + [inv];
    }
  }

  /** so that what stays keeps its place between the others. */
  lemma WithoutKeepsOrder(a: seq<Invocation>, inv: Invocation, b: seq<Invocation>, id: Id)
    ensures Without(a + [inv] + b, id) ==
            if inv.id == id then Without(a, id) + Without(b, id) else Without(a, id) + [inv] + Without(b, id)
  {
    WithoutConcat(a + [inv], b, id);
    WithoutSnoc(a, inv, id);
  }

  /** One replayed result: update, then drop the finished block from the queue. */
  ghost predicate ReplaysOne(blocks: seq<Block>, s: State, r: BlockResult, s': State) {
    exists mid :: Updates(blocks, map[], s, r, mid) &&
      s' == if r.MapDone? then mid else mid.(queue := Without(mid.queue, r.id))
  }

  ghost predicate Replays(blocks: seq<Block>, s: State, results: seq<BlockResult>, s': State)
    decreases |results|, 0
  {
    if results == [] then s' == s
    else ReplaysThen(blocks, s, results[..|results| - 1], results[|results| - 1], s')
  }

  ghost predicate ReplaysThen(blocks: seq<Block>, s: State, rest: seq<BlockResult>, last: BlockResult, s': State)
    decreases |rest|, 1
  {
    exists mid :: Replays(blocks, s, rest, mid) && ReplaysOne(blocks, mid, last, s')
  }

  /** Compacts the queue in place. */
  method DropFinished(scheduler: Scheduler, id: Id)
    modifies scheduler
    ensures scheduler.Current() == old(scheduler.Current()).(queue := Without(old(scheduler.executable), id))
    ensures scheduler.blocks == old(scheduler.blocks) && scheduler.contexts == old(scheduler.contexts)
  {
    var filtered: seq<Invocation> := [];
    var q := scheduler.executable;
    for i := 0 to |q|
      invariant filtered == Without(q[..i], id)
    {
      assert q[..i + 1][..i] == q[..i];
      if q[i].id == id {
        continue;
      }
      filtered := filtered + [q[i]];
    }
    assert q[..|q|] == q;
    scheduler.executable := filtered;
  }

  method Rehydrate(blocks: seq<Block>, results: seq<BlockResult>) returns (scheduler: Scheduler)
    ensures fresh(scheduler)
    ensures Replays(blocks, Started(blocks), results, scheduler.Current())
  {
    scheduler := new Scheduler();
    var added := scheduler.AddPipeline(blocks);
    for i := 0 to |results|
      invariant fresh(scheduler) && scheduler.blocks == blocks && scheduler.contexts == map[]
      invariant Replays(blocks, Started(blocks), results[..i], scheduler.Current())
    {
      assert results[..i + 1][..i] == results[..i];
      var r := results[i];
      ghost var before := scheduler.Current();
      scheduler.Update(r);
      assert Updates(blocks, map[], before, r, scheduler.Current());
      if r.Complete? || r.Failed? {
        DropFinished(scheduler, r.id);
      }
      assert ReplaysOne(blocks, before, r, scheduler.Current());
      assert ReplaysThen(blocks, Started(blocks), results[..i], r, scheduler.Current());
    }
    assert results[..|results|] == results;
  }

  // ---- What a replay leaves, for any order of the results --------------------------------

  function Completions(order: seq<Id>): seq<BlockResult> {
    seq(|order|, i requires 0 <= i < |order| => Complete(order[i]))
  }

  /** The result of b was replayed after those of everything it depends on. */
  ghost predicate ReplayedInOrder(p: Plan, order: seq<Id>, b: Id) {
    exists j :: 0 <= j < |order| && order[j] == b && p.DepsIn(b, ToSet(order[..j]))
  }

  /** Pending: the blocks with an unfinished dependency.  Queued: the others,
      except those whose own result was replayed in order. */
  ghost predicate Replayed(p: Plan, order: seq<Id>, s: State) {
    && s.completed == ToSet(order) && !s.cancelled
    && (forall k :: k in s.pending <==> k.Base? && k.id in Ids(p.blocks) && !p.DepsIn(k.id, s.completed))
    && (forall k :: k in s.pending ==> s.pending[k] == p.InvocationFor(k))
    && NoDuplicates(KeysOf(s.queue))
    && (forall k :: k in KeysOf(s.queue) <==>
          k.Base? && k.id in Ids(p.blocks) && p.DepsIn(k.id, s.completed) && !ReplayedInOrder(p, order, k.id))
  }

  lemma {:induction false} WithoutKeys(q: seq<Invocation>, id: Id)
    requires NoDuplicates(KeysOf(q))
    ensures NoDuplicates(KeysOf(Without(q, id)))
    ensures forall k :: k in KeysOf(Without(q, id)) <==> k in KeysOf(q) && k.id != id
  {
    if q != [] {
      var n := |q| - 1;
      var keys := KeysOf(q);
      assert KeysOf(q[..n]) == keys[..n] && keys == keys[..n] + [KeyOf(q[n])];
      assert keys[n] == KeyOf(q[n]) && keys[n] !in keys[..n];
      WithoutKeys(q[..n], id);
      KeysOfConcat(Without(q[..n], id), [q[n]]);
      assert KeysOf([q[n]]) == [KeyOf(q[n])];
    }
  }

  lemma ReplayedAppended(p: Plan, order: seq<Id>, c: Id, b: Id)
    ensures ReplayedInOrder(p, order + [c], b) <==>
            ReplayedInOrder(p, order, b) || (b == c && p.DepsIn(b, ToSet(order)))
  {
    var order' := order + [c];
    if j :| 0 <= j < |order'| && order'[j] == b && p.DepsIn(b, ToSet(order'[..j])) {
      if j < |order| { assert order'[..j] == order[..j]; } else { assert order'[..j] == order; }
    }
    if j :| 0 <= j < |order| && order[j] == b && p.DepsIn(b, ToSet(order[..j])) {
      assert order'[j] == b && order'[..j] == order[..j];
    }
    if b == c && p.DepsIn(b, ToSet(order)) {
      assert order'[|order|] == b && order'[..|order|] == order;
    }
  }

  lemma ReplayedImpliesReady(p: Plan, order: seq<Id>, b: Id)
    requires ReplayedInOrder(p, order, b)
    ensures b in order && p.DepsIn(b, ToSet(order))
  {
    var j :| 0 <= j < |order| && order[j] == b && p.DepsIn(b, ToSet(order[..j]));
    forall d | p.DependsOn(b, d) ensures d in ToSet(order) {
      assert d in ToSet(order[..j]);
    }
  }

  lemma NotOwnDependency(p: Plan, b: Id)
    requires p.ValidBlocks()
    ensures !p.DependsOn(b, b)
  {
    if p.DependsOn(b, b) {
      EdgeReaches(EdgesOf(p.blocks), b, b);
      AcyclicNotSelfReaching(EdgesOf(p.blocks), b);
    }
  }

  lemma PromotedKeys(p: Plan, s: State, mid: State)
    requires p.ValidBlocks() && Promotes(s, mid) && NoDuplicates(KeysOf(s.queue))
    requires forall k :: k in s.pending ==>
             k.id in Ids(p.blocks) && s.pending[k] == p.InvocationFor(k) && k !in KeysOf(s.queue)
    ensures mid.completed == s.completed && mid.cancelled == s.cancelled
    ensures NoDuplicates(KeysOf(mid.queue))
    ensures forall k :: k in KeysOf(mid.queue) <==>
            k in KeysOf(s.queue) || (k in s.pending && p.DepsIn(k.id, s.completed))
    ensures forall k :: k in mid.pending <==> k in s.pending && !p.DepsIn(k.id, s.completed)
    ensures forall k :: k in mid.pending ==> mid.pending[k] == s.pending[k]
  {
    ReadyKeysAre(p, s);
    var order :| PromotesIn(s, order, mid);
    assert forall k :: k in order ==> k in ReadyKeys(s);
    PickInvocations(p, s.pending, order);
    KeysOfInvocationsFor(p, order);
    KeysOfConcat(s.queue, InvocationsFor(p, order));
    NoDuplicatesConcat(KeysOf(s.queue), order);
  }

  lemma ReplayOneMore(p: Plan, order: seq<Id>, s: State, c: Id, s': State)
    requires p.ValidBlocks() && Replayed(p, order, s)
    requires ReplaysOne(p.blocks, s, Complete(c), s')
    ensures Replayed(p, order + [c], s')
  {
    var mid :| Updates(p.blocks, map[], s, Complete(c), mid) && s' == mid.(queue := Without(mid.queue, c));
    var started := s.(completed := s.completed + {c});
    assert ToSet(order + [c]) == started.completed;
    PromotedKeys(p, started, mid);
    WithoutKeys(mid.queue, c);
    NotOwnDependency(p, c);
    assert p.DepsIn(c, started.completed) <==> p.DepsIn(c, s.completed);
    forall k: Key | k.Base? && k.id in Ids(p.blocks)
      ensures k in KeysOf(s'.queue) <==> p.DepsIn(k.id, s'.completed) && !ReplayedInOrder(p, order + [c], k.id)
    {
      ReplayedAppended(p, order, c, k.id);
      if ReplayedInOrder(p, order, k.id) { ReplayedImpliesReady(p, order, k.id); }
    }
  }

  lemma ReplayStarts(p: Plan)
    requires p.ValidBlocks()
    ensures Replayed(p, [], AddBlocks(EMPTY, p.blocks))
  {
    AddBlocksIs(p, p.blocks);
    assert ToSet<Id>([]) == {};
    forall id, inputs
      ensures HasBlock(p.blocks, id, inputs) <==> id in Ids(p.blocks) && (p.DepsIn(id, {}) <==> !inputs)
    {
      SourceIffReady(p, id, inputs);
    }
  }

  lemma SourceIffReady(p: Plan, id: Id, inputs: bool)
    requires p.ValidBlocks()
    ensures HasBlock(p.blocks, id, inputs) <==> id in Ids(p.blocks) && (p.DepsIn(id, {}) <==> !inputs)
  {
    forall b | b in p.blocks ensures b.id in Ids(p.blocks) && (p.DepsIn(b.id, {}) <==> b.inputs == []) {
      InvocationForBase(p, b);
      ReadyIffDepsIn(p, Base(b.id), {});
      if b.inputs != [] { assert b.inputs[0] in b.inputs; }
    }
    if id in Ids(p.blocks) {
      var b :| b in p.blocks && b.id == id;
    }
  }

  /** A map's result is lost in a replay: no context is known yet, so the map
      does not even count as completed. */
  lemma ReplayedMapIsLost(blocks: seq<Block>, s: State, m: Id, n: nat, s': State)
    requires ReadyKeys(s) == {}
    ensures ReplaysOne(blocks, s, MapDone(m, n), s') <==> s' == s
  {
    assert HandlesMap(blocks, map[], s, m, n, s);
    var promoted := PromotesTotal(s);
    PromotesIdle(s, promoted);
    assert Updates(blocks, map[], s, MapDone(m, n), s);
    if ReplaysOne(blocks, s, MapDone(m, n), s') {
      var mid :| Updates(blocks, map[], s, MapDone(m, n), mid) && s' == mid;
      PromotesIdle(s, mid);
    }
  }

  /** A failure halts the pipeline again. */
  lemma ReplayedFailureHalts(blocks: seq<Block>, s: State, b: Id, s': State)
    ensures ReplaysOne(blocks, s, Failed(b), s') <==> s' == State(map[], [], s.completed, true)
  {
    assert Without([], b) == [];
    assert Updates(blocks, map[], s, Failed(b), Halted(s));
  }

  /** The blocks whose completions are among the results, in that order. */
  function CompletedIn(results: seq<BlockResult>): seq<Id> {
    if results == [] then []
    else
      var rest := CompletedIn(results[..|results| - 1]);
      match results[|results| - 1]
      case Complete(b) => rest + [b]
      case _ => rest
  }

  lemma {:induction false} CompletedInAre(results: seq<BlockResult>)
    ensures forall b :: b in CompletedIn(results) <==> Complete(b) in results
  {
    if results != [] {
      CompletedInAre(results[..|results| - 1]);
      assert results == results[..|results| - 1] + [results[|results| - 1]];
    }
  }

  lemma {:induction false} CompletionsAreAll(order: seq<Id>)
    ensures CompletedIn(Completions(order)) == order
  {
    if order != [] {
      var n := |order| - 1;
      CompletionsAreAll(order[..n]);
      assert Completions(order)[..n] == Completions(order[..n]);
    }
  }

  lemma LastReplay(blocks: seq<Block>, results: seq<BlockResult>, s: State) returns (mid: State)
    requires results != [] && Replays(blocks, Started(blocks), results, s)
    ensures Replays(blocks, Started(blocks), results[..|results| - 1], mid)
    ensures ReplaysOne(blocks, mid, results[|results| - 1], s)
  {
    var n := |results| - 1;
    mid :| Replays(blocks, Started(blocks), results[..n], mid) && ReplaysOne(blocks, mid, results[n], s);
  }

  lemma ReplayedIsSaturated(p: Plan, order: seq<Id>, s: State)
    requires p.ValidBlocks() && Replayed(p, order, s)
    ensures ReadyKeys(s) == {}
  {
    ReadyKeysAre(p, s);
  }

  /** Replaying successful results in any order whatever: those of maps leave no
      trace. */
  lemma {:induction false} ReplayIs(p: Plan, results: seq<BlockResult>, s: State)
    requires p.ValidBlocks() && forall r :: r in results ==> !r.Failed?
    requires Replays(p.blocks, Started(p.blocks), results, s)
    ensures Replayed(p, CompletedIn(results), s)
  {
    if results == [] {
      ReplayStarts(p);
    } else {
      var rest, last := results[..|results| - 1], results[|results| - 1];
      var mid := LastReplay(p.blocks, results, s);
      ReplayIs(p, rest, mid);
      if last.Complete? {
        ReplayOneMore(p, CompletedIn(rest), mid, last.id, s);
      } else {
        ReplayedIsSaturated(p, CompletedIn(rest), mid);
        ReplayedMapIsLost(p.blocks, mid, last.id, last.count, s);
      }
    }
  }

  /** With a failure among the results nothing is scheduled after the replay. */
  lemma {:induction false} ReplayWithFailure(p: Plan, results: seq<BlockResult>, s: State)
    requires p.ValidBlocks() && exists r :: r in results && r.Failed?
    requires Replays(p.blocks, Started(p.blocks), results, s)
    ensures s.pending == map[] && s.queue == []
  {
    var rest, last := results[..|results| - 1], results[|results| - 1];
    assert results == rest + [last];
    var mid := LastReplay(p.blocks, results, s);
    if last.Failed? {
      ReplayedFailureHalts(p.blocks, mid, last.id, s);
    } else {
      ReplayWithFailure(p, rest, mid);
      var updated :| Updates(p.blocks, map[], mid, last, updated)
        && s == if last.MapDone? then updated else updated.(queue := Without(updated.queue, last.id));
      StaysHaltedIff(p.blocks, map[], mid, last, updated);
    }
  }

  // ---- When recovery is right ---------------------------------------------------------------

  ghost predicate Scheduled(s: State, b: Id) {
    Base(b) in s.pending || Base(b) in KeysOf(s.queue)
  }

  /** No finished block is run again after the restart, if and only if every
      result was replayed as a completion, after those of the block's dependencies. */
  lemma NothingRunsAgainIff(p: Plan, results: seq<BlockResult>, s: State)
    requires p.ValidBlocks() && forall r :: r in results ==> !r.Failed? && r.id in Ids(p.blocks)
    requires Replays(p.blocks, Started(p.blocks), results, s)
    ensures (forall r :: r in results ==> !Scheduled(s, r.id)) <==>
            (forall r :: r in results ==> ReplayedInOrder(p, CompletedIn(results), r.id))
  {
    var order := CompletedIn(results);
    ReplayIs(p, results, s);
    forall r | r in results ensures !Scheduled(s, r.id) <==> ReplayedInOrder(p, order, r.id) {
      if ReplayedInOrder(p, order, r.id) { ReplayedImpliesReady(p, order, r.id); }
      assert Base(r.id).id == r.id;
    }
  }

  /** A map block that had finished is scheduled again, whatever else is replayed. */
  lemma FinishedMapRunsAgain(p: Plan, results: seq<BlockResult>, m: Id, n: nat, s: State)
    requires p.ValidBlocks() && m in Ids(p.blocks) && forall r :: r in results ==> !r.Failed?
    requires MapDone(m, n) in results && Complete(m) !in results
    requires Replays(p.blocks, Started(p.blocks), results, s)
    ensures m !in s.completed && Scheduled(s, m)
  {
    ReplayIs(p, results, s);
    CompletedInAre(results);
    if ReplayedInOrder(p, CompletedIn(results), m) { ReplayedImpliesReady(p, CompletedIn(results), m); }
    assert Base(m).id == m;
  }

  /** A replay in dependency order restores the state of the live run, with the
      invocations that were in flight put back into the queue.  It depends on
      the set of finished blocks only. */
  lemma RecoveryMatchesLiveRun(p: Plan, sys: System, order: seq<Id>, s: State)
    requires p.Sound() && p.contexts == map[] && Inv(p, sys)
    requires ToSet(order) == sys.s.completed && forall c :: c in order ==> ReplayedInOrder(p, order, c)
    requires Replays(p.blocks, Started(p.blocks), Completions(order), s)
    ensures s.completed == sys.s.completed && s.pending == sys.s.pending
    ensures NoDuplicates(KeysOf(s.queue))
    ensures forall k :: k in KeysOf(s.queue) <==> k in KeysOf(sys.s.queue) || (k in sys.taken && k !in sys.reported)
  {
    CompletionsAreAll(order);
    ReplayIs(p, Completions(order), s);
    forall k ensures k in s.pending <==> k in sys.s.pending
             ensures k in KeysOf(s.queue) <==> k in KeysOf(sys.s.queue) || (k in sys.taken && k !in sys.reported)
    {
      RecoveredWhereLive(p, sys, order, s, k);
    }
    SamePending(p, sys, order, s);
  }

  lemma SamePending(p: Plan, sys: System, order: seq<Id>, s: State)
    requires WellFormed(p, sys) && Replayed(p, order, s)
    requires forall k :: k in s.pending <==> k in sys.s.pending
    ensures s.pending == sys.s.pending
  {
  }

  lemma RecoveredWhereLive(p: Plan, sys: System, order: seq<Id>, s: State, k: Key)
    requires p.Sound() && p.contexts == map[] && Inv(p, sys) && Replayed(p, order, s)
    requires ToSet(order) == sys.s.completed && forall c :: c in order ==> ReplayedInOrder(p, order, c)
    ensures k in s.pending <==> k in sys.s.pending
    ensures k in KeysOf(s.queue) <==> k in KeysOf(sys.s.queue) || (k in sys.taken && k !in sys.reported)
  {
    LiveState(p, sys, k);
    if ReplayedInOrder(p, order, k.id) { ReplayedImpliesReady(p, order, k.id); }
  }

  /** Where an invocation of a map-free pipeline is, told from what has finished. */
  lemma LiveState(p: Plan, sys: System, k: Key)
    requires p.Sound() && p.contexts == map[] && Inv(p, sys)
    ensures k in sys.s.pending <==> k.Base? && k.id in Ids(p.blocks) && !p.DepsIn(k.id, sys.s.completed)
    ensures k in KeysOf(sys.s.queue) || (k in sys.taken && k !in sys.reported) <==>
            k.Base? && k.id in Ids(p.blocks) && p.DepsIn(k.id, sys.s.completed) && k.id !in sys.s.completed
  {
    assert p.Instance(k, sys.s.completed) <==> k.Base? && k.id in Ids(p.blocks);
    FinishedIffReported(p, sys, k);
    assert k in sys.Launched() <==> k in sys.taken || k in KeysOf(sys.s.queue);
  }

  lemma FinishedIffReported(p: Plan, sys: System, k: Key)
    requires p.Sound() && p.contexts == map[] && Inv(p, sys)
    ensures k in sys.Launched() ==> (k.id in sys.s.completed <==> k in sys.reported)
    ensures k in sys.reported ==> k !in KeysOf(sys.s.queue)
    ensures k.Base? && k.id in sys.s.completed ==> k in sys.Launched()
  {
    var l := sys.Launched();
    AtMostTwiceParts(sys.taken, KeysOf(sys.s.queue));
    if k in l {
      assert p.Instance(k, sys.s.completed) && k.Base?;
    }
    if k in l && k.id in sys.s.completed {
      var r :| r in sys.reported && r.id == k.id;
      assert r in l;
      assert p.Instance(r, sys.s.completed) && p.Instance(k, sys.s.completed);
    }
    if k.Base? && k.id in sys.s.completed {
      var r :| r in sys.reported && r.id == k.id;
      assert r in l && p.Instance(r, sys.s.completed);
    }
  }

  // ---- The failing case, concretely ---------------------------------------------------------

  /** A sink that is listed, and numbered, before its source. */
  const SINK_FIRST: Plan := Plan([Block(1, "sink", [Bare(2)]), Block(2, "source", [])], map[], map[])

  lemma SinkFirstEdges()
    ensures EdgeList(SINK_FIRST.blocks) == [(2, 1)] && SINK_FIRST.ValidBlocks()
  {
    var bs := SINK_FIRST.blocks;
    assert EdgeList(bs) == [(2, 1)] by {
      assert RefEdges(1, [Bare(2)]) == [(2, 1)] by { assert [Bare(2)][..0] == []; }
      assert bs[..1] == [bs[0]] && [bs[0]][..0] == [];
    }
    RankedIsAcyclic(EdgesOf(bs), map[1 := 2, 2 := 1]);
    assert bs[0] in bs && bs[1] in bs;
  }

  /** Replaying both results by ascending id leaves the finished sink queued. */
  lemma ReplayByIdRunsAgain(s: State)
    requires Replays(SINK_FIRST.blocks, Started(SINK_FIRST.blocks), Completions([1, 2]), s)
    ensures 1 in s.completed && Base(1) in KeysOf(s.queue)
  {
    var p := SINK_FIRST;
    SinkFirstEdges();
    var order: seq<Id> := [1, 2];
    CompletionsAreAll(order);
    ReplayIs(p, Completions(order), s);
    assert p.blocks[0] in p.blocks;
    assert p.DependsOn(1, 2);
    assert order[..0] == [] && 2 !in ToSet(order[..0]);
    assert 1 in order && 2 in order;
    assert p.DepsIn(1, ToSet(order));
    assert !ReplayedInOrder(p, order, 1);
    assert Base(1).id == 1;
  }

  lemma FinishedSourceIsQueued(p: Plan, m: Id, n: nat, s: State)
    requires p.ValidBlocks() && m in Ids(p.blocks) && forall d :: !p.DependsOn(m, d)
    requires Replays(p.blocks, Started(p.blocks), [MapDone(m, n)], s)
    ensures Base(m) in KeysOf(s.queue)
  {
    FinishedMapRunsAgain(p, [MapDone(m, n)], m, n, s);
    ReplayIs(p, [MapDone(m, n)], s);
    assert Base(m).id == m;
  }

  /** A map that had found two items is executed again after the restart. */
  lemma FinishedMapIsQueued(s: State)
    requires Replays(MAP_REDUCE, Started(MAP_REDUCE), [MapDone(1, 2)], s)
    ensures Base(1) in KeysOf(s.queue)
  {
    MapReduceBlocks();
    FinishedSourceIsQueued(Plan(MAP_REDUCE, map[], map[]), 1, 2, s);
  }
}
