// The scheduler over many pipelines (core/scheduler.go, core/scheduler_server.go):
// round-robin service and draining.
module MultiTenant {
  import opened Arithmetic
  import opened Digraphs
  import opened Pipelines
  import opened SchedulerState
  import opened PipelineScheduler

  /** An invocation together with the pipeline it belongs to. */
  datatype Job = Job(pipeline: Id, invocation: Invocation)

  /** One pipeline's scheduler: its document, its map contexts and its state. */
  datatype Tenant = Tenant(blocks: seq<Block>, contexts: Contexts, state: State)

  datatype Fleet = Fleet(jobs: seq<Job>, schedulers: map<Id, Tenant>, order: seq<Id>, cursor: nat)

  predicate Ready(schedulers: map<Id, Tenant>, id: Id) {
    id in schedulers && schedulers[id].state.queue != []
  }

  /** The tenant once its queue has been cut to `q`. */
  function WithQueue(t: Tenant, q: seq<Invocation>): Tenant {
    t.(state := t.state.(queue := q))
  }

  /** The pipeline the cursor looks at after moving past `i` others. */
  function Slot(f: Fleet, i: nat): Id
    requires f.order != []
  {
    f.order[(f.cursor + i) % |f.order|]
  }

  /** The cursor moves past `j` pipelines that are not ready, to one that is. */
  ghost predicate Finds(f: Fleet, j: int, id: Id) {
    && 0 <= j < |f.order| && id == Slot(f, j) && Ready(f.schedulers, id)
    && forall i: nat :: i < j ==> !Ready(f.schedulers, Slot(f, i))
  }

  /** That pipeline is served. */
  ghost predicate Serves(f: Fleet, j: nat, job: Job, f': Fleet) {
    && f.jobs == [] && Finds(f, j, job.pipeline)
    && job.invocation == f.schedulers[job.pipeline].state.queue[0]
    && var t := f.schedulers[job.pipeline];
       f' == f.(cursor := f.cursor + j + 1,
         schedulers := f.schedulers[job.pipeline := WithQueue(t, t.state.queue[1..])])
  }

  ghost predicate AnyReady(f: Fleet) {
    exists id :: id in f.order && Ready(f.schedulers, id)
  }

  /** Without work the cursor has gone round once. */
  ghost predicate Nexts(f: Fleet, next: Option<Job>, f': Fleet) {
    if f.jobs != [] then next == Some(f.jobs[0]) && f' == f.(jobs := f.jobs[1..])
    else if next.Some? then exists j: nat :: Serves(f, j, next.value, f')
    else !AnyReady(f) && f' == f.(cursor := f.cursor + |f.order|)
  }

  ghost predicate RemovesFirst(order: seq<Id>, id: Id, order': seq<Id>) {
    if id !in order then order' == order
    else exists i :: 0 <= i < |order| && order[i] == id && id !in order[..i] && order' == order[..i] + order[i + 1..]
  }

  ghost predicate Cancels(f: Fleet, id: Id, f': Fleet) {
    && id in f.schedulers && RemovesFirst(f.order, id, f'.order)
    && var t := f.schedulers[id];
       f' == f.(order := f'.order, schedulers := f.schedulers[id := t.(state := Halted(t.state))])
  }

  ghost predicate Updated(f: Fleet, id: Id, r: BlockResult, f': Fleet) {
    && id in f.schedulers && id in f'.schedulers
    && var t, t' := f.schedulers[id], f'.schedulers[id];
       && Updates(t.blocks, t.contexts, t.state, r, t'.state)
       && t' == t.(state := t'.state)
       && f' == f.(schedulers := f.schedulers[id := t'])
  }

  // ---- Cyclic positions ------------------------------------------------------------------

  lemma AddMod(rr: nat, x: nat, k: nat)
    requires k > 0 && x <= k
    ensures (rr + x) % k == if rr % k + x < k then rr % k + x else rr % k + x - k
  {
    var q, r := rr / k, rr % k;
    if r + x < k {
      QuotientIs(rr + x, k, q, r + x);
    } else {
      assert (q + 1) * k == q * k + k;
      QuotientIs(rr + x, k, q + 1, r + x - k);
    }
  }

  /** How many slots the cursor passes before it reaches `slot`. */
  function Distance(rr: nat, slot: nat, k: nat): nat
    requires slot < k
  {
    if rr % k <= slot then slot - rr % k else slot + k - rr % k
  }

  lemma DistanceHits(rr: nat, slot: nat, k: nat)
    requires slot < k
    ensures Distance(rr, slot, k) < k && (rr + Distance(rr, slot, k)) % k == slot
  {
    AddMod(rr, Distance(rr, slot, k), k);
  }

  lemma DistanceShrinks(rr: nat, j: nat, slot: nat, k: nat)
    requires slot < k && j < Distance(rr, slot, k)
    ensures Distance(rr + j + 1, slot, k) == Distance(rr, slot, k) - j - 1
  {
    DistanceHits(rr, slot, k);
    AddMod(rr, j + 1, k);
  }

  lemma NoneReady(f: Fleet)
    requires f.order != [] && forall i: nat :: i < |f.order| ==> !Ready(f.schedulers, Slot(f, i))
    ensures !AnyReady(f)
  {
    forall slot | 0 <= slot < |f.order| ensures !Ready(f.schedulers, f.order[slot]) {
      DistanceHits(f.cursor, slot, |f.order|);
      assert Slot(f, Distance(f.cursor, slot, |f.order|)) == f.order[slot];
    }
  }

  // ---- Draining -------------------------------------------------------------------------------

  function JobsOf(id: Id, q: seq<Invocation>): seq<Job> {
    seq(|q|, i requires 0 <= i < |q| => Job(id, q[i]))
  }

  function DrainedSchedulers(order: seq<Id>, schedulers: map<Id, Tenant>): map<Id, Tenant> {
    if order == [] then schedulers
    else
      var rest := DrainedSchedulers(order[..|order| - 1], schedulers);
      var id := order[|order| - 1];
      if Ready(rest, id) then rest[id := WithQueue(rest[id], [])] else rest
  }

  function DrainedJobs(order: seq<Id>, schedulers: map<Id, Tenant>): seq<Job> {
    if order == [] then []
    else
      var rest := DrainedSchedulers(order[..|order| - 1], schedulers);
      var jobs := DrainedJobs(order[..|order| - 1], schedulers);
      var id := order[|order| - 1];
      if Ready(rest, id) then jobs + JobsOf(id, rest[id].state.queue) else jobs
  }

  function JobsFor(id: Id, jobs: seq<Job>): seq<Invocation> {
    if jobs == [] then []
    else
      var rest := JobsFor(id, jobs[..|jobs| - 1]);
      if jobs[|jobs| - 1].pipeline == id then rest + [jobs[|jobs| - 1].invocation] else rest
  }

  lemma {:induction false} JobsForConcat(id: Id, a: seq<Job>, b: seq<Job>)
    ensures JobsFor(id, a + b) == JobsFor(id, a) + JobsFor(id, b)
  {
    if b == [] {
      assert a + b == a;
    } else {
      JobsForConcat(id, a, b[..|b| - 1]);
      assert (a + b)[..|a + b| - 1] == a + b[..|b| - 1];
    }
  }

  lemma {:induction false} JobsForQueue(id: Id, other: Id, q: seq<Invocation>)
    ensures JobsFor(id, JobsOf(other, q)) == if id == other then q else []
  {
    if q != [] {
      JobsForQueue(id, other, q[..|q| - 1]);
      assert JobsOf(other, q)[..|q| - 1] == JobsOf(other, q[..|q| - 1]);
    }
  }

  /** A sweep hands out every listed pipeline's queue once, in order and
      complete, and nothing of a pipeline that is not listed. */
  lemma {:induction false} DrainIsExact(order: seq<Id>, schedulers: map<Id, Tenant>, id: Id)
    ensures var after := DrainedSchedulers(order, schedulers);
            && after.Keys == schedulers.Keys
            && (id in schedulers ==> after[id] == if id in order then WithQueue(schedulers[id], []) else schedulers[id])
    ensures JobsFor(id, DrainedJobs(order, schedulers)) ==
              if id in order && id in schedulers then schedulers[id].state.queue else []
  {
    if order != [] {
      var n := |order| - 1;
      DrainIsExact(order[..n], schedulers, id);
      DrainIsExact(order[..n], schedulers, order[n]);
      assert order == order[..n] + [order[n]];
      var rest := DrainedSchedulers(order[..n], schedulers);
      if Ready(rest, order[n]) {
        JobsForConcat(id, DrainedJobs(order[..n], schedulers), JobsOf(order[n], rest[order[n]].state.queue));
        JobsForQueue(id, order[n], rest[order[n]].state.queue);
      }
    }
  }

  /** A sweep goes through the rotation from its start: behind the work of earlier
      pipelines comes the queue of a later one, as it is. */
  lemma DrainedInRotation(order: seq<Id>, id: Id, schedulers: map<Id, Tenant>)
    ensures DrainedJobs([], schedulers) == []
    ensures DrainedJobs(order + [id], schedulers) == DrainedJobs(order, schedulers) +
              if id in schedulers && id !in order then JobsOf(id, schedulers[id].state.queue) else []
  {
    DrainIsExact(order, schedulers, id);
    assert (order + [id])[..|order|] == order;
  }

  /** Only the first entry is removed: what stands before and behind it stays in place. */
  lemma RemovesFirstAt(front: seq<Id>, id: Id, back: seq<Id>, order': seq<Id>)
    requires id !in front
    ensures RemovesFirst(front + [id] + back, id, order') <==> order' == front + back
  {
    var order, n := front + [id] + back, |front|;
    assert order[n] == id && order[..n] == front && order[n + 1..] == back;
    assert forall k :: 0 <= k < n ==> order[k] == front[k] && front[k] in front;
    assert forall k :: n < k <= |order| ==> order[..k][n] == id && id in order[..k];
  }

  lemma ServedNext(f: Fleet, cursor: nat, job: Job, f': Fleet)
    requires f.jobs == [] && cursor > f.cursor && Finds(f, cursor - 1 - f.cursor, job.pipeline)
    requires var t := f.schedulers[job.pipeline];
             && t.state.queue[0] == job.invocation
             && f' == f.(cursor := cursor, schedulers := f.schedulers[job.pipeline := WithQueue(t, t.state.queue[1..])])
    ensures Nexts(f, Some(job), f')
  {
    assert Serves(f, cursor - 1 - f.cursor, job, f');
  }

  // ---- The scheduler ------------------------------------------------------------------------

  ghost function TenantOf(s: Scheduler): Tenant
    reads s
  {
    Tenant(s.blocks, s.contexts, s.Current())
  }

  /** A scheduler with its pipeline added; a document it refuses leaves it empty. */
  method NewSchedulerForPipeline(blocks: seq<Block>) returns (scheduler: Scheduler)
    ensures fresh(scheduler) && TenantOf(scheduler) == Tenant(blocks, map[], Started(blocks))
  {
    scheduler := new Scheduler();
    var added := scheduler.AddPipeline(blocks);
  }

  class Tenants {
    var executionQueue: seq<Job>
    var schedulers: map<Id, Scheduler>
    var pipelineOrder: seq<Id>
    var roundRobinIndex: nat

    /** Every pipeline has a scheduler of its own. */
    ghost predicate Valid()
      reads this
    {
      forall a, b :: a in schedulers && b in schedulers && a != b ==> schedulers[a] != schedulers[b]
    }

    ghost function Current(): Fleet
      reads this, schedulers.Values
    {
      Fleet(executionQueue, map id | id in schedulers :: TenantOf(schedulers[id]), pipelineOrder, roundRobinIndex)
    }

    constructor ()
      ensures Valid() && Current() == Fleet([], map[], [], 0)
    {
      executionQueue := [];
      schedulers := map[];
      pipelineOrder := [];
      roundRobinIndex := 0;
    }

    method AddPipeline(id: Id, blocks: seq<Block>)
      requires Valid()
      modifies this
      ensures Valid() && id in schedulers && fresh(schedulers[id])
      ensures Current() == old(Current()).(order := old(pipelineOrder) + [id],
                schedulers := old(Current()).schedulers[id := Tenant(blocks, map[], Started(blocks))])
    {
      var scheduler := NewSchedulerForPipeline(blocks);
      ghost var before := Current().schedulers;
      schedulers := schedulers[id := scheduler];
      pipelineOrder := pipelineOrder + [id];
      assert Current().schedulers == before[id := TenantOf(scheduler)];
    }

    /** Halts the pipeline and takes its first entry out of the rotation. */
    method CancelPipeline(id: Id) returns (r: Result<()>)
      requires Valid()
      modifies this, schedulers.Values
      ensures Valid() && schedulers == old(schedulers)
      ensures r.Ok? <==> id in schedulers
      ensures if r.Ok? then Cancels(old(Current()), id, Current()) else Current() == old(Current())
    {
      if id !in schedulers {
        return Err("failed to find pipeline");
      }
      schedulers[id].CancelPipeline();
      ghost var halted := Current();
      for i := 0 to |pipelineOrder|
        invariant Valid() && schedulers == old(schedulers)
        invariant Current() == halted && id !in pipelineOrder[..i]
      {
        if pipelineOrder[i] == id {
          pipelineOrder := pipelineOrder[..i] + pipelineOrder[i + 1..];
          assert RemovesFirst(old(pipelineOrder), id, pipelineOrder);
          return Ok(());
        }
      }
      return Ok(());
    }

    /** A result goes to the scheduler of its pipeline and to no other. */
    method Update(id: Id, result: BlockResult) returns (r: Result<()>)
      requires Valid()
      modifies this, schedulers.Values
      ensures Valid() && schedulers == old(schedulers)
      ensures r.Ok? <==> id in schedulers
      ensures if r.Ok? then Updated(old(Current()), id, result, Current()) else Current() == old(Current())
    {
      if id !in schedulers {
        return Err("could not find pipeline");
      }
      schedulers[id].Update(result);
      return Ok(());
    }

    /** The head of one pipeline's queue; no other pipeline is touched. */
    method ServeFrom(id: Id) returns (job: Job)
      requires Valid() && id in schedulers && schedulers[id].executable != []
      modifies schedulers.Values
      ensures Valid() && job == Job(id, old(schedulers[id].executable)[0])
      ensures var t := TenantOf(schedulers[id]);
              && old(TenantOf(schedulers[id])).state.queue == [job.invocation] + t.state.queue
              && t == WithQueue(old(TenantOf(schedulers[id])), old(schedulers[id].executable)[1..])
              && Current() == old(Current()).(schedulers := old(Current()).schedulers[id := t])
    {
      var invocation, finished := schedulers[id].Next();
      job := Job(id, invocation.value);
    }

    method EmptyQueue(id: Id) returns (jobs: seq<Job>)
      requires Valid() && id in schedulers
      modifies schedulers.Values
      ensures Valid() && jobs == JobsOf(id, old(schedulers[id].executable))
      ensures var emptied := WithQueue(old(TenantOf(schedulers[id])), []);
              Current() == old(Current()).(schedulers := old(Current()).schedulers[id := emptied])
    {
      jobs := JobsOf(id, schedulers[id].executable);
      schedulers[id].executable := [];
    }

    /** Moves the cursor past the first ready pipeline, or once round. */
    method NextReady() returns (found: Option<Id>)
      requires pipelineOrder != []
      modifies this`roundRobinIndex
      ensures Current() == old(Current()).(cursor := roundRobinIndex)
      ensures found.Some? ==> Finds(old(Current()), roundRobinIndex - 1 - old(roundRobinIndex), found.value)
      ensures found.Some? ==> roundRobinIndex > old(roundRobinIndex)
      ensures found.None? ==> !AnyReady(old(Current())) && roundRobinIndex == old(roundRobinIndex) + |pipelineOrder|
    {
      ghost var start := Current();
      var checked := 0;
      while checked < |pipelineOrder|
        invariant checked <= |pipelineOrder| && roundRobinIndex == start.cursor + checked
        invariant forall i: nat :: i < checked ==> !Ready(start.schedulers, Slot(start, i))
      {
        var idx := roundRobinIndex % |pipelineOrder|;
        assert pipelineOrder[idx] == Slot(start, checked);
        roundRobinIndex := roundRobinIndex + 1;
        checked := checked + 1;
        var id := pipelineOrder[idx];
        if id !in schedulers {
          continue;
        }
        assert start.schedulers[id] == TenantOf(schedulers[id]);
        var ready := schedulers[id].IsReady();
        if ready {
          return Some(id);
        }
      }
      NoneReady(start);
      return None;
    }

    /** Work is returned whenever some listed pipeline is ready; it goes to the
        first ready one at or after the cursor. */
    method Next() returns (next: Option<Job>, done: bool)
      requires Valid()
      modifies this, schedulers.Values
      ensures Valid() && schedulers == old(schedulers)
      ensures Nexts(old(Current()), next, Current())
      ensures next.Some? ==> !done
      ensures next.None? ==> (done <==>
              forall id :: id in pipelineOrder && id in schedulers && !schedulers[id].cancelled ==>
                schedulers[id].pending == map[] && schedulers[id].executable == [])
    {
      if |executionQueue| > 0 {
        next, done := Some(executionQueue[0]), false;
        executionQueue := executionQueue[1..];
        return;
      }
      if |pipelineOrder| == 0 {
        return None, true;
      }
      ghost var start := Current();
      var found := NextReady();
      if found.Some? {
        var job := ServeFrom(found.value);
        ServedNext(start, roundRobinIndex, job, Current());
        return Some(job), false;
      }
      next := None;
      done := forall id :: id in pipelineOrder && id in schedulers && !schedulers[id].cancelled ==>
                |schedulers[id].pending| == 0 && schedulers[id].executable == [];
    }

    /** Every listed pipeline's queue, emptied in rotation order. */
    method Drain() returns (out: seq<Job>)
      requires Valid()
      modifies schedulers.Values
      ensures Valid() && out == DrainedJobs(pipelineOrder, old(Current()).schedulers)
      ensures Current() == old(Current()).(schedulers := DrainedSchedulers(pipelineOrder, old(Current()).schedulers))
    {
      out := [];
      ghost var start := Current();
      for i := 0 to |pipelineOrder|
        invariant Valid() && out == DrainedJobs(pipelineOrder[..i], start.schedulers)
        invariant Current() == start.(schedulers := DrainedSchedulers(pipelineOrder[..i], start.schedulers))
      {
        assert pipelineOrder[..i + 1][..i] == pipelineOrder[..i];
        var id := pipelineOrder[i];
        ghost var before := Current().schedulers;
        if id !in schedulers || schedulers[id].executable == [] {
          assert !Ready(before, id);
          continue;
        }
        var jobs := EmptyQueue(id);
        out := out + jobs;
      }
      assert pipelineOrder[..|pipelineOrder|] == pipelineOrder;
    }
  }

  // ---- Bounded waiting --------------------------------------------------------------------------

  /** One call of Next that found work. */
  datatype Dispatch = Dispatch(before: Fleet, job: Job, after: Fleet)

  /** Successive dispatches with an unchanged rotation; between two of them the
      schedulers may change in any way. */
  ghost predicate Dispatches(order: seq<Id>, ds: seq<Dispatch>) {
    && (forall n :: 0 <= n < |ds| ==>
          ds[n].before.order == order && ds[n].before.jobs == [] && Nexts(ds[n].before, Some(ds[n].job), ds[n].after))
    && forall n :: 0 < n < |ds| ==> ds[n].before.cursor == ds[n - 1].after.cursor
  }

  /** A ready pipeline's turn comes nearer with every dispatch to another one. */
  lemma TurnComesNearer(f: Fleet, job: Job, f': Fleet, slot: nat)
    requires f.jobs == [] && Nexts(f, Some(job), f')
    requires slot < |f.order| && Ready(f.schedulers, f.order[slot]) && job.pipeline != f.order[slot]
    ensures Distance(f'.cursor, slot, |f.order|) < Distance(f.cursor, slot, |f.order|)
  {
    var j: nat :| Serves(f, j, job, f');
    var d := Distance(f.cursor, slot, |f.order|);
    DistanceHits(f.cursor, slot, |f.order|);
    assert Slot(f, d) == f.order[slot];
    assert j < d;
    DistanceShrinks(f.cursor, j, slot, |f.order|);
  }

  /** The pipeline at the cursor is served if it is ready, and the cursor moves on
      by one. */
  lemma ServesAtCursor(f: Fleet, job: Job, f': Fleet)
    requires f.jobs == [] && Nexts(f, Some(job), f') && f.order != []
    requires Ready(f.schedulers, f.order[f.cursor % |f.order|])
    ensures job.pipeline == f.order[f.cursor % |f.order|] && f'.cursor == f.cursor + 1
  {
    var j: nat :| Serves(f, j, job, f');
    assert Slot(f, 0) == f.order[f.cursor % |f.order|];
  }

  ghost predicate AllReady(f: Fleet) {
    forall id :: id in f.order ==> Ready(f.schedulers, id)
  }

  lemma ServesAtCursorAt(order: seq<Id>, ds: seq<Dispatch>, n: nat)
    requires order != [] && Dispatches(order, ds) && n < |ds| && AllReady(ds[n].before)
    ensures ds[n].job.pipeline == order[ds[n].before.cursor % |order|]
    ensures ds[n].after.cursor == ds[n].before.cursor + 1
  {
    ServesAtCursor(ds[n].before, ds[n].job, ds[n].after);
  }

  lemma {:induction false} CursorAt(order: seq<Id>, ds: seq<Dispatch>, n: nat)
    requires order != [] && Dispatches(order, ds) && n < |ds|
    requires forall i :: 0 <= i < |ds| ==> AllReady(ds[i].before)
    ensures ds[n].before.cursor == ds[0].before.cursor + n
  {
    if n > 0 {
      CursorAt(order, ds, n - 1);
      ServesAtCursorAt(order, ds, n - 1);
    }
  }

  /** While all pipelines are ready they are served in the order they were added
      in, round and round. */
  lemma ServedInTurn(order: seq<Id>, ds: seq<Dispatch>, n: nat)
    requires order != [] && Dispatches(order, ds) && n < |ds|
    requires forall i :: 0 <= i < |ds| ==> AllReady(ds[i].before)
    ensures ds[n].job.pipeline == order[(ds[0].before.cursor + n) % |order|]
  {
    CursorAt(order, ds, n);
    ServesAtCursorAt(order, ds, n);
  }

  lemma {:induction false} WaitingByDistance(order: seq<Id>, ds: seq<Dispatch>, slot: nat)
    requires slot < |order| && Dispatches(order, ds)
    requires forall d :: d in ds ==> Ready(d.before.schedulers, order[slot]) && d.job.pipeline != order[slot]
    ensures ds != [] ==> |ds| <= Distance(ds[0].before.cursor, slot, |order|)
  {
    if ds != [] {
      assert ds[0] in ds;
      TurnComesNearer(ds[0].before, ds[0].job, ds[0].after, slot);
      WaitingByDistance(order, ds[1..], slot);
    }
  }

  /** While a pipeline stays ready and listed, at most |order| - 1 dispatches go
      to others before it is served, whatever else becomes ready in between. */
  lemma BoundedWaiting(order: seq<Id>, ds: seq<Dispatch>, id: Id)
    requires id in order && Dispatches(order, ds)
    requires forall d :: d in ds ==> Ready(d.before.schedulers, id) && d.job.pipeline != id
    ensures |ds| <= |order| - 1
  {
    var slot: nat :| slot < |order| && order[slot] == id;
    WaitingByDistance(order, ds, slot);
    if ds != [] {
      DistanceHits(ds[0].before.cursor, slot, |order|);
    }
  }
}
