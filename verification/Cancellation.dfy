// What cancelling a pipeline achieves among many (core/scheduler.go): which work
// of it may still be handed out, by whatever happens afterwards.
module Cancellation {
  import opened Digraphs
  import opened Pipelines
  import opened DependencyGraphs
  import opened SchedulerState
  import opened SchedulerInvariant
  import opened SchedulerGaps
  import opened MultiTenant
  import opened PipelinePlans
  import opened ExamplePipelines

  // ---- What may happen ---------------------------------------------------------------------

  /** What may happen to the fleet.  A pipeline is added together with its map
      contexts, under one lock (server/engine/engine.go). */
  datatype Event =
    | Adding(added: Id, blocks: seq<Block>, contexts: Contexts)
    | Cancelling(cancelled: Id)
    | Reporting(reporting: Id, result: BlockResult)
    | Asking(next: Option<Job>)
    | Sweeping(jobs: seq<Job>)

  ghost predicate Happens(f: Fleet, e: Event, f': Fleet) {
    match e
    case Adding(id, blocks, contexts) =>
      f' == f.(order := f.order + [id], schedulers := f.schedulers[id := Tenant(blocks, contexts, Started(blocks))])
    case Cancelling(id) => Cancels(f, id, f')
    case Reporting(id, r) => Updated(f, id, r, f')
    case Asking(next) => Nexts(f, next, f')
    case Sweeping(jobs) =>
      && jobs == DrainedJobs(f.order, f.schedulers)
      && f' == f.(schedulers := DrainedSchedulers(f.order, f.schedulers))
  }

  ghost predicate Run(fs: seq<Fleet>, es: seq<Event>) {
    && |fs| == |es| + 1
    && forall n: nat :: n < |es| ==> Happens(fs[n], es[n], fs[n + 1])
  }

  function HandedOut(e: Event): seq<Job> {
    match e
    case Asking(Some(job)) => [job]
    case Sweeping(jobs) => jobs
    case _ => []
  }

  ghost predicate Silent(id: Id, es: seq<Event>) {
    forall e, job :: e in es && job in HandedOut(e) ==> job.pipeline != id
  }

  ghost predicate NeverAdded(id: Id, es: seq<Event>) {
    forall e :: e in es ==> !(e.Adding? && e.added == id)
  }

  ghost predicate NoJobOf(f: Fleet, id: Id) {
    forall job :: job in f.jobs ==> job.pipeline != id
  }

  // ---- Results that answer something ----------------------------------------------------------

  /** Invocations that have been handed out, with their pipelines. */
  type Out = set<(Id, Key)>

  function Handed(e: Event): Out {
    set job | job in HandedOut(e) :: (job.pipeline, KeyOf(job.invocation))
  }

  /** The blocks of the pipeline with an invocation among them. */
  function OutIds(out: Out, id: Id): set<Id> {
    set x | x in out && x.0 == id :: x.1.id
  }

  /** A result of the invocation: a failure, or for a map block its items, or a
      completion.  One the engine has processed before does not get through. */
  ghost predicate Answers(t: Tenant, k: Key, r: BlockResult) {
    && !(k.Base? && k.id in t.state.completed)
    && r.id == k.id && (r.Failed? || (r.MapDone? <==> k.Base? && k.id in t.contexts))
  }

  ghost predicate Solicited(f: Fleet, e: Event, out: Out) {
    e.Reporting? && e.reporting in f.schedulers ==>
      exists k :: (e.reporting, k) in out && Answers(f.schedulers[e.reporting], k, e.result)
  }

  /** Every result is that of an invocation handed out before, at first those of `out`. */
  ghost predicate AllSolicited(fs: seq<Fleet>, es: seq<Event>, out: Out)
    requires |fs| == |es| + 1
    decreases |es|
  {
    es == [] || (Solicited(fs[0], es[0], out) && AllSolicited(fs[1..], es[1..], out + Handed(es[0])))
  }

  /** Whatever happens, short of adding it again, no work of the pipeline is
      handed out. */
  ghost predicate SilentForGood(f: Fleet, id: Id) {
    forall fs, es {:trigger Run(fs, es)} :: Run(fs, es) && fs[0] == f && NeverAdded(id, es) ==> Silent(id, es)
  }

  /** The same, while results only come from work that has been handed out. */
  ghost predicate SilentWhenAnswered(f: Fleet, out: Out, id: Id) {
    forall fs, es {:trigger Run(fs, es)} ::
      Run(fs, es) && fs[0] == f && NeverAdded(id, es) && AllSolicited(fs, es, out) ==> Silent(id, es)
  }

  lemma RunRest(fs: seq<Fleet>, es: seq<Event>)
    requires Run(fs, es) && es != []
    ensures Happens(fs[0], es[0], fs[1]) && Run(fs[1..], es[1..])
  {
    assert Happens(fs[0], es[0], fs[0 + 1]);
    forall n: nat | n < |es[1..]| ensures Happens(fs[1..][n], es[1..][n], fs[1..][n + 1]) {
      assert Happens(fs[n + 1], es[n + 1], fs[n + 1 + 1]);
    }
  }

  lemma {:induction false} JobsForMember(id: Id, jobs: seq<Job>, job: Job)
    requires job in jobs && job.pipeline == id
    ensures JobsFor(id, jobs) != []
  {
    if jobs[|jobs| - 1] != job {
      JobsForMember(id, jobs[..|jobs| - 1], job);
    }
  }

  lemma RemovesOnly(order: seq<Id>, id: Id, order': seq<Id>)
    requires RemovesFirst(order, id, order')
    ensures forall x :: x in order' ==> x in order
  {
  }

  /** What is handed out comes from the execution queue or from a listed queue. */
  lemma HandedFromQueues(f: Fleet, e: Event, f': Fleet, id: Id)
    requires Happens(f, e, f') && NoJobOf(f, id) && !(e.Adding? && e.added == id)
    requires id in f.order && id in f.schedulers ==> f.schedulers[id].state.queue == []
    ensures NoJobOf(f', id) && forall job :: job in HandedOut(e) ==> job.pipeline != id
  {
    if e.Asking? && f.jobs == [] && e.next.Some? {
      var j: nat :| Serves(f, j, e.next.value, f');
      assert Slot(f, j) in f.order;
    }
    if e.Sweeping? {
      DrainIsExact(f.order, f.schedulers, id);
      forall job | job in e.jobs ensures job.pipeline != id {
        if job.pipeline == id { JobsForMember(id, e.jobs, job); }
      }
    }
  }

  // ---- Out of the rotation -----------------------------------------------------------------------

  lemma UnlistedStep(f: Fleet, e: Event, f': Fleet, id: Id)
    requires Happens(f, e, f') && NoJobOf(f, id) && id !in f.order && !(e.Adding? && e.added == id)
    ensures NoJobOf(f', id) && id !in f'.order && forall job :: job in HandedOut(e) ==> job.pipeline != id
  {
    HandedFromQueues(f, e, f', id);
    if e.Cancelling? { RemovesOnly(f.order, e.cancelled, f'.order); }
  }

  lemma {:induction false} UnlistedIsSilent(fs: seq<Fleet>, es: seq<Event>, id: Id)
    requires Run(fs, es) && NoJobOf(fs[0], id) && id !in fs[0].order && NeverAdded(id, es)
    ensures Silent(id, es)
  {
    if es != [] {
      RunRest(fs, es);
      UnlistedStep(fs[0], es[0], fs[1], id);
      UnlistedIsSilent(fs[1..], es[1..], id);
      assert es == [es[0]] + es[1..];
    }
  }

  /** Once out of the rotation, a pipeline stays silent whatever results arrive,
      solicited or not. */
  lemma UnlistedStaysSilent(f: Fleet, id: Id)
    requires NoJobOf(f, id) && id !in f.order
    ensures SilentForGood(f, id)
  {
    forall fs, es | Run(fs, es) && fs[0] == f && NeverAdded(id, es) ensures Silent(id, es) {
      UnlistedIsSilent(fs, es, id);
    }
  }

  // ---- Halted schedulers and their maps ------------------------------------------------------------

  /** Maps fan out blocks of the document. */
  ghost predicate ContextsKnown(t: Tenant) {
    forall m, b :: m in t.contexts && b in t.contexts[m] ==> b in Ids(t.blocks)
  }

  /** What waits has been fanned out from the document. */
  ghost predicate FromDocument(blocks: seq<Block>, s: State) {
    forall k :: k in s.pending ==>
      k.Mapped? && k.id in Ids(blocks) && s.pending[k] == FindBlock(blocks, k.id).(index := Some(k.index))
  }

  lemma {:induction false} FindBlockId(blocks: seq<Block>, b: Id)
    requires b in Ids(blocks)
    ensures FindBlock(blocks, b).id == b
  {
    if blocks[0].id != b {
      var c :| c in blocks && c.id == b;
      assert c in blocks[1..];
      FindBlockId(blocks[1..], b);
    }
  }

  lemma ExpandBlockIs(blocks: seq<Block>, s: State, b: Id, n: nat)
    requires FromDocument(blocks, s) && b in Ids(blocks)
    ensures var e := ExpandBlock(s, blocks, b, n);
            && FromDocument(blocks, e) && e.completed == s.completed
            && (forall k :: k in s.pending ==> k in e.pending)
            && (forall k :: k in e.pending && k !in s.pending ==>
                  k.id == b && !DepsDone(FindBlock(blocks, b).inputs, s.completed))
            && (e.queue != s.queue ==> DepsDone(FindBlock(blocks, b).inputs, s.completed))
            && (n > 0 ==> Mapped(b, 0) in e.pending || e.queue != [])
            && (s.queue != [] ==> e.queue != [])
  {
    FindBlockId(blocks, b);
    var original := FindBlock(blocks, b);
    assert Base(b) !in s.pending && Original(s, blocks, b) == original;
    var e := ExpandBlock(s, blocks, b, n);
    if DepsDone(original.inputs, s.completed) {
      assert e.queue == s.queue + Instances(original, n) && e.pending == s.pending - {Base(b)};
      assert |Instances(original, n)| == n;
    } else {
      assert e.pending == s.pending - {Base(b)} + InstanceMap(original, n);
      if n > 0 { assert Mapped(original.id, 0) in InstanceMap(original, n); }
    }
  }

  /** A fan-out keeps what waits; blocks it makes ready join the queue, the others wait. */
  lemma {:induction false} ExpandAllIs(blocks: seq<Block>, s: State, ids: seq<Id>, n: nat)
    requires FromDocument(blocks, s) && forall b :: b in ids ==> b in Ids(blocks)
    ensures var e := ExpandAll(s, blocks, ids, n);
            && FromDocument(blocks, e) && e.completed == s.completed
            && (forall k :: k in s.pending ==> k in e.pending)
            && (forall k :: k in e.pending && k !in s.pending ==>
                  k.id in ids && !DepsDone(FindBlock(blocks, k.id).inputs, s.completed))
            && (e.queue != s.queue ==> exists b :: b in ids && DepsDone(FindBlock(blocks, b).inputs, s.completed))
            && (n > 0 ==> forall b :: b in ids ==> Mapped(b, 0) in e.pending || e.queue != [])
            && (s.queue != [] ==> e.queue != [])
  {
    if ids != [] {
      var last := |ids| - 1;
      ExpandAllIs(blocks, s, ids[..last], n);
      ExpandBlockIs(blocks, ExpandAll(s, blocks, ids[..last], n), ids[last], n);
      assert ids == ids[..last] + [ids[last]];
    }
  }

  // ---- Nothing left to hear from --------------------------------------------------------------------

  /** Some map that has been handed out and has not completed fans out a block
      whose dependencies have all completed or been handed out. */
  ghost predicate CanRevive(t: Tenant, out: Out, id: Id) {
    exists m, b :: Revives(t, out, id, t.state.completed + OutIds(out, id), m, b)
  }

  ghost predicate Revives(t: Tenant, out: Out, id: Id, reach: set<Id>, m: Id, b: Id) {
    && (id, Base(m)) in out && m in t.contexts && m !in t.state.completed && b in t.contexts[m]
    && DepsDone(FindBlock(t.blocks, b).inputs, reach)
  }

  /** Nothing is executable, nor can become so by completing blocks of `reach`. */
  ghost predicate Dormant(t: Tenant, out: Out, id: Id, reach: set<Id>) {
    && ContextsKnown(t) && FromDocument(t.blocks, t.state)
    && t.state.queue == [] && t.state.completed <= reach && OutIds(out, id) <= reach
    && (forall k :: k in t.state.pending ==> !DepsDone(t.state.pending[k].inputs, reach))
    && (forall m, b :: !Revives(t, out, id, reach, m, b))
  }

  lemma DoneInMore(inputs: seq<InputRef>, completed: set<Id>, reach: set<Id>)
    requires completed <= reach && DepsDone(inputs, completed)
    ensures DepsDone(inputs, reach)
  {
  }

  /** Promoting then changes nothing. */
  lemma DormantPromotes(s: State, reach: set<Id>, s': State)
    requires s.completed <= reach && Promotes(s, s')
    requires forall k :: k in s.pending ==> !DepsDone(s.pending[k].inputs, reach)
    ensures s' == s
  {
    forall k | k in s.pending ensures k !in ReadyKeys(s) {
      if DepsDone(s.pending[k].inputs, s.completed) { DoneInMore(s.pending[k].inputs, s.completed, reach); }
    }
    assert ReadyKeys(s) == {};
    PromotesIdle(s, s');
  }

  lemma StaysDormant(t: Tenant, out: Out, id: Id, reach: set<Id>, s': State)
    requires Dormant(t, out, id, reach) && FromDocument(t.blocks, s') && s'.queue == []
    requires t.state.completed <= s'.completed <= reach
    requires forall k :: k in s'.pending ==> !DepsDone(s'.pending[k].inputs, reach)
    ensures Dormant(t.(state := s'), out, id, reach)
  {
    forall m, b ensures !Revives(t.(state := s'), out, id, reach, m, b) {
      assert !Revives(t, out, id, reach, m, b);
    }
  }

  lemma DormantHalted(t: Tenant, out: Out, id: Id, reach: set<Id>)
    requires Dormant(t, out, id, reach)
    ensures Dormant(t.(state := Halted(t.state)), out, id, reach)
  {
    StaysDormant(t, out, id, reach, Halted(t.state));
  }

  /** The blocks of such a map wait like all others. */
  lemma DormantExpands(t: Tenant, out: Out, id: Id, reach: set<Id>, m: Id, n: nat, mid: State)
    requires Dormant(t, out, id, reach) && (id, Base(m)) in out && m in t.contexts && m !in t.state.completed
    requires HandlesMap(t.blocks, t.contexts, t.state, m, n, mid)
    ensures FromDocument(t.blocks, mid) && mid.queue == [] && t.state.completed <= mid.completed <= reach
    ensures forall k :: k in mid.pending ==> !DepsDone(FindBlock(t.blocks, k.id).inputs, reach)
  {
    if n > 0 {
      var ids: seq<Id> :| HandlesMapIn(t.blocks, t.contexts, t.state, m, n, ids, mid);
      var started := t.state.(completed := t.state.completed + {m});
      assert (id, Base(m)).1.id in OutIds(out, id);
      ExpandAllIs(t.blocks, started, ids, n);
      forall b | b in ids ensures !DepsDone(FindBlock(t.blocks, b).inputs, reach) {
        assert !Revives(t, out, id, reach, m, b);
      }
      forall b | b in ids ensures !DepsDone(FindBlock(t.blocks, b).inputs, started.completed) {
        if DepsDone(FindBlock(t.blocks, b).inputs, started.completed) {
          DoneInMore(FindBlock(t.blocks, b).inputs, started.completed, reach);
        }
      }
    }
  }

  lemma DormantMap(t: Tenant, out: Out, id: Id, reach: set<Id>, m: Id, n: nat, s': State)
    requires Dormant(t, out, id, reach) && (id, Base(m)) in out && m in t.contexts && m !in t.state.completed
    requires Updates(t.blocks, t.contexts, t.state, MapDone(m, n), s')
    ensures Dormant(t.(state := s'), out, id, reach)
  {
    var mid :| HandlesMap(t.blocks, t.contexts, t.state, m, n, mid) && Promotes(mid, s');
    DormantExpands(t, out, id, reach, m, n, mid);
    DormantPromotes(mid, reach, s');
    StaysDormant(t, out, id, reach, s');
  }

  lemma DormantUpdate(t: Tenant, out: Out, id: Id, reach: set<Id>, k: Key, r: BlockResult, s': State)
    requires Dormant(t, out, id, reach) && (id, k) in out && Answers(t, k, r)
    requires Updates(t.blocks, t.contexts, t.state, r, s')
    ensures Dormant(t.(state := s'), out, id, reach)
  {
    match r
    case Failed(_) =>
      DormantHalted(t, out, id, reach);
    case Complete(d) =>
      assert (id, k).1.id in OutIds(out, id);
      DormantPromotes(t.state.(completed := t.state.completed + {d}), reach, s');
      StaysDormant(t, out, id, reach, s');
    case MapDone(m, n) =>
      DormantMap(t, out, id, reach, m, n, s');
  }

  /** Neither asked for nor able to get work again. */
  ghost predicate Quiet(f: Fleet, out: Out, id: Id, reach: set<Id>) {
    NoJobOf(f, id) && (id in f.order && id in f.schedulers ==> Dormant(f.schedulers[id], out, id, reach))
  }

  lemma MoreOut(t: Tenant, out: Out, more: Out, id: Id, reach: set<Id>)
    requires Dormant(t, out, id, reach) && forall x :: x in more ==> x.0 != id
    ensures Dormant(t, out + more, id, reach)
  {
    assert OutIds(out + more, id) == OutIds(out, id);
    forall m, b ensures !Revives(t, out + more, id, reach, m, b) {
      assert !Revives(t, out, id, reach, m, b);
    }
  }

  lemma QuietTenant(f: Fleet, e: Event, f': Fleet, out: Out, id: Id, reach: set<Id>)
    requires Quiet(f, out, id, reach) && Happens(f, e, f') && Solicited(f, e, out) && !(e.Adding? && e.added == id)
    requires id in f'.order && id in f'.schedulers
    ensures id in f.order && id in f.schedulers && Dormant(f'.schedulers[id], out, id, reach)
  {
    match e
    case Adding(_, _, _) =>
    case Cancelling(other) =>
      RemovesOnly(f.order, other, f'.order);
      DormantHalted(f.schedulers[id], out, id, reach);
    case Reporting(other, r) =>
      if other == id {
        var t := f.schedulers[id];
        var k :| (id, k) in out && Answers(t, k, r);
        DormantUpdate(t, out, id, reach, k, r, f'.schedulers[id].state);
      }
    case Asking(next) =>
      if f.jobs == [] && next.Some? {
        var j: nat :| Serves(f, j, next.value, f');
        assert Slot(f, j) in f.order;
      }
    case Sweeping(jobs) =>
      DrainIsExact(f.order, f.schedulers, id);
      assert WithQueue(f.schedulers[id], []) == f.schedulers[id];
  }

  lemma QuietStep(f: Fleet, e: Event, f': Fleet, out: Out, id: Id, reach: set<Id>)
    requires Quiet(f, out, id, reach) && Happens(f, e, f') && Solicited(f, e, out) && !(e.Adding? && e.added == id)
    ensures Quiet(f', out + Handed(e), id, reach)
    ensures forall job :: job in HandedOut(e) ==> job.pipeline != id
  {
    HandedFromQueues(f, e, f', id);
    if id in f'.order && id in f'.schedulers {
      QuietTenant(f, e, f', out, id, reach);
      MoreOut(f'.schedulers[id], out, Handed(e), id, reach);
    }
  }

  lemma {:induction false} QuietStaysSilent(fs: seq<Fleet>, es: seq<Event>, out: Out, id: Id, reach: set<Id>)
    requires Run(fs, es) && Quiet(fs[0], out, id, reach) && NeverAdded(id, es) && AllSolicited(fs, es, out)
    ensures Silent(id, es)
  {
    if es != [] {
      RunRest(fs, es);
      QuietStep(fs[0], es[0], fs[1], out, id, reach);
      QuietStaysSilent(fs[1..], es[1..], out + Handed(es[0]), id, reach);
      assert es == [es[0]] + es[1..];
    }
  }

  // ---- Runs that are heard ------------------------------------------------------------------------------

  ghost predicate Heard(f: Fleet, out: Out, id: Id, fs: seq<Fleet>, es: seq<Event>) {
    Run(fs, es) && fs[0] == f && NeverAdded(id, es) && AllSolicited(fs, es, out) && !Silent(id, es)
  }

  lemma HeardLater(f: Fleet, e: Event, out: Out, id: Id, fs: seq<Fleet>, es: seq<Event>)
    requires |fs| > 0 && Heard(fs[0], out + Handed(e), id, fs, es)
    requires Happens(f, e, fs[0]) && Solicited(f, e, out) && !e.Adding?
    ensures Heard(f, out, id, [f] + fs, [e] + es)
  {
    forall n: nat | n < |es| + 1 ensures Happens(([f] + fs)[n], ([e] + es)[n], ([f] + fs)[n + 1]) {
      if n > 0 { assert Happens(fs[n - 1], es[n - 1], fs[n - 1 + 1]); }
    }
    assert ([f] + fs)[1..] == fs && ([e] + es)[1..] == es;
    var late, job :| late in es && job in HandedOut(late) && job.pipeline == id;
    assert late in [e] + es;
  }

  lemma {:induction false} HasJobFor(id: Id, jobs: seq<Job>)
    requires JobsFor(id, jobs) != []
    ensures exists job :: job in jobs && job.pipeline == id
  {
    if jobs[|jobs| - 1].pipeline == id {
      assert jobs[|jobs| - 1] in jobs;
    } else {
      HasJobFor(id, jobs[..|jobs| - 1]);
    }
  }

  lemma HeardFromQueue(f: Fleet, out: Out, id: Id) returns (fs: seq<Fleet>, es: seq<Event>)
    requires id in f.order && Ready(f.schedulers, id)
    ensures Heard(f, out, id, fs, es)
  {
    var jobs := DrainedJobs(f.order, f.schedulers);
    fs := [f, f.(schedulers := DrainedSchedulers(f.order, f.schedulers))];
    es := [Sweeping(jobs)];
    DrainIsExact(f.order, f.schedulers, id);
    HasJobFor(id, jobs);
    assert es[0] in es && HandedOut(es[0]) == jobs;
  }

  lemma {:induction false} HeardFromJobs(f: Fleet, out: Out, id: Id) returns (fs: seq<Fleet>, es: seq<Event>)
    requires !NoJobOf(f, id)
    ensures Heard(f, out, id, fs, es)
    decreases |f.jobs|
  {
    var first, rest := f.jobs[0], f.(jobs := f.jobs[1..]);
    var e := Asking(Some(first));
    if first.pipeline == id {
      fs, es := [f, rest], [e];
      assert es[0] in es && first in HandedOut(es[0]);
    } else {
      assert f.jobs == [first] + f.jobs[1..];
      fs, es := HeardFromJobs(rest, out + Handed(e), id);
      HeardLater(f, e, out, id, fs, es);
      fs, es := [f] + fs, [e] + es;
    }
  }

  /** The successful result of an invocation. */
  function SuccessOf(t: Tenant, k: Key): BlockResult {
    if k.Base? && k.id in t.contexts then MapDone(k.id, 1) else Complete(k.id)
  }

  /** Nothing executable, nothing ready, and all that waits is from the document. */
  ghost predicate Waiting(t: Tenant) {
    ContextsKnown(t) && FromDocument(t.blocks, t.state) && t.state.queue == [] && ReadyKeys(t.state) == {}
  }

  /** What a success does to a scheduler from which nothing is to be had: its
      block completes, and either there is work or everything still waits. */
  lemma SuccessIs(t: Tenant, k: Key, s': State)
    requires Waiting(t) && Updates(t.blocks, t.contexts, t.state, SuccessOf(t, k), s')
    ensures s'.completed == t.state.completed + {k.id}
    ensures s'.queue != [] || (Waiting(t.(state := s')) && forall j :: j in t.state.pending ==> j in s'.pending)
    ensures k.Base? && k.id in t.contexts ==>
              s'.queue != [] || forall b :: b in t.contexts[k.id] ==> Mapped(b, 0) in s'.pending
  {
    var started := t.state.(completed := t.state.completed + {k.id});
    if k.Base? && k.id in t.contexts {
      var mid :| HandlesMap(t.blocks, t.contexts, t.state, k.id, 1, mid) && Promotes(mid, s');
      var ids: seq<Id> :| HandlesMapIn(t.blocks, t.contexts, t.state, k.id, 1, ids, mid);
      ExpandAllIs(t.blocks, started, ids, 1);
      PromotedOrKept(mid, s');
    } else {
      PromotedOrKept(started, s');
    }
  }

  lemma PromotedOrKept(s: State, s': State)
    requires Promotes(s, s')
    ensures s'.completed == s.completed && ReadyKeys(s') == {}
    ensures s.queue != [] ==> s'.queue != []
    ensures s'.queue != [] || s' == s
  {
    PromotesSaturates(s, s');
    var order :| PromotesIn(s, order, s');
    if s'.queue == [] {
      assert |Pick(s.pending, order)| == |order| == 0;
      assert s.pending - ToSet(order) == s.pending;
    }
  }

  /** A success of a handed-out invocation is reported. */
  lemma ReportSuccess(f: Fleet, out: Out, id: Id, k: Key) returns (f': Fleet)
    requires id in f.schedulers && (id, k) in out && k.id !in f.schedulers[id].state.completed
    ensures var e := Reporting(id, SuccessOf(f.schedulers[id], k));
            Happens(f, e, f') && Solicited(f, e, out) && Handed(e) == {}
    ensures id in f'.schedulers && f'.order == f.order
    ensures var t := f.schedulers[id];
            && f'.schedulers[id] == t.(state := f'.schedulers[id].state)
            && Updates(t.blocks, t.contexts, t.state, SuccessOf(t, k), f'.schedulers[id].state)
  {
    var t := f.schedulers[id];
    var r := SuccessOf(t, k);
    var s' := UpdatesTotal(t.blocks, t.contexts, t.state, r);
    f' := f.(schedulers := f.schedulers[id := t.(state := s')]);
    assert Answers(t, k, r);
  }

  /** The block waits, and all that it waits for has completed or is out. */
  ghost predicate WaitsForOut(f: Fleet, out: Out, id: Id, b: Id, n: nat) {
    && id in f.order && id in f.schedulers && b in Ids(f.schedulers[id].blocks)
    && var t := f.schedulers[id];
       var inputs := FindBlock(t.blocks, b).inputs;
       && Waiting(t) && Mapped(b, 0) in t.state.pending
       && n <= |inputs| && DepsDone(inputs[..n], t.state.completed)
       && DepsDone(inputs, t.state.completed + OutIds(out, id))
  }

  lemma OneMoreInput(f: Fleet, out: Out, id: Id, b: Id, n: nat)
    requires WaitsForOut(f, out, id, b, n)
    ensures n < |FindBlock(f.schedulers[id].blocks, b).inputs|
    ensures var t := f.schedulers[id];
            var d := DepId(FindBlock(t.blocks, b).inputs[n]);
            (d == NIL || d in t.state.completed ==> WaitsForOut(f, out, id, b, n + 1)) &&
            (d != NIL && d !in t.state.completed ==> exists k :: (id, k) in out && k.id == d)
  {
    var t := f.schedulers[id];
    var inputs := FindBlock(t.blocks, b).inputs;
    var k := Mapped(b, 0);
    assert k !in ReadyKeys(t.state) && inputs[..|inputs|] == inputs;
    if n < |inputs| {
      assert inputs[..n + 1] == inputs[..n] + [inputs[n]];
      var d := DepId(inputs[n]);
      assert inputs[n] in inputs;
      if d != NIL && d !in t.state.completed {
        assert d in OutIds(out, id);
        var x :| x in out && x.0 == id && x.1.id == d;
        assert (id, x.1) == x;
      }
    }
  }

  lemma AfterInput(f: Fleet, out: Out, id: Id, b: Id, n: nat, k: Key, f': Fleet)
    requires WaitsForOut(f, out, id, b, n) && id in f'.schedulers && f'.order == f.order
    requires n < |FindBlock(f.schedulers[id].blocks, b).inputs|
    requires k.id == DepId(FindBlock(f.schedulers[id].blocks, b).inputs[n])
    requires var t := f.schedulers[id];
             && f'.schedulers[id] == t.(state := f'.schedulers[id].state)
             && Updates(t.blocks, t.contexts, t.state, SuccessOf(t, k), f'.schedulers[id].state)
    ensures Ready(f'.schedulers, id) || WaitsForOut(f', out, id, b, n + 1)
  {
    var t := f.schedulers[id];
    var s' := f'.schedulers[id].state;
    var inputs := FindBlock(t.blocks, b).inputs;
    SuccessIs(t, k, s');
    assert inputs[..n + 1] == inputs[..n] + [inputs[n]];
    DoneInMore(inputs[..n], t.state.completed, s'.completed);
    DoneInMore(inputs, t.state.completed + OutIds(out, id), s'.completed + OutIds(out, id));
  }

  /** Report what the block waits for, one result after the other. */
  lemma {:induction false} HeardFromWaiting(f: Fleet, out: Out, id: Id, b: Id, n: nat)
    returns (fs: seq<Fleet>, es: seq<Event>)
    requires WaitsForOut(f, out, id, b, n)
    ensures Heard(f, out, id, fs, es)
    decreases |FindBlock(f.schedulers[id].blocks, b).inputs| - n
  {
    var t := f.schedulers[id];
    OneMoreInput(f, out, id, b, n);
    var d := DepId(FindBlock(t.blocks, b).inputs[n]);
    if d == NIL || d in t.state.completed {
      fs, es := HeardFromWaiting(f, out, id, b, n + 1);
    } else {
      var k :| (id, k) in out && k.id == d;
      var f' := ReportSuccess(f, out, id, k);
      AfterInput(f, out, id, b, n, k, f');
      if Ready(f'.schedulers, id) {
        fs, es := HeardFromQueue(f', out, id);
      } else {
        fs, es := HeardFromWaiting(f', out, id, b, n + 1);
      }
      var e := Reporting(id, SuccessOf(t, k));
      assert out + Handed(e) == out;
      HeardLater(f, e, out, id, fs, es);
      fs, es := [f] + fs, [e] + es;
    }
  }

  /** The result of a map revives a halted pipeline that is still listed. */
  lemma HeardFromMap(f: Fleet, out: Out, id: Id, m: Id, b: Id) returns (fs: seq<Fleet>, es: seq<Event>)
    requires id in f.order && id in f.schedulers && NothingWaits(f.schedulers[id].state) &&
             ContextsKnown(f.schedulers[id])
    requires var t := f.schedulers[id]; Revives(t, out, id, t.state.completed + OutIds(out, id), m, b)
    ensures Heard(f, out, id, fs, es)
  {
    var t := f.schedulers[id];
    assert Waiting(t);
    var f' := ReportSuccess(f, out, id, Base(m));
    var s' := f'.schedulers[id].state;
    SuccessIs(t, Base(m), s');
    if s'.queue != [] {
      fs, es := HeardFromQueue(f', out, id);
    } else {
      var inputs := FindBlock(t.blocks, b).inputs;
      DoneInMore(inputs, t.state.completed + OutIds(out, id), s'.completed + OutIds(out, id));
      assert inputs[..0] == [];
      fs, es := HeardFromWaiting(f', out, id, b, 0);
    }
    var e := Reporting(id, SuccessOf(t, Base(m)));
    assert out + Handed(e) == out;
    HeardLater(f, e, out, id, fs, es);
    fs, es := [f] + fs, [e] + es;
  }

  // ---- The condition ----------------------------------------------------------------------------------------

  lemma NotRevivedIsQuiet(f: Fleet, out: Out, id: Id)
    requires id in f.schedulers && NothingWaits(f.schedulers[id].state) && ContextsKnown(f.schedulers[id])
    requires NoJobOf(f, id) && (id !in f.order || !CanRevive(f.schedulers[id], out, id))
    ensures exists reach :: Quiet(f, out, id, reach)
  {
    var t := f.schedulers[id];
    var reach := t.state.completed + OutIds(out, id);
    if id in f.order {
      forall m, b ensures !Revives(t, out, id, reach, m, b) {}
    }
    assert Quiet(f, out, id, reach);
  }

  /** A halted pipeline is silent for good, whatever the invocations handed out
      report, exactly when the execution queue holds none of its work and it is
      out of the rotation or no map that is still out can revive it. */
  lemma SilentIff(f: Fleet, out: Out, id: Id)
    requires id in f.schedulers && NothingWaits(f.schedulers[id].state) && ContextsKnown(f.schedulers[id])
    ensures SilentWhenAnswered(f, out, id) <==>
            NoJobOf(f, id) && (id !in f.order || !CanRevive(f.schedulers[id], out, id))
  {
    if !NoJobOf(f, id) {
      var fs, es := HeardFromJobs(f, out, id);
      assert Run(fs, es);
    } else if id in f.order && CanRevive(f.schedulers[id], out, id) {
      var t := f.schedulers[id];
      var m, b :| Revives(t, out, id, t.state.completed + OutIds(out, id), m, b);
      var fs, es := HeardFromMap(f, out, id, m, b);
      assert Run(fs, es);
    } else {
      NotRevivedIsQuiet(f, out, id);
      var reach :| Quiet(f, out, id, reach);
      forall fs, es | Run(fs, es) && fs[0] == f && NeverAdded(id, es) && AllSolicited(fs, es, out)
        ensures Silent(id, es)
      {
        QuietStaysSilent(fs, es, out, id, reach);
      }
    }
  }

  ghost predicate ListedOnce(order: seq<Id>, id: Id) {
    forall i, j :: 0 <= i < j < |order| && order[i] == id ==> order[j] != id
  }

  lemma RemovedIfListedOnce(order: seq<Id>, id: Id, i: nat)
    requires i < |order| && order[i] == id && ListedOnce(order, id)
    ensures id !in order[..i] + order[i + 1..]
  {
    var late := order[i + 1..];
    forall k | 0 <= k < |late| ensures late[k] != id {
      assert late[k] == order[i + 1 + k];
    }
    forall k | 0 <= k < |order[..i]| ensures order[..i][k] != id {
      assert order[..i][k] == order[k];
    }
  }

  lemma StaysIfListedTwice(order: seq<Id>, id: Id, i: nat, j: nat, k: nat)
    requires i < |order| && j < k < |order| && order[j] == id && order[k] == id && id !in order[..i]
    ensures id in order[..i] + order[i + 1..]
  {
    assert forall x :: 0 <= x < i ==> order[..i][x] == order[x];
    assert (order[..i] + order[i + 1..])[k - 1] == order[k];
  }

  lemma RemovedIffListedOnce(order: seq<Id>, id: Id, order': seq<Id>)
    requires RemovesFirst(order, id, order')
    ensures id !in order' <==> ListedOnce(order, id)
  {
    if id in order {
      var i: nat :| i < |order| && order[i] == id && id !in order[..i] && order' == order[..i] + order[i + 1..];
      if ListedOnce(order, id) {
        RemovedIfListedOnce(order, id, i);
      } else {
        var j, k :| 0 <= j < k < |order| && order[j] == id && order[k] == id;
        StaysIfListedTwice(order, id, i, j, k);
      }
    }
  }

  /** After a cancellation no work of the pipeline is handed out any more,
      whatever the invocations handed out before report, exactly when the
      execution queue held none of it and the pipeline was listed at most once
      or no map that is still out can revive it: only its first entry in the
      rotation is removed. */
  lemma CancelSilencesIff(f: Fleet, out: Out, id: Id, f': Fleet)
    requires Cancels(f, id, f') && ContextsKnown(f.schedulers[id])
    ensures SilentWhenAnswered(f', out, id) <==>
            NoJobOf(f, id) && (ListedOnce(f.order, id) || !CanRevive(f.schedulers[id], out, id))
  {
    SilentIff(f', out, id);
    RemovedIffListedOnce(f.order, id, f'.order);
    var t, t' := f.schedulers[id], f'.schedulers[id];
    forall m, b ensures
      Revives(t', out, id, t'.state.completed + OutIds(out, id), m, b) <==>
      Revives(t, out, id, t.state.completed + OutIds(out, id), m, b)
    {}
  }

  // ---- A pipeline that is heard after its cancellation ------------------------------------------------------

  lemma {:induction false} NothingReported(fs: seq<Fleet>, es: seq<Event>, out: Out)
    requires |fs| == |es| + 1 && forall e :: e in es ==> !e.Reporting?
    ensures AllSolicited(fs, es, out)
  {
    if es != [] { NothingReported(fs[1..], es[1..], out + Handed(es[0])); }
  }

  lemma FourEvents(f0: Fleet, e0: Event, f1: Fleet, e1: Event, f2: Fleet, e2: Event, f3: Fleet, e3: Event, f4: Fleet)
    returns (fs: seq<Fleet>, es: seq<Event>)
    requires Happens(f0, e0, f1) && Happens(f1, e1, f2) && Happens(f2, e2, f3) && Happens(f3, e3, f4)
    requires !e0.Reporting? && !e1.Reporting? && !e2.Reporting? && !e3.Reporting?
    ensures fs == [f0, f1, f2, f3, f4] && es == [e0, e1, e2, e3]
    ensures Run(fs, es) && AllSolicited(fs, es, {})
  {
    fs, es := [f0, f1, f2, f3, f4], [e0, e1, e2, e3];
    NothingReported(fs, es, {});
    forall n: nat | n < |es| ensures Happens(fs[n], es[n], fs[n + 1]) {
      assert n == 0 || n == 1 || n == 2 || n == 3;
    }
  }

  lemma SweptTwice(id: Id, t: Tenant, f: Fleet, f': Fleet) returns (sweep: Event)
    requires t.state.queue != [] && f == Fleet([], map[id := t], [id, id], 0)
    requires f' == Fleet([], map[id := WithQueue(t, [])], [id, id], 0)
    ensures sweep.Sweeping? && Happens(f, sweep, f')
    ensures forall k :: k in KeysOf(t.state.queue) ==> (id, k) in Handed(sweep)
  {
    sweep := Sweeping(DrainedJobs(f.order, f.schedulers));
    var m := map[id := t];
    var swept := map[id := WithQueue(t, [])];
    assert [id, id][..1] == [id] && [id][..0] == [];
    assert DrainedSchedulers([], m) == m && DrainedJobs([], m) == [];
    assert DrainedSchedulers([id], m) == swept && DrainedJobs([id], m) == JobsOf(id, t.state.queue);
    assert !Ready(swept, id);
    assert DrainedJobs([id, id], m) == JobsOf(id, t.state.queue);
    forall k | k in KeysOf(t.state.queue) ensures (id, k) in Handed(sweep) {
      var i :| 0 <= i < |t.state.queue| && KeyOf(t.state.queue[i]) == k;
      var job := Job(id, t.state.queue[i]);
      assert JobsOf(id, t.state.queue)[i] == job;
    }
  }

  lemma AddsTwice(id: Id, t: Tenant, f0: Fleet, f1: Fleet, f2: Fleet)
    requires t.state == Started(t.blocks) && f0 == Fleet([], map[], [], 0)
    requires f1 == Fleet([], map[id := t], [id], 0) && f2 == Fleet([], map[id := t], [id, id], 0)
    ensures var add := Adding(id, t.blocks, t.contexts); Happens(f0, add, f1) && Happens(f1, add, f2)
  {
  }

  lemma CancelsOne(id: Id, t: Tenant, f: Fleet, f': Fleet)
    requires f == Fleet([], map[id := t], [id, id], 0)
    requires f' == Fleet([], map[id := t.(state := Halted(t.state))], [id], 0)
    ensures Happens(f, Cancelling(id), f')
  {
    assert f.order[0] == id && f.order[..0] + f.order[1..] == f'.order;
  }

  /** Added twice, swept, and cancelled once. */
  lemma AddedTwiceThenCancelled(id: Id, t: Tenant) returns (fs: seq<Fleet>, es: seq<Event>)
    requires t.state == Started(t.blocks) && t.state.queue != []
    ensures Run(fs, es) && AllSolicited(fs, es, {}) && fs[0] == Fleet([], map[], [], 0)
    ensures var add := Adding(id, t.blocks, t.contexts);
            |es| == 4 && es == [add, add, es[2], Cancelling(id)] && es[2].Sweeping?
    ensures forall k :: k in KeysOf(t.state.queue) ==> (id, k) in Handed(es[2])
    ensures fs[4] == Fleet([], map[id := t.(state := Halted(t.state))], [id], 0)
  {
    var f0, f1, f2 := Fleet([], map[], [], 0), Fleet([], map[id := t], [id], 0), Fleet([], map[id := t], [id, id], 0);
    var swept := WithQueue(t, []);
    var f3 := Fleet([], map[id := swept], [id, id], 0);
    var f4 := Fleet([], map[id := t.(state := Halted(t.state))], [id], 0);
    AddsTwice(id, t, f0, f1, f2);
    var add := Adding(id, t.blocks, t.contexts);
    var sweep := SweptTwice(id, t, f2, f3);
    CancelsOne(id, swept, f3, f4);
    fs, es := FourEvents(f0, add, f1, add, f2, sweep, f3, Cancelling(id), f4);
  }

  lemma SourceIsQueued(blocks: seq<Block>, b: Block)
    requires UniqueIds(blocks) && ReferencesKnown(blocks) && b in blocks && b.inputs == []
    ensures Base(b.id) in KeysOf(Started(blocks).queue)
  {
    AddBlocksIs(Plan(blocks, map[], map[]), blocks);
    assert HasBlock(blocks, b.id, false);
  }

  lemma RevivedByFirst(t: Tenant, out: Out, id: Id)
    requires t.contexts == map[1 := {2}] && (id, Base(1)) in out && 1 !in t.state.completed
    requires FindBlock(t.blocks, 2).inputs == [Bare(1)]
    ensures CanRevive(t, out, id)
  {
    assert (id, Base(1)).1.id in OutIds(out, id);
    assert Revives(t, out, id, t.state.completed + OutIds(out, id), 1, 2);
  }

  /** A pipeline that is listed twice, and cancelled while its map is at work,
      is heard again once the map reports. */
  lemma ListedTwiceIsHeard() returns (fs: seq<Fleet>, es: seq<Event>)
    ensures Run(fs, es) && AllSolicited(fs, es, {}) && fs[0] == Fleet([], map[], [], 0)
    ensures var add := Adding(7, MAP_REDUCE, map[1 := {2}]);
            |es| == 4 && es == [add, add, es[2], Cancelling(7)] && es[2].Sweeping?
    ensures !SilentWhenAnswered(fs[4], Handed(es[2]), 7)
  {
    var t := Tenant(MAP_REDUCE, map[1 := {2}], Started(MAP_REDUCE));
    MapReduceBlocks();
    SourceIsQueued(MAP_REDUCE, MAP_REDUCE[0]);
    AddBlocksIs(Plan(MAP_REDUCE, map[], map[]), MAP_REDUCE);
    fs, es := AddedTwiceThenCancelled(7, t);
    RevivedByFirst(fs[4].schedulers[7], Handed(es[2]), 7);
    SilentIff(fs[4], Handed(es[2]), 7);
  }
}
