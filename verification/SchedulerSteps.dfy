// Every scheduler step keeps the invariant.  Completing a block and expanding a
// map are both seen as one launch: the pool of not yet launched invocations is
// split by readiness, and the ready ones join the queue together.
module SchedulerSteps {
  import opened Digraphs
  import opened Pipelines
  import opened DependencyGraphs
  import opened SchedulerState
  import opened SchedulerInvariant

  // ---- Launching from a pool -------------------------------------------------------

  /** Invocations that may be launched once `completed` has finished. */
  ghost predicate PoolWithin(p: Plan, sys: System, completed: set<Id>, pool: map<Key, Invocation>) {
    && (forall k :: k in pool ==> p.Instance(k, completed) && k !in sys.Launched())
    && (forall k :: k in pool ==> k.id in Ids(p.blocks) && pool[k] == p.InvocationFor(k))
  }

  ghost predicate PoolCovers(p: Plan, sys: System, completed: set<Id>, pool: map<Key, Invocation>) {
    forall k :: p.Instance(k, completed) && k !in sys.Launched() ==> k in pool
  }

  ghost predicate LaunchesIn(p: Plan, s: State, completed: set<Id>, pool: map<Key, Invocation>, order: seq<Key>,
                             s': State)
  {
    && AtMostTwice(order)
    && (forall k :: k in order <==> k in pool && p.DepsIn(k.id, completed))
    && s' == State(pool - ToSet(order), s.queue + Pick(pool, order), completed, s.cancelled)
  }

  /** No block that has launched gets expanded afterwards, nor waits in the pool. */
  ghost predicate LaunchedSettled(p: Plan, sys: System, completed: set<Id>, pool: map<Key, Invocation>) {
    && (forall k, m :: k in sys.Launched() && p.Under(m, k.id) && m in completed ==> m in sys.s.completed)
    && (forall j, k :: j in pool && k in sys.Launched() ==> j.id != k.id)
  }

  lemma InstanceUnchanged(p: Plan, before: set<Id>, after: set<Id>, k: Key)
    requires before <= after
    requires forall m :: p.Under(m, k.id) && m in after ==> m in before
    ensures p.Instance(k, after) <==> p.Instance(k, before)
  {
    if p.Expanded(k.id, after) {
      var m :| p.Under(m, k.id) && m in after;
      assert m in before;
    }
    if k.Mapped? && p.Instance(k, after) {
      var m :| p.Under(m, k.id) && m in after && m in p.fan && k.index < p.fan[m];
      assert m in before;
    }
    if k.Mapped? && p.Instance(k, before) {
      var m :| p.Under(m, k.id) && m in before && m in p.fan && k.index < p.fan[m];
      assert m in after;
    }
  }

  lemma OldOrderKept(p: Plan, sys: System, completed: set<Id>)
    requires Inv(p, sys) && sys.s.completed <= completed
    requires forall k, m :: k in sys.Launched() && p.Under(m, k.id) && m in completed ==> m in sys.s.completed
    ensures LaunchOrder(p, completed, sys.Launched())
  {
    var l := sys.Launched();
    forall i, d, j | 0 <= i < |l| && p.DependsOn(l[i].id, d) && p.Instance(j, completed) && j.id == d
      ensures j in l[..i]
    {
      assert AfterDependencies(p, sys.s.completed, l[i], l[..i]);
      assert l[i] in l && d in sys.s.completed;
      var r :| r in sys.reported && r.id == d;
      assert r in sys.Launched();
      InstanceUnchanged(p, sys.s.completed, completed, j);
    }
  }

  lemma NewOrderHolds(p: Plan, sys: System, completed: set<Id>, reported: set<Key>, pool: map<Key, Invocation>, k: Key)
    requires PoolCovers(p, sys, completed, pool) && LaunchedSettled(p, sys, completed, pool)
    requires forall b :: b in completed ==> HasReported(reported, b)
    requires forall r :: r in reported ==> r in sys.taken
    requires p.DepsIn(k.id, completed)
    ensures AfterDependencies(p, completed, k, sys.Launched())
  {
    forall d, j | p.DependsOn(k.id, d) && p.Instance(j, completed) && j.id == d
      ensures j in sys.Launched()
    {
      assert HasReported(reported, d);
      var r :| r in reported && r.id == d;
      assert r in sys.Launched();
    }
  }

  lemma LaunchPreservesOrder(p: Plan, sys: System, completed: set<Id>, reported: set<Key>,
                             pool: map<Key, Invocation>, order: seq<Key>)
    requires Inv(p, sys) && sys.s.completed <= completed
    requires PoolCovers(p, sys, completed, pool) && LaunchedSettled(p, sys, completed, pool)
    requires forall b :: b in completed ==> HasReported(reported, b)
    requires forall r :: r in reported ==> r in sys.taken
    requires forall k :: k in order ==> p.DepsIn(k.id, completed)
    ensures LaunchOrder(p, completed, sys.Launched() + order)
  {
    var l := sys.Launched();
    var l' := l + order;
    OldOrderKept(p, sys, completed);
    forall i | 0 <= i < |l'| ensures AfterDependencies(p, completed, l'[i], l'[..i]) {
      if i < |l| {
        assert l'[..i] == l[..i] && l'[i] == l[i];
      } else {
        assert l'[i] in order;
        NewOrderHolds(p, sys, completed, reported, pool, l'[i]);
        assert l'[..i] == l + order[..i - |l|];
        forall j | j in l ensures j in l'[..i] {}
      }
    }
  }

  lemma LaunchPlaces(p: Plan, sys: System, completed: set<Id>, pool: map<Key, Invocation>, order: seq<Key>,
                     sys': System)
    requires Safe(p, sys) && sys.s.completed <= completed
    requires PoolWithin(p, sys, completed, pool) && LaunchedSettled(p, sys, completed, pool)
    requires LaunchesIn(p, sys.s, completed, pool, order, sys'.s) && sys'.taken == sys.taken
    ensures sys'.Launched() == sys.Launched() + order
    ensures WellFormed(p, sys') && Placed(p, sys') && AtMostTwice(sys'.Launched())
    ensures Repeats(sys') <==> Repeats(sys) || !NoDuplicates(order)
  {
    LaunchExtends(p, sys, completed, pool, order, sys');
    var l := sys.Launched();
    forall k | k in l ensures k !in order && p.Instance(k, completed) {
      InstanceUnchanged(p, sys.s.completed, completed, k);
    }
    AtMostTwiceConcat(l, order);
    ApartConcat(l, order);
  }

  lemma ApartConcat(a: seq<Key>, b: seq<Key>)
    requires forall k :: k in a ==> k !in b
    ensures NoDuplicates(a + b) <==> NoDuplicates(a) && NoDuplicates(b)
  {
    if NoDuplicates(a) && NoDuplicates(b) { NoDuplicatesConcat(a, b); }
    if NoDuplicates(a + b) { NoDuplicatesParts(a, b); }
  }

  lemma LaunchExtends(p: Plan, sys: System, completed: set<Id>, pool: map<Key, Invocation>, order: seq<Key>,
                      sys': System)
    requires WellFormed(p, sys)
    requires forall k :: k in pool ==> k.id in Ids(p.blocks) && pool[k] == p.InvocationFor(k)
    requires LaunchesIn(p, sys.s, completed, pool, order, sys'.s) && sys'.taken == sys.taken
    ensures sys'.Launched() == sys.Launched() + order
    ensures WellFormed(p, sys')
  {
    PickInvocations(p, pool, order);
    KeysOfInvocationsFor(p, order);
    KeysOfConcat(sys.s.queue, InvocationsFor(p, order));
    assert sys'.Launched() == sys.Launched() + order;
    forall inv | inv in InvocationsFor(p, order) ensures inv.id in Ids(p.blocks) && inv == p.InvocationFor(KeyOf(inv)) {
      InvocationsForIn(p, order, inv);
    }
  }

  lemma KeysOfInvocationsFor(p: Plan, keys: seq<Key>)
    requires forall k :: k in keys ==> k.id in Ids(p.blocks)
    ensures KeysOf(InvocationsFor(p, keys)) == keys
  {
    forall i | 0 <= i < |keys| ensures KeyOf(p.InvocationFor(keys[i])) == keys[i] {
      KeyOfInvocationFor(p, keys[i]);
    }
  }

  lemma InvocationsForIn(p: Plan, keys: seq<Key>, inv: Invocation)
    requires forall k :: k in keys ==> k.id in Ids(p.blocks)
    requires inv in InvocationsFor(p, keys)
    ensures inv.id in Ids(p.blocks) && inv == p.InvocationFor(KeyOf(inv))
  {
    var i :| 0 <= i < |keys| && InvocationsFor(p, keys)[i] == inv;
    KeyOfInvocationFor(p, keys[i]);
  }

  lemma LaunchIsSafe(p: Plan, sys: System, completed: set<Id>, pool: map<Key, Invocation>, order: seq<Key>,
                     sys': System)
    requires Safe(p, sys) && sys.s.completed <= completed
    requires PoolWithin(p, sys, completed, pool) && LaunchedSettled(p, sys, completed, pool)
    requires LaunchesIn(p, sys.s, completed, pool, order, sys'.s)
    requires sys'.taken == sys.taken && CompletedHasReported(p, sys')
    ensures Safe(p, sys') && sys'.Launched() == sys.Launched() + order
    ensures Repeats(sys') <==> Repeats(sys) || !NoDuplicates(order)
  {
    LaunchPlaces(p, sys, completed, pool, order, sys');
    forall j, k | j in sys'.s.pending && k in sys'.Launched() ensures j.id != k.id {
      assert j in pool && j !in order;
      assert k in sys.Launched() || k in order;
    }
    forall k | k in sys'.Launched() ensures p.DepsIn(k.id, completed) {
      assert k in sys.Launched() || k in order;
    }
  }

  lemma LaunchPreserves(p: Plan, sys: System, completed: set<Id>, reported: set<Key>,
                        pool: map<Key, Invocation>, order: seq<Key>, sys': System)
    requires Inv(p, sys) && sys.s.completed <= completed
    requires PoolWithin(p, sys, completed, pool) && PoolCovers(p, sys, completed, pool)
    requires LaunchedSettled(p, sys, completed, pool)
    requires LaunchesIn(p, sys.s, completed, pool, order, sys'.s)
    requires sys'.taken == sys.taken && sys'.reported == reported
    requires CompletedHasReported(p, sys') && ReportedCompletes(p, sys')
    ensures Inv(p, sys') && sys'.Launched() == sys.Launched() + order
    ensures Repeats(sys') <==> Repeats(sys) || !NoDuplicates(order)
  {
    LaunchIsSafe(p, sys, completed, pool, order, sys');
    LaunchPreservesOrder(p, sys, completed, reported, pool, order);
  }

  lemma CompletedGrows(p: Plan, sys: System, k: Key, sys': System)
    requires CompletedHasReported(p, sys) && k in sys.taken && p.Effective(k.id)
    requires sys'.taken == sys.taken && sys'.reported == sys.reported + {k}
    requires sys'.s.completed == sys.s.completed + {k.id}
    ensures CompletedHasReported(p, sys')
    ensures ReportedCompletes(p, sys) ==> ReportedCompletes(p, sys')
  {
    assert k in sys'.reported;
    forall b | b in sys.s.completed ensures HasReported(sys'.reported, b) {
      var r :| r in sys.reported && r.id == b;
      assert r in sys'.reported;
    }
    if ReportedCompletes(p, sys) {
      forall b | p.Effective(b) && HasReported(sys'.reported, b) ensures b in sys'.s.completed {
        var r :| r in sys'.reported && r.id == b;
        assert r == k || HasReported(sys.reported, b);
      }
    }
  }

  // ---- Completing a block --------------------------------------------------------

  lemma CompleteLaunches(p: Plan, sys: System, k: Key, s': State) returns (order: seq<Key>)
    requires p.Sound() && Safe(p, sys) && k.id !in p.contexts
    requires Promotes(sys.s.(completed := sys.s.completed + {k.id}), s')
    ensures var completed := sys.s.completed + {k.id};
            && PoolWithin(p, sys, completed, sys.s.pending) && LaunchedSettled(p, sys, completed, sys.s.pending)
            && LaunchesIn(p, sys.s, completed, sys.s.pending, order, s') && NoDuplicates(order)
            && (AllPlaced(p, sys) ==> PoolCovers(p, sys, completed, sys.s.pending))
  {
    var completed := sys.s.completed + {k.id};
    var s := sys.s.(completed := completed);
    order :| PromotesIn(s, order, s');
    AtMostOnce(order);
    ReadyKeysAre(p, s);
    forall j ensures p.Instance(j, completed) <==> p.Instance(j, sys.s.completed) {
      InstanceUnchanged(p, sys.s.completed, completed, j);
    }
  }

  /** A completion is safe in whatever state it arrives. */
  lemma CompleteIsSafe(p: Plan, sys: System, k: Key, sys': System)
    requires p.Sound() && Safe(p, sys) && k in sys.taken && k.id !in p.contexts
    requires Promotes(sys.s.(completed := sys.s.completed + {k.id}), sys'.s)
    requires sys'.taken == sys.taken && sys'.reported == sys.reported + {k}
    ensures Safe(p, sys') && (Repeats(sys') <==> Repeats(sys))
  {
    var order := CompleteLaunches(p, sys, k, sys'.s);
    CompletedGrows(p, sys, k, sys');
    LaunchIsSafe(p, sys, sys.s.completed + {k.id}, sys.s.pending, order, sys');
  }

  lemma CompletePreserves(p: Plan, sys: System, k: Key, sys': System)
    requires p.Sound() && Inv(p, sys) && k in sys.taken && k.id !in p.contexts
    requires Promotes(sys.s.(completed := sys.s.completed + {k.id}), sys'.s)
    requires sys'.taken == sys.taken && sys'.reported == sys.reported + {k}
    ensures Inv(p, sys') && sys.Launched() <= sys'.Launched() && (Repeats(sys') <==> Repeats(sys))
  {
    var order := CompleteLaunches(p, sys, k, sys'.s);
    CompletedGrows(p, sys, k, sys');
    LaunchPreserves(p, sys, sys.s.completed + {k.id}, sys'.reported, sys.s.pending, order, sys');
  }

  // ---- Expanding a map -----------------------------------------------------------

  /** Until a map completes, nothing of its context has been launched. */
  lemma ContextWaits(p: Plan, sys: System, m: Id)
    requires p.Sound() && Safe(p, sys) && m !in sys.s.completed
    ensures forall b :: p.Under(m, b) ==> b !in sys.s.completed && !HasLaunched(sys, b)
  {
    ContextIsBelow(p, m);
    DownstreamWaits(p, sys, m);
  }

  ghost function InvocationsFor(p: Plan, keys: seq<Key>): seq<Invocation>
    requires forall k :: k in keys ==> k.id in Ids(p.blocks)
  {
    seq(|keys|, i requires 0 <= i < |keys| => p.InvocationFor(keys[i]))
  }

  ghost function MappedKeys(b: Id, n: nat): seq<Key> {
    seq(n, i requires 0 <= i < n => Mapped(b, i))
  }

  /** The keys a fan-out enqueues directly. */
  ghost function ReadyMapped(p: Plan, ids: seq<Id>, completed: set<Id>, n: nat): seq<Key> {
    if ids == [] then []
    else
      var last := ids[|ids| - 1];
      var rest := ReadyMapped(p, ids[..|ids| - 1], completed, n);
      if p.DepsIn(last, completed) then rest + MappedKeys(last, n) else rest
  }

  lemma {:induction false} ReadyMappedIn(p: Plan, ids: seq<Id>, completed: set<Id>, n: nat)
    requires NoDuplicates(ids)
    ensures NoDuplicates(ReadyMapped(p, ids, completed, n))
    ensures forall k :: k in ReadyMapped(p, ids, completed, n) <==>
              k.Mapped? && k.id in ids && k.index < n && p.DepsIn(k.id, completed)
  {
    if ids != [] {
      var last := ids[|ids| - 1];
      var rest := ids[..|ids| - 1];
      ReadyMappedIn(p, rest, completed, n);
      assert ids == rest + [last] && last !in rest;
      var added := MappedKeys(last, n);
      forall k ensures k in added <==> k.Mapped? && k.id == last && k.index < n {
        if k.Mapped? && k.id == last && k.index < n { assert added[k.index] == k; }
      }
    }
  }

  /** What the fan-out of `ids` has turned state s into. */
  ghost predicate FannedOut(p: Plan, s: State, ids: seq<Id>, n: nat, e: State) {
    && e.completed == s.completed && e.cancelled == s.cancelled
    && (forall k :: k in ReadyMapped(p, ids, s.completed, n) ==> k.id in Ids(p.blocks))
    && e.queue == s.queue + InvocationsFor(p, ReadyMapped(p, ids, s.completed, n))
    && (forall k :: k in e.pending <==>
          (k in s.pending && !(k.Base? && k.id in ids)) ||
          (k.Mapped? && k.id in ids && k.index < n && !p.DepsIn(k.id, s.completed)))
    && (forall k :: k in e.pending ==> k.id in Ids(p.blocks) && e.pending[k] == p.InvocationFor(k))
  }

  /** Whether taken from the pending map or from the document, the invocation
      that is fanned out is the block's own. */
  lemma OriginalIs(p: Plan, s: State, b: Id)
    requires UniqueIds(p.blocks) && b in Ids(p.blocks)
    requires Base(b) in s.pending ==> s.pending[Base(b)] == p.InvocationFor(Base(b))
    ensures Original(s, p.blocks, b) == p.InvocationFor(Base(b))
  {
    FindBlockFinds(p.blocks, p.BlockAt(b));
    InvocationForBase(p, p.BlockAt(b));
  }

  lemma FanOutReady(p: Plan, s: State, rest: seq<Id>, b: Id, n: nat, e: State)
    requires p.ValidBlocks() && FannedOut(p, s, rest, n, e)
    requires b !in rest && b in Ids(p.blocks) && p.DepsIn(b, s.completed)
    ensures FannedOut(p, s, rest + [b], n, ExpandBlock(e, p.blocks, b, n))
  {
    var ids := rest + [b];
    assert ids[..|ids| - 1] == rest;
    var original := p.InvocationFor(Base(b));
    OriginalIs(p, e, b);
    ReadyIffDepsIn(p, Base(b), s.completed);
    var before := ReadyMapped(p, rest, s.completed, n);
    assert Instances(original, n) == InvocationsFor(p, MappedKeys(b, n));
    InvocationsForConcat(p, before, MappedKeys(b, n));
  }

  lemma InstanceMapIs(p: Plan, b: Id, n: nat)
    requires b in Ids(p.blocks)
    ensures var m := InstanceMap(p.InvocationFor(Base(b)), n);
            && (forall k :: k in m <==> k.Mapped? && k.id == b && k.index < n)
            && (forall k :: k in m ==> m[k] == p.InvocationFor(k))
  {
  }

  lemma FanOutWaiting(p: Plan, s: State, rest: seq<Id>, b: Id, n: nat, e: State)
    requires p.ValidBlocks() && FannedOut(p, s, rest, n, e)
    requires b !in rest && b in Ids(p.blocks) && !p.DepsIn(b, s.completed)
    ensures FannedOut(p, s, rest + [b], n, ExpandBlock(e, p.blocks, b, n))
  {
    var ids := rest + [b];
    assert ids[..|ids| - 1] == rest;
    OriginalIs(p, e, b);
    ReadyIffDepsIn(p, Base(b), s.completed);
    var e' := ExpandBlock(e, p.blocks, b, n);
    InstanceMapIs(p, b, n);
    assert e'.pending == e.pending - {Base(b)} + InstanceMap(p.InvocationFor(Base(b)), n);
  }

  lemma {:induction false} ExpandAllFansOut(p: Plan, s: State, ids: seq<Id>, n: nat)
    requires p.ValidBlocks() && NoDuplicates(ids)
    requires forall b :: b in ids ==> b in Ids(p.blocks)
    requires forall k :: k in s.pending ==> k.id in Ids(p.blocks) && s.pending[k] == p.InvocationFor(k)
    ensures FannedOut(p, s, ids, n, ExpandAll(s, p.blocks, ids, n))
  {
    if ids == [] {
      assert s.queue + InvocationsFor(p, []) == s.queue;
    } else {
      var last := ids[|ids| - 1];
      var rest := ids[..|ids| - 1];
      assert ids == rest + [last] && last !in rest;
      ExpandAllFansOut(p, s, rest, n);
      if p.DepsIn(last, s.completed) {
        FanOutReady(p, s, rest, last, n, ExpandAll(s, p.blocks, rest, n));
      } else {
        FanOutWaiting(p, s, rest, last, n, ExpandAll(s, p.blocks, rest, n));
      }
    }
  }

  /** The invocations to choose from once map m has completed. */
  ghost function PoolAfterMap(p: Plan, e: State, ready: seq<Key>): map<Key, Invocation>
    requires forall k :: k in e.pending || k in ready ==> k.id in Ids(p.blocks)
  {
    map k | k in e.pending.Keys + ToSet(ready) :: p.InvocationFor(k)
  }

  lemma PoolAfterMapIs(p: Plan, sys: System, m: Id, ids: seq<Id>, e: State)
    requires p.Sound() && Safe(p, sys) && m in p.contexts && m !in sys.s.completed
    requires Enumerates(ids, p.contexts[m])
    requires FannedOut(p, sys.s.(completed := sys.s.completed + {m}), ids, p.fan[m], e)
    ensures var completed := sys.s.completed + {m};
            var pool := PoolAfterMap(p, e, ReadyMapped(p, ids, completed, p.fan[m]));
            && PoolWithin(p, sys, completed, pool) && LaunchedSettled(p, sys, completed, pool)
            && (AllPlaced(p, sys) ==> PoolCovers(p, sys, completed, pool))
  {
    var completed := sys.s.completed + {m};
    var n := p.fan[m];
    var pool := PoolAfterMap(p, e, ReadyMapped(p, ids, completed, n));
    ReadyMappedIn(p, ids, completed, n);
    ContextWaits(p, sys, m);
    forall k ensures k in pool <==> (k in sys.s.pending && !(k.Base? && p.Under(m, k.id)))
                                    || (k.Mapped? && p.Under(m, k.id) && k.index < n)
    {}
    forall k, b | k in sys.Launched() && p.Under(m, b) ensures k.id != b {
      assert !HasLaunched(sys, b);
    }
    forall k ensures p.Instance(k, completed) <==>
        (p.Instance(k, sys.s.completed) && !(k.Base? && p.Under(m, k.id)))
        || (k.Mapped? && p.Under(m, k.id) && k.index < n)
    {
      InstanceAfterMap(p, sys.s.completed, m, k);
    }
  }

  lemma InstanceAfterMap(p: Plan, before: set<Id>, m: Id, k: Key)
    requires p.fan.Keys == p.contexts.Keys && m in p.contexts && m !in before
    ensures p.Instance(k, before + {m}) <==>
            (p.Instance(k, before) && !(k.Base? && p.Under(m, k.id)))
            || (k.Mapped? && p.Under(m, k.id) && k.index < p.fan[m])
  {
    if k.Base? && p.Under(m, k.id) { assert m in before + {m}; }
    if k.Mapped? && p.Instance(k, before) {
      var m' :| p.Under(m', k.id) && m' in before && m' in p.fan && k.index < p.fan[m'];
      assert m' in before + {m};
    }
    if k.Mapped? && p.Under(m, k.id) && k.index < p.fan[m] { assert m in before + {m}; }
  }

  /** First what the fan-out enqueues, then what the readiness scan adds. */
  lemma MapOrder(p: Plan, s: State, ids: seq<Id>, n: nat, e: State, second: seq<Key>)
    requires p.ValidBlocks() && NoDuplicates(ids) && FannedOut(p, s, ids, n, e)
    requires Enumerates(second, ReadyKeys(e))
    ensures var first := ReadyMapped(p, ids, s.completed, n);
            && AtMostTwice(first + second)
            && (NoDuplicates(first + second) <==> !Doubles(p, s, ids, n))
            && (forall k :: k in first && k in e.pending ==> k in second)
            && (forall k :: k in first + second <==> k in PoolAfterMap(p, e, first) && p.DepsIn(k.id, s.completed))
  {
    var first := ReadyMapped(p, ids, s.completed, n);
    ReadyMappedIn(p, ids, s.completed, n);
    ReadyKeysAre(p, e);
    OnceThenOnce(first, second);
    forall k ensures k in first + second <==> k in first || k in second {}
    if k :| k in s.pending && k in first {
      InBoth(first, second, k);
    } else {
      NoDuplicatesConcat(first, second);
    }
  }

  /** Some ready block among `ids` still has an invocation pending that the
      fan-out launches again. */
  ghost predicate Doubles(p: Plan, s: State, ids: seq<Id>, n: nat) {
    exists k :: k in s.pending && k.Mapped? && k.id in ids && k.index < n && p.DepsIn(k.id, s.completed)
  }

  lemma InBoth(a: seq<Key>, b: seq<Key>, k: Key)
    requires k in a && k in b
    ensures !NoDuplicates(a + b)
  {
    var i :| 0 <= i < |a| && a[i] == k;
    var j :| 0 <= j < |b| && b[j] == k;
    assert (a + b)[i] == (a + b)[|a| + j];
  }

  lemma MapState(p: Plan, s: State, ids: seq<Id>, n: nat, e: State, second: seq<Key>, s': State)
    requires FannedOut(p, s, ids, n, e) && PromotesIn(e, second, s')
    requires forall k :: k in ReadyMapped(p, ids, s.completed, n) && k in e.pending ==> k in second
    requires var first := ReadyMapped(p, ids, s.completed, n);
             forall k :: k in first + second ==> k in PoolAfterMap(p, e, first)
    ensures var first := ReadyMapped(p, ids, s.completed, n);
            var pool := PoolAfterMap(p, e, first);
            s' == State(pool - ToSet(first + second), s.queue + Pick(pool, first + second), s.completed, s.cancelled)
  {
    var first := ReadyMapped(p, ids, s.completed, n);
    QueueAfterPromotion(p, s.queue, first, e, second, s');
    PickInvocations(p, PoolAfterMap(p, e, first), first + second);
    WithoutBoth(p, e, first, second);
  }

  lemma QueueAfterPromotion(p: Plan, q: seq<Invocation>, first: seq<Key>, e: State, second: seq<Key>, s': State)
    requires forall k :: k in first ==> k.id in Ids(p.blocks)
    requires forall k :: k in e.pending ==> k.id in Ids(p.blocks) && e.pending[k] == p.InvocationFor(k)
    requires e.queue == q + InvocationsFor(p, first) && PromotesIn(e, second, s')
    ensures forall k :: k in second ==> k.id in Ids(p.blocks)
    ensures s'.queue == q + InvocationsFor(p, first + second)
  {
    assert forall k :: k in second ==> k in ReadyKeys(e);
    PickInvocations(p, e.pending, second);
    InvocationsForConcat(p, first, second);
    assert q + (InvocationsFor(p, first) + InvocationsFor(p, second)) == e.queue + InvocationsFor(p, second);
  }

  lemma MapLaunches(p: Plan, s: State, ids: seq<Id>, n: nat, e: State, s': State)
    returns (order: seq<Key>)
    requires p.ValidBlocks() && NoDuplicates(ids) && FannedOut(p, s, ids, n, e) && Promotes(e, s')
    ensures LaunchesIn(p, s, s.completed, PoolAfterMap(p, e, ReadyMapped(p, ids, s.completed, n)), order, s')
    ensures NoDuplicates(order) <==> !Doubles(p, s, ids, n)
  {
    var second :| PromotesIn(e, second, s');
    MapOrder(p, s, ids, n, e, second);
    MapState(p, s, ids, n, e, second, s');
    order := ReadyMapped(p, ids, s.completed, n) + second;
  }

  lemma WithoutBoth(p: Plan, e: State, first: seq<Key>, second: seq<Key>)
    requires forall k :: k in e.pending ==> k.id in Ids(p.blocks) && e.pending[k] == p.InvocationFor(k)
    requires forall k :: k in first ==> k.id in Ids(p.blocks) && (k in e.pending ==> k in second)
    ensures e.pending - ToSet(second) == PoolAfterMap(p, e, first) - ToSet(first + second)
  {
  }

  lemma PickInvocations(p: Plan, pool: map<Key, Invocation>, order: seq<Key>)
    requires forall k :: k in order ==> k in pool && k.id in Ids(p.blocks) && pool[k] == p.InvocationFor(k)
    ensures Pick(pool, order) == InvocationsFor(p, order)
  {
  }

  lemma InvocationsForConcat(p: Plan, a: seq<Key>, b: seq<Key>)
    requires forall k :: k in a || k in b ==> k.id in Ids(p.blocks)
    ensures InvocationsFor(p, a + b) == InvocationsFor(p, a) + InvocationsFor(p, b)
  {
  }

  /** A block of the context is ready although another map has already left an
      invocation of it pending. */
  ghost predicate ClashesNow(p: Plan, s: State, m: Id) {
    exists k :: k in s.pending && k.Mapped? && p.Under(m, k.id) && p.DepsIn(k.id, s.completed + {m})
  }

  /** What lies above something launched has completed. */
  lemma LaunchedCanRun(p: Plan, sys: System, b: Id)
    requires p.Sound() && Safe(p, sys) && HasLaunched(sys, b)
    ensures p.CanRun(b)
    ensures forall x :: Reaches(EdgesOf(p.blocks), x, b) ==> x in sys.s.completed
  {
    forall x | Reaches(EdgesOf(p.blocks), x, b) ensures x in sys.s.completed {
      if x !in sys.s.completed { DownstreamWaits(p, sys, x); }
    }
  }

  /** What lies above a block whose dependencies are `ready`, each completed or
      launched, is completed or among them. */
  lemma AboveReady(p: Plan, sys: System, x: Id, b: Id, ready: set<Id>)
    requires p.Sound() && Safe(p, sys) && Reaches(EdgesOf(p.blocks), x, b) && p.DepsIn(b, ready)
    requires forall d :: d in ready ==> d in sys.s.completed || HasLaunched(sys, d)
    ensures x in sys.s.completed || (x in ready && p.DependsOn(b, x))
  {
    var d := LastStep(EdgesOf(p.blocks), x, b);
    assert p.DependsOn(b, d);
    if d != x && x !in sys.s.completed {
      DownstreamWaits(p, sys, x);
    }
  }

  lemma MadeReadyCanRun(p: Plan, sys: System, m: Id, b: Id)
    requires p.Sound() && Safe(p, sys) && HasLaunched(sys, m) && p.Effective(m)
    requires p.DepsIn(b, sys.s.completed + {m})
    ensures p.CanRun(b)
  {
    forall x | Reaches(EdgesOf(p.blocks), x, b) ensures p.Effective(x) {
      AboveReady(p, sys, x, b, sys.s.completed + {m});
    }
  }

  lemma NothingBelow(p: Plan, sys: System, m: Id, b: Id)
    requires p.Sound() && Safe(p, sys) && m !in sys.s.completed && p.DepsIn(b, sys.s.completed + {m})
    ensures forall d :: p.DependsOn(b, d) && d != m ==> !Reaches(EdgesOf(p.blocks), m, d)
  {
    DownstreamWaits(p, sys, m);
  }

  lemma ClashOf(p: Plan, sys: System, m: Id, k: Key) returns (first: Id)
    requires p.Sound() && Safe(p, sys) && m !in sys.s.completed && HasLaunched(sys, m) && p.Effective(m)
    requires k in sys.s.pending && k.Mapped? && p.Under(m, k.id) && p.DepsIn(k.id, sys.s.completed + {m})
    ensures p.Clashes(first, m, k.id) && p.CanRun(k.id)
  {
    MadeReadyCanRun(p, sys, m, k.id);
    NothingBelow(p, sys, m, k.id);
    assert p.Instance(k, sys.s.completed) && !p.DepsIn(k.id, sys.s.completed);
    first :| p.Under(first, k.id) && first in sys.s.completed && first in p.fan && k.index < p.fan[first];
  }

  /** That happens only where the plan itself has two maps clash over a block
      that can run. */
  lemma ClashIsStatic(p: Plan, sys: System, m: Id)
    requires p.Valid() && Safe(p, sys) && m !in sys.s.completed && HasLaunched(sys, m) && p.Effective(m)
    ensures !ClashesNow(p, sys.s, m)
  {
    forall k | k in sys.s.pending && k.Mapped? && p.Under(m, k.id) ensures !p.DepsIn(k.id, sys.s.completed + {m}) {
      if p.DepsIn(k.id, sys.s.completed + {m}) {
        var first := ClashOf(p, sys, m, k);
      }
    }
  }

  lemma FirstSibling(p: Plan, completed: set<Id>, k: Key)
    requires k.Mapped? && p.Instance(k, completed)
    ensures p.Instance(Mapped(k.id, 0), completed)
  {
    var m :| p.Under(m, k.id) && m in completed && m in p.fan && k.index < p.fan[m];
    assert 0 < p.fan[m];
  }

  lemma FirstSiblingPends(p: Plan, sys: System, m: Id, k: Key)
    requires p.Sound() && Safe(p, sys) && AllPlaced(p, sys) && m !in sys.s.completed
    requires k in sys.s.pending && k.Mapped? && p.Under(m, k.id)
    ensures Mapped(k.id, 0) in sys.s.pending
  {
    FirstSibling(p, sys.s.completed, k);
    ContextWaits(p, sys, m);
    assert !HasLaunched(sys, k.id);
  }

  lemma MapFansOut(p: Plan, sys: System, m: Id, s': State) returns (pool: map<Key, Invocation>, order: seq<Key>)
    requires p.Sound() && Safe(p, sys) && m in p.contexts && m !in sys.s.completed && p.fan[m] > 0
    requires Updates(p.blocks, p.contexts, sys.s, MapDone(m, p.fan[m]), s')
    ensures var completed := sys.s.completed + {m};
            && PoolWithin(p, sys, completed, pool) && LaunchedSettled(p, sys, completed, pool)
            && LaunchesIn(p, sys.s, completed, pool, order, s')
            && (AllPlaced(p, sys) ==> PoolCovers(p, sys, completed, pool))
    ensures !ClashesNow(p, sys.s, m) ==> NoDuplicates(order)
    ensures AllPlaced(p, sys) && ClashesNow(p, sys.s, m) ==> !NoDuplicates(order)
  {
    var n := p.fan[m];
    var completed := sys.s.completed + {m};
    var s := sys.s.(completed := completed);
    var e :| HandlesMap(p.blocks, p.contexts, sys.s, m, n, e) && Promotes(e, s');
    var ids :| HandlesMapIn(p.blocks, p.contexts, sys.s, m, n, ids, e);
    assert forall b :: b in ids <==> p.Under(m, b);
    ExpandAllFansOut(p, s, ids, n);
    order := MapLaunches(p, s, ids, n, e, s');
    PoolAfterMapIs(p, sys, m, ids, e);
    pool := PoolAfterMap(p, e, ReadyMapped(p, ids, completed, n));
    if AllPlaced(p, sys) && ClashesNow(p, sys.s, m) {
      var k: Key :| k in sys.s.pending && k.Mapped? && p.Under(m, k.id) && p.DepsIn(k.id, completed);
      FirstSiblingPends(p, sys, m, k);
      assert Doubles(p, s, ids, n);
    }
  }

  /** A map result is safe in whatever state it arrives; it launches something
      twice only if it clashes with an earlier expansion. */
  lemma MapIsSafe(p: Plan, sys: System, m: Id, sys': System)
    requires p.Sound() && Safe(p, sys) && Base(m) in sys.taken && m in p.contexts
    requires m !in sys.s.completed && p.fan[m] > 0
    requires Updates(p.blocks, p.contexts, sys.s, MapDone(m, p.fan[m]), sys'.s)
    requires sys'.taken == sys.taken && sys'.reported == sys.reported + {Base(m)}
    ensures Safe(p, sys') && (Repeats(sys) ==> Repeats(sys'))
    ensures Repeats(sys') ==> Repeats(sys) || ClashesNow(p, sys.s, m)
  {
    var pool, order := MapFansOut(p, sys, m, sys'.s);
    CompletedGrows(p, sys, Base(m), sys');
    LaunchIsSafe(p, sys, sys.s.completed + {m}, pool, order, sys');
  }

  lemma MapPreserves(p: Plan, sys: System, m: Id, sys': System)
    requires p.Sound() && Inv(p, sys) && Base(m) in sys.taken && m in p.contexts
    requires m !in sys.s.completed && p.fan[m] > 0
    requires Updates(p.blocks, p.contexts, sys.s, MapDone(m, p.fan[m]), sys'.s)
    requires sys'.taken == sys.taken && sys'.reported == sys.reported + {Base(m)}
    ensures Inv(p, sys') && sys.Launched() <= sys'.Launched()
    ensures Repeats(sys') <==> Repeats(sys) || ClashesNow(p, sys.s, m)
  {
    var pool, order := MapFansOut(p, sys, m, sys'.s);
    CompletedGrows(p, sys, Base(m), sys');
    LaunchPreserves(p, sys, sys.s.completed + {m}, sys'.reported, pool, order, sys');
  }
}
