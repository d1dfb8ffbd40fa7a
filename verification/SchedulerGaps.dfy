// Two promises one result keeps only under a condition, in whatever state it
// arrives: an invocation is launched once (unless a map result makes a block
// ready that still holds invocations of another map), and a failed or cancelled
// pipeline stays halted (unless a map result expands a context).
module SchedulerGaps {
  import opened Digraphs
  import opened Pipelines
  import opened DependencyGraphs
  import opened SchedulerState
  import opened SchedulerInvariant
  import opened SchedulerSteps

  // ---- Two maps feeding one block ------------------------------------------------------

  /** A block of the expanded context is ready although another map has already
      left an invocation of it pending. */
  ghost predicate AlreadyExpandedAndReady(p: Plan, s: State, m: Id, n: nat) {
    exists b, i: nat :: p.Under(m, b) && i < n && p.DepsIn(b, s.completed + {m}) && Mapped(b, i) in s.pending
  }

  ghost predicate PendingAreBlocks(p: Plan, s: State) {
    forall k :: k in s.pending ==> k.id in Ids(p.blocks) && s.pending[k] == p.InvocationFor(k)
  }

  lemma LaunchedByMap(p: Plan, s: State, m: Id, n: nat, s': State) returns (first: seq<Key>, second: seq<Key>)
    requires p.ValidBlocks() && m in p.contexts && n > 0 && (forall b :: p.Under(m, b) ==> b in Ids(p.blocks))
    requires PendingAreBlocks(p, s)
    requires Updates(p.blocks, p.contexts, s, MapDone(m, n), s')
    ensures s.queue <= s'.queue && KeysOf(s'.queue[|s.queue|..]) == first + second
    ensures NoDuplicates(first) && NoDuplicates(second)
    ensures forall k :: k in first <==>
            k.Mapped? && p.Under(m, k.id) && k.index < n && p.DepsIn(k.id, s.completed + {m})
    ensures forall k :: k in first ==> (k in second <==> k in s.pending)
  {
    var e :| HandlesMap(p.blocks, p.contexts, s, m, n, e) && Promotes(e, s');
    var ids: seq<Id> :| HandlesMapIn(p.blocks, p.contexts, s, m, n, ids, e);
    var started := s.(completed := s.completed + {m});
    assert forall b :: b in ids <==> p.Under(m, b);
    ExpandAllFansOut(p, started, ids, n);
    first := ReadyMapped(p, ids, started.completed, n);
    ReadyMappedIn(p, ids, started.completed, n);
    second :| PromotesIn(e, second, s');
    BatchIs(p, started, e, first, second, s');
    BatchOverlap(p, started, ids, n, e, second);
  }

  lemma BatchIs(p: Plan, s: State, e: State, first: seq<Key>, second: seq<Key>, s': State)
    requires forall k :: k in first ==> k.id in Ids(p.blocks)
    requires PendingAreBlocks(p, e)
    requires e.queue == s.queue + InvocationsFor(p, first) && PromotesIn(e, second, s')
    ensures s.queue <= s'.queue && KeysOf(s'.queue[|s.queue|..]) == first + second
  {
    QueueAfterPromotion(p, s.queue, first, e, second, s');
    assert s'.queue[|s.queue|..] == InvocationsFor(p, first + second);
    KeysOfInvocationsFor(p, first + second);
  }

  lemma BatchOverlap(p: Plan, s: State, ids: seq<Id>, n: nat, e: State, second: seq<Key>)
    requires p.ValidBlocks() && NoDuplicates(ids) && FannedOut(p, s, ids, n, e) && Enumerates(second, ReadyKeys(e))
    ensures forall k :: k in ReadyMapped(p, ids, s.completed, n) ==> (k in second <==> k in s.pending)
  {
    ReadyMappedIn(p, ids, s.completed, n);
    ReadyKeysAre(p, e);
  }

  /** One map result launches some invocation twice exactly when a block of its
      context is ready while still holding invocations from another map. */
  lemma LaunchedOnceIff(p: Plan, s: State, m: Id, n: nat, s': State)
    requires p.ValidBlocks() && m in p.contexts && n > 0 && (forall b :: p.Under(m, b) ==> b in Ids(p.blocks))
    requires PendingAreBlocks(p, s)
    requires Updates(p.blocks, p.contexts, s, MapDone(m, n), s')
    ensures s.queue <= s'.queue
    ensures NoDuplicates(KeysOf(s'.queue[|s.queue|..])) <==> !AlreadyExpandedAndReady(p, s, m, n)
  {
    var first, second := LaunchedByMap(p, s, m, n, s');
    var batch := first + second;
    if AlreadyExpandedAndReady(p, s, m, n) {
      var b, i: nat :| p.Under(m, b) && i < n && p.DepsIn(b, s.completed + {m}) && Mapped(b, i) in s.pending;
      var k := Mapped(b, i);
      assert k in first && k in second;
      var x :| 0 <= x < |first| && first[x] == k;
      var y :| 0 <= y < |second| && second[y] == k;
      assert batch[x] == batch[|first| + y];
    } else {
      forall k | k in first ensures k !in second {
        assert p.Under(m, k.id);
      }
      NoDuplicatesConcat(first, second);
    }
  }

  // ---- After a failure or a cancellation ------------------------------------------------

  ghost predicate NothingWaits(s: State) {
    s.pending == map[] && s.queue == []
  }

  lemma ExpandBlockLeavesWork(s: State, blocks: seq<Block>, id: Id, n: nat)
    requires n > 0
    ensures !NothingWaits(ExpandBlock(s, blocks, id, n))
  {
    var original := Original(s, blocks, id);
    var e := ExpandBlock(s, blocks, id, n);
    if DepsDone(original.inputs, s.completed) {
      assert |Instances(original, n)| == n;
    } else {
      assert Mapped(original.id, 0) in InstanceMap(original, n);
      assert Mapped(original.id, 0) in e.pending;
    }
  }

  lemma PromotesKeepsWork(s: State, s': State)
    requires Promotes(s, s')
    ensures NothingWaits(s') <==> NothingWaits(s)
  {
    var order :| PromotesIn(s, order, s');
    if NothingWaits(s) {
      NoDuplicatesCard(order, {});
    }
    if k :| k in s.pending && k !in order {
      assert k in s'.pending;
    }
  }

  /** A halted pipeline stays halted when a result arrives, except exactly when
      that result expands a map with a non-empty context. */
  lemma StaysHaltedIff(blocks: seq<Block>, contexts: Contexts, s: State, r: BlockResult, s': State)
    requires NothingWaits(s) && Updates(blocks, contexts, s, r, s')
    ensures NothingWaits(s') <==> !(r.MapDone? && r.count > 0 && r.id in contexts && contexts[r.id] != {})
  {
    match r
    case Failed(_) =>
    case Complete(id) =>
      PromotesKeepsWork(s.(completed := s.completed + {id}), s');
    case MapDone(id, n) =>
      var mid :| HandlesMap(blocks, contexts, s, id, n, mid) && Promotes(mid, s');
      PromotesKeepsWork(mid, s');
      if n > 0 && id in contexts {
        var ids: seq<Id> :| HandlesMapIn(blocks, contexts, s, id, n, ids, mid);
        if contexts[id] == {} {
          NoDuplicatesCard(ids, {});
        } else {
          var b :| b in contexts[id];
          assert b in ids;
          var rest := ids[..|ids| - 1];
          ExpandBlockLeavesWork(ExpandAll(s.(completed := s.completed + {id}), blocks, rest, n), blocks, ids[|ids| - 1],
            n);
        }
      }
  }
}
