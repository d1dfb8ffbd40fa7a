// SinglePipelineScheduler (core/scheduler.go): the mutable scheduler of one pipeline.
module PipelineScheduler {
  import opened Digraphs
  import opened Pipelines
  import opened DependencyGraphs
  import opened MapContexts
  import opened SchedulerState

  class Scheduler {
    var blocks: seq<Block>
    var cancelled: bool
    var executable: seq<Invocation>
    var completed: map<Id, BlockResult>
    var pending: map<Key, Invocation>
    var contexts: Contexts
    var graph: DependencyGraph

    /** The abstract state the operations are specified on. */
    ghost function Current(): State
      reads this
    {
      State(pending, executable, completed.Keys, cancelled)
    }

    constructor ()
      ensures blocks == [] && contexts == map[] && Current() == EMPTY
    {
      blocks := [];
      cancelled := false;
      executable := [];
      completed := map[];
      pending := map[];
      contexts := map[];
      graph := DependencyGraph(map[], map[], {});
    }

    method AddPipeline(pipeline: seq<Block>) returns (r: Result<()>)
      modifies this
      ensures blocks == pipeline && contexts == old(contexts)
      ensures r.Ok? <==> ReferencesKnown(pipeline)
      ensures r.Err? ==> Current() == old(Current()).(cancelled := false)
      ensures r.Ok? ==> Current() == AddBlocks(old(Current()).(cancelled := false), pipeline)
      ensures r.Ok? ==> IsGraphOf(graph, pipeline)
    {
      blocks := pipeline;
      cancelled := false;
      var g := BuildDependencyGraph(pipeline);
      if g.Err? {
        return Err(g.reason);
      }
      graph := g.value;
      for i := 0 to |pipeline|
        invariant blocks == pipeline && contexts == old(contexts) && graph == g.value
        invariant Current() == AddBlocks(old(Current()).(cancelled := false), pipeline[..i])
      {
        assert pipeline[..i + 1][..i] == pipeline[..i];
        var item := pipeline[i];
        if item.inputs == [] {
          executable := executable + [InvocationOf(item)];
        } else {
          pending := pending[Base(item.id) := InvocationOf(item)];
        }
      }
      assert pipeline[..|pipeline|] == pipeline;
      return Ok(());
    }

    method CancelPipeline()
      modifies this
      ensures Current() == Halted(old(Current()))
      ensures blocks == old(blocks) && contexts == old(contexts)
    {
      cancelled := true;
      pending := map[];
      executable := [];
    }

    method IsReady() returns (ready: bool)
      ensures ready <==> Current().queue != []
    {
      ready := |executable| > 0;
    }

    /** The head of the queue, or nothing; `done` only when nothing waits either. */
    method Next() returns (next: Option<Invocation>, done: bool)
      modifies this
      ensures blocks == old(blocks) && contexts == old(contexts)
      ensures old(executable) != [] ==>
                && next == Some(old(executable)[0]) && !done
                && Current() == old(Current()).(queue := old(executable)[1..])
      ensures old(executable) == [] ==>
                next == None && Current() == old(Current()) && (done <==> pending == map[])
    {
      if |executable| > 0 {
        next, done := Some(executable[0]), false;
        executable := executable[1..];
        return;
      }
      return None, |pending| == 0;
    }

    /** The keys that are ready, in whatever order the map yields them. */
    method CollectReady() returns (newlyExecutable: seq<Key>)
      ensures Enumerates(newlyExecutable, ReadyKeys(Current()))
    {
      newlyExecutable := [];
      var unseen := pending.Keys;
      while unseen != {}
        invariant unseen <= pending.Keys && NoDuplicates(newlyExecutable)
        invariant forall k :: k in newlyExecutable ==>
                  k in pending.Keys - unseen && DepsDone(pending[k].inputs, completed.Keys)
        invariant forall k :: k in pending && k !in unseen && DepsDone(pending[k].inputs, completed.Keys) ==>
                  k in newlyExecutable
        decreases unseen
      {
        var k :| k in unseen;
        unseen := unseen - {k};
        var allDepsCompleted := DepsDone(pending[k].inputs, completed.Keys);
        if allDepsCompleted {
          newlyExecutable := newlyExecutable + [k];
        }
      }
    }

    /** Moves the ready invocations to the queue. */
    method PromoteReady()
      modifies this
      ensures Promotes(old(Current()), Current())
      ensures blocks == old(blocks) && contexts == old(contexts) && completed == old(completed)
    {
      var newlyExecutable := CollectReady();
      ghost var before := Current();
      ghost var order := newlyExecutable;
      for i := 0 to |newlyExecutable|
        invariant blocks == old(blocks) && contexts == old(contexts) && completed == old(completed)
        invariant order == newlyExecutable && forall k :: k in order ==> k in before.pending
        invariant pending == before.pending - ToSet(order[..i])
        invariant executable == before.queue + Pick(before.pending, order[..i])
        invariant cancelled == before.cancelled
      {
        var k := newlyExecutable[i];
        assert order[..i + 1] == order[..i] + [k];
        assert k !in order[..i];
        executable := executable + [pending[k]];
        pending := pending - {k};
      }
      assert order[..|order|] == order;
      assert PromotesIn(before, order, Current());
    }

    /** N invocations of one mapped block. */
    method FanOut(id: Id, n: nat)
      modifies this
      ensures Current() == ExpandBlock(old(Current()), blocks, id, n)
      ensures blocks == old(blocks) && contexts == old(contexts) && completed == old(completed)
    {
      var original := if Base(id) in pending then pending[Base(id)] else FindBlock(blocks, id);
      ghost var before := Current();
      ExpandBlockStarts(before, blocks, id);
      pending := pending - {Base(id)};
      for i := 0 to n
        invariant blocks == old(blocks) && contexts == old(contexts) && completed == old(completed)
        invariant Current() == ExpandBlock(before, blocks, id, i)
      {
        ExpandBlockGrows(before, blocks, id, i);
        var inv := original.(index := Some(i));
        var allDepsCompleted := DepsDone(inv.inputs, completed.Keys);
        if allDepsCompleted {
          executable := executable + [inv];
        } else {
          pending := pending[Mapped(original.id, i) := inv];
        }
      }
    }

    /** Completes the map block and fans out its context; an empty expansion or
        an unknown map block changes nothing. */
    method HandleMap(id: Id, n: nat)
      modifies this
      ensures HandlesMap(blocks, contexts, old(Current()), id, n, Current())
      ensures blocks == old(blocks) && contexts == old(contexts)
    {
      if n == 0 || id !in contexts {
        return;
      }
      completed := completed[id := MapDone(id, n)];
      ghost var start := Current();
      assert start == old(Current()).(completed := old(Current()).completed + {id});
      var ids: seq<Id> := [];
      var unseen := contexts[id];
      while unseen != {}
        invariant blocks == old(blocks) && contexts == old(contexts)
        invariant unseen <= contexts[id] && NoDuplicates(ids)
        invariant forall b :: b in ids <==> b in contexts[id] && b !in unseen
        invariant Current() == ExpandAll(start, blocks, ids, n)
        decreases unseen
      {
        var b :| b in unseen;
        unseen := unseen - {b};
        FanOut(b, n);
        assert (ids + [b])[..|ids|] == ids;
        ids := ids + [b];
      }
      assert HandlesMapIn(blocks, contexts, old(Current()), id, n, ids, Current());
    }

    method Update(r: BlockResult)
      modifies this
      ensures Updates(blocks, contexts, old(Current()), r, Current())
      ensures blocks == old(blocks) && contexts == old(contexts)
    {
      match r
      case Failed(_) =>
        pending := map[];
        executable := [];
        cancelled := true;
      case Complete(id) =>
        completed := completed[id := r];
        assert Current() == old(Current()).(completed := old(Current()).completed + {id});
        PromoteReady();
      case MapDone(id, n) =>
        HandleMap(id, n);
        PromoteReady();
    }

    /** Records, for every map block, exactly the blocks its walk reaches. */
    method IdentifyMapContexts(kinds: Kinds)
      requires IsGraphOf(graph, blocks) && ReferencesKnown(blocks)
      requires Acyclic(EdgesOf(blocks))
      modifies this
      ensures Current() == old(Current()) && blocks == old(blocks) && graph == old(graph)
      ensures contexts == ContextsOf(TypedGraph(graph, ById(blocks), kinds), blocks)
    {
      var t := TypedGraph(graph, ById(blocks), kinds);
      GraphIsClosed(t, blocks);
      ContextEdgesAcyclic(t, blocks);
      ghost var rank := AcyclicHasRank(t.ContextEdges(), graph.all);
      ghost var top := RankBound(rank);
      contexts := map[];
      for i := 0 to |blocks|
        invariant Current() == old(Current()) && blocks == old(blocks) && graph == old(graph)
        invariant contexts == ContextsOf(t, blocks[..i])
      {
        assert blocks[..i + 1][..i] == blocks[..i];
        var block := blocks[i];
        if block.name !in kinds || kinds[block.name] != Map {
          continue;
        }
        var ctx := new MapContext(block.id);
        assert block in blocks;
        WalkMapContext(t, block.id, ctx, rank, top);
        assert ctx.mappedBlockIds == t.ContextOf(block.id);
        assert blocks[..i + 1][i] == block;
        contexts := contexts[block.id := ctx.mappedBlockIds];
      }
      assert blocks[..|blocks|] == blocks;
    }
  }

  /** The contexts of a list of blocks: one entry per map block. */
  ghost function ContextsOf(t: TypedGraph, blocks: seq<Block>): Contexts {
    if blocks == [] then map[]
    else
      var last := blocks[|blocks| - 1];
      var rest := ContextsOf(t, blocks[..|blocks| - 1]);
      if last.name in t.kinds && t.kinds[last.name] == Map then rest[last.id := t.ContextOf(last.id)] else rest
  }

  lemma GraphIsClosed(t: TypedGraph, blocks: seq<Block>)
    requires IsGraphOf(t.graph, blocks) && ReferencesKnown(blocks)
    ensures t.Closed()
  {
    EdgesAreKnown(blocks);
    forall u: Id, v: Id {:trigger v in t.Children(u)} | v in t.Children(u)
      ensures u in t.graph.all && v in t.graph.all
    {
      ChildIffEdge(t, blocks, u, v);
      assert (u, v) in EdgesOf(blocks) ==> (u, v).0 in Ids(blocks) && (u, v).1 in Ids(blocks);
    }
  }

  lemma ChildIffEdge(t: TypedGraph, blocks: seq<Block>, u: Id, v: Id)
    requires IsGraphOf(t.graph, blocks)
    ensures v in t.Children(u) <==> (u, v) in EdgesOf(blocks)
  {
    assert Lookup(t.graph.forward, u) == Targets(EdgeList(blocks), u);
    ForwardReverseTranspose(EdgeList(blocks), u, v);
  }

  lemma ContextEdgesAcyclic(t: TypedGraph, blocks: seq<Block>)
    requires IsGraphOf(t.graph, blocks) && Acyclic(EdgesOf(blocks))
    ensures Acyclic(t.ContextEdges())
  {
    forall e | e in t.ContextEdges() ensures e in EdgesOf(blocks) {
      ChildIffEdge(t, blocks, e.0, e.1);
    }
    SubgraphAcyclic(t.ContextEdges(), EdgesOf(blocks));
  }

  lemma {:induction false} RankBound(rank: map<Id, nat>) returns (top: nat)
    ensures forall v :: v in rank ==> rank[v] <= top
    decreases rank.Keys
  {
    if rank == map[] {
      top := 0;
    } else {
      var v :| v in rank;
      var rest := RankBound(rank - {v});
      top := if rank[v] > rest then rank[v] else rest;
      forall w | w in rank ensures rank[w] <= top { assert w == v || w in rank - {v}; }
    }
  }
}
