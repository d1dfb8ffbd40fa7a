// Map/reduce structure of a pipeline: the validator's two depth-first checks
// (core/pipeline.go) and the scheduler's walk that collects the blocks a map
// fans out over (core/scheduler.go).
module MapContexts {
  import opened Digraphs
  import opened Pipelines
  import opened DependencyGraphs

  /** The lookup from id to block; a repeated id keeps the last block. */
  function ById(blocks: seq<Block>): map<Id, Block> {
    if blocks == [] then map[]
    else
      var last := blocks[|blocks| - 1];
      ById(blocks[..|blocks| - 1])[last.id := last]
  }

  /** Whatever ids are repeated, the last block with an id is found. */
  lemma {:induction false} ByIdLast(blocks: seq<Block>, i: nat)
    requires i < |blocks| && forall j :: i < j < |blocks| ==> blocks[j].id != blocks[i].id
    ensures blocks[i].id in ById(blocks) && ById(blocks)[blocks[i].id] == blocks[i]
  {
    var n := |blocks| - 1;
    if i < n {
      assert blocks[n].id != blocks[i].id;
      ByIdLast(blocks[..n], i);
    }
  }

  lemma {:induction false} ByIdKeys(blocks: seq<Block>)
    ensures ById(blocks).Keys == Ids(blocks)
  {
    if blocks != [] {
      var n := |blocks| - 1;
      ByIdKeys(blocks[..n]);
      assert blocks == blocks[..n] + [blocks[n]];
    }
  }

  /** A dependency graph whose blocks can be asked for their kind. */
  datatype TypedGraph = TypedGraph(graph: DependencyGraph, byId: map<Id, Block>, kinds: Kinds) {
    function Children(id: Id): seq<Id> {
      Lookup(graph.forward, id)
    }

    function KindAt(id: Id): Option<Kind> {
      if id in byId && byId[id].name in kinds then Some(kinds[byId[id].name]) else None
    }

    predicate InContext(id: Id) {
      KindAt(id).Some? && KindAt(id) != Some(Reduce)
    }

    ghost predicate Closed() {
      forall u, v :: v in Children(u) ==> u in graph.all && v in graph.all
    }

    ghost function KnownEdges(): Edges {
      set u, v | u in graph.all && v in graph.all && v in Children(u) && KindAt(v).Some? :: (u, v)
    }

    /** Edges a map context grows along: those that do not enter a reduce. */
    ghost function ContextEdges(): Edges {
      set u, v | u in graph.all && v in graph.all && v in Children(u) && InContext(v) :: (u, v)
    }

    ghost function ContextOf(id: Id): set<Id> {
      set v | v in graph.all && Reaches(ContextEdges(), id, v)
    }

    /** r is a reduce fed by the block itself or from its context. */
    ghost predicate ClosedBy(id: Id, r: Id) {
      KindAt(r) == Some(Reduce) && exists u :: (u == id || u in ContextOf(id)) && r in Children(u)
    }

    ghost predicate LeadsToReduce(id: Id) {
      exists r :: KindAt(r) == Some(Reduce) && Reaches(KnownEdges(), id, r)
    }

    ghost predicate LeadsToMap(id: Id) {
      exists m :: m != id && KindAt(m) == Some(Map) && Reaches(ContextEdges(), id, m)
    }
  }

  /** A block of unknown type hides whatever lies behind it. */
  lemma UnknownHides(t: TypedGraph, id: Id)
    requires forall v :: v in t.Children(id) ==> v !in t.byId || t.byId[v].name !in t.kinds
    ensures !t.LeadsToReduce(id) && !t.LeadsToMap(id) && t.ContextOf(id) == {}
  {
    forall v ensures !Reaches(t.KnownEdges(), id, v) && !Reaches(t.ContextEdges(), id, v) {
      if Reaches(t.KnownEdges(), id, v) { var u := FirstStep(t.KnownEdges(), id, v); }
      if Reaches(t.ContextEdges(), id, v) { var u := FirstStep(t.ContextEdges(), id, v); }
    }
  }

  // ---- The validator's depth-first checks ------------------------------------

  class VisitedSet {
    var seen: set<Id>

    constructor ()
      ensures seen == {}
    {
      seen := {};
    }
  }

  /** Nothing known below the blocks of `from` is a reduce, and all of it has been visited. */
  ghost predicate NoReduceBelow(t: TypedGraph, from: set<Id>, seen: set<Id>) {
    forall u, v :: u in from && v in t.Children(u) && t.KindAt(v).Some? ==> t.KindAt(v) != Some(Reduce) && v in seen
  }

  method SearchReduce(t: TypedGraph, id: Id, visited: VisitedSet) returns (found: bool)
    requires t.Closed() && id in t.graph.all && visited.seen <= t.graph.all
    modifies visited
    ensures old(visited.seen) <= visited.seen <= t.graph.all
    ensures found ==> t.LeadsToReduce(id)
    ensures !found ==> id in visited.seen
    ensures !found ==> NoReduceBelow(t, visited.seen - old(visited.seen), visited.seen)
    decreases t.graph.all - visited.seen
  {
    if id in visited.seen {
      return false;
    }
    ghost var before := visited.seen;
    visited.seen := visited.seen + {id};
    var children := t.Children(id);
    for k := 0 to |children|
      invariant before + {id} <= visited.seen <= t.graph.all
      invariant NoReduceBelow(t, visited.seen - before - {id}, visited.seen)
      invariant forall j :: 0 <= j < k && t.KindAt(children[j]).Some? ==>
                  t.KindAt(children[j]) != Some(Reduce) && children[j] in visited.seen
    {
      var child := children[k];
      var kind := t.KindAt(child);
      if kind == None {
        continue;
      }
      assert (id, child) in t.KnownEdges();
      if kind == Some(Reduce) {
        EdgeReaches(t.KnownEdges(), id, child);
        return true;
      }
      var below := SearchReduce(t, child, visited);
      if below {
        ghost var r :| t.KindAt(r) == Some(Reduce) && Reaches(t.KnownEdges(), child, r);
        EdgeThenReaches(t.KnownEdges(), id, child, r);
        return true;
      }
    }
    return false;
  }

  /** True exactly when some reduce can be reached from the block. */
  method HasDownstreamReduce(t: TypedGraph, id: Id) returns (found: bool)
    requires t.Closed() && id in t.graph.all
    ensures found <==> t.LeadsToReduce(id)
  {
    var visited := new VisitedSet();
    found := SearchReduce(t, id, visited);
    if !found {
      ghost var seen := visited.seen;
      forall r | Reaches(t.KnownEdges(), id, r) ensures t.KindAt(r) != Some(Reduce) {
        var u := LastStep(t.KnownEdges(), id, r);
        if u != id { ReachesStaysClosed(t.KnownEdges(), seen, id, u); }
        assert u in seen;
      }
    }
  }

  /** Below the blocks of `from`, everything not cut off by a reduce has been
      visited and is not a map other than the start. */
  ghost predicate NoMapBelow(t: TypedGraph, start: Id, from: set<Id>, seen: set<Id>) {
    forall u, v :: u in from && v in t.Children(u) && t.InContext(v) ==>
      (t.KindAt(v) == Some(Map) ==> v == start) && v in seen
  }

  method SearchNestedMap(t: TypedGraph, start: Id, id: Id, visited: VisitedSet) returns (found: bool)
    requires t.Closed() && id in t.graph.all && visited.seen <= t.graph.all
    requires id == start || Reaches(t.ContextEdges(), start, id)
    modifies visited
    ensures old(visited.seen) <= visited.seen <= t.graph.all
    ensures found ==> t.LeadsToMap(start)
    ensures !found ==> id in visited.seen
    ensures !found ==> NoMapBelow(t, start, visited.seen - old(visited.seen), visited.seen)
    decreases t.graph.all - visited.seen
  {
    if id in visited.seen {
      return false;
    }
    ghost var before := visited.seen;
    visited.seen := visited.seen + {id};
    var children := t.Children(id);
    for k := 0 to |children|
      invariant before + {id} <= visited.seen <= t.graph.all
      invariant NoMapBelow(t, start, visited.seen - before - {id}, visited.seen)
      invariant forall j :: 0 <= j < k && t.InContext(children[j]) ==>
                  (t.KindAt(children[j]) == Some(Map) ==> children[j] == start) && children[j] in visited.seen
    {
      var child := children[k];
      var kind := t.KindAt(child);
      if kind == None || kind == Some(Reduce) {
        continue;
      }
      assert (id, child) in t.ContextEdges();
      if id == start {
        EdgeReaches(t.ContextEdges(), start, child);
      } else {
        ReachesThenEdge(t.ContextEdges(), start, id, child);
      }
      if kind == Some(Map) && child != start {
        return true;
      }
      var below := SearchNestedMap(t, start, child, visited);
      if below {
        return true;
      }
    }
    return false;
  }

  /** True exactly when another map lies inside this map's context. */
  method HasNestedMap(t: TypedGraph, id: Id) returns (found: bool)
    requires t.Closed() && id in t.graph.all
    ensures found <==> t.LeadsToMap(id)
    ensures found <==> exists m :: m in t.ContextOf(id) && m != id && t.KindAt(m) == Some(Map)
  {
    var visited := new VisitedSet();
    found := SearchNestedMap(t, id, id, visited);
    forall m | Reaches(t.ContextEdges(), id, m) ensures m in t.graph.all {
      var u := LastStep(t.ContextEdges(), id, m);
    }
    if !found {
      ghost var seen := visited.seen;
      forall m | Reaches(t.ContextEdges(), id, m) ensures t.KindAt(m) == Some(Map) ==> m == id {
        var u := LastStep(t.ContextEdges(), id, m);
        if u != id { ReachesStaysClosed(t.ContextEdges(), seen, id, u); }
        assert u in seen;
      }
    }
  }

  // ---- The scheduler's context walk ------------------------------------------

  class MapContext {
    var mapBlockId: Id
    var mappedBlockIds: set<Id>
    var reduceBlockId: Id

    constructor (id: Id)
      ensures mapBlockId == id && mappedBlockIds == {} && reduceBlockId == NIL
    {
      mapBlockId := id;
      mappedBlockIds := {};
      reduceBlockId := NIL;
    }
  }

  /** What the walk contributes for a list of children. */
  ghost function Covered(t: TypedGraph, children: seq<Id>): set<Id> {
    if children == [] then {}
    else
      var n := |children| - 1;
      Covered(t, children[..n]) + (if t.InContext(children[n]) then {children[n]} + t.ContextOf(children[n]) else {})
  }

  lemma {:induction false} CoveredIn(t: TypedGraph, children: seq<Id>, v: Id)
    ensures v in Covered(t, children) <==>
            exists c :: c in children && t.InContext(c) && (v == c || v in t.ContextOf(c))
  {
    if children != [] {
      var n := |children| - 1;
      CoveredIn(t, children[..n], v);
      assert children == children[..n] + [children[n]];
      if exists c :: c in children && t.InContext(c) && (v == c || v in t.ContextOf(c)) {
        var c :| c in children && t.InContext(c) && (v == c || v in t.ContextOf(c));
        assert c in children[..n] || c == children[n];
      }
    }
  }

  /** A context is what its first blocks cover. */
  lemma ContextUnfolds(t: TypedGraph, id: Id)
    requires t.Closed() && id in t.graph.all
    ensures t.ContextOf(id) == Covered(t, t.Children(id))
  {
    var e := t.ContextEdges();
    forall v ensures v in t.ContextOf(id) <==> v in Covered(t, t.Children(id)) {
      CoveredIn(t, t.Children(id), v);
      if v in t.ContextOf(id) {
        var c := FirstStep(e, id, v);
        assert c in t.Children(id) && t.InContext(c);
      }
      if v in Covered(t, t.Children(id)) {
        var c :| c in t.Children(id) && t.InContext(c) && (v == c || v in t.ContextOf(c));
        assert (id, c) in e;
        if v == c { EdgeReaches(e, id, c); } else { EdgeThenReaches(e, id, c, v); }
      }
    }
  }

  /** A closing reduce is found at a child or below one. */
  ghost predicate ClosesAt(t: TypedGraph, c: Id, r: Id) {
    (c == r && t.KindAt(r) == Some(Reduce)) || (t.InContext(c) && t.ClosedBy(c, r))
  }

  lemma ClosedUnfolds(t: TypedGraph, id: Id, r: Id)
    requires t.Closed() && id in t.graph.all
    ensures t.ClosedBy(id, r) <==> exists c :: c in t.Children(id) && ClosesAt(t, c, r)
  {
    var e := t.ContextEdges();
    if t.ClosedBy(id, r) {
      var u :| (u == id || u in t.ContextOf(id)) && r in t.Children(u);
      if u == id {
        assert ClosesAt(t, r, r);
      } else {
        var c := FirstStep(e, id, u);
        assert ClosesAt(t, c, r);
      }
    }
    forall c | c in t.Children(id) && ClosesAt(t, c, r) ensures t.ClosedBy(id, r) {
      if t.InContext(c) && t.ClosedBy(c, r) {
        assert (id, c) in e;
        var u :| (u == c || u in t.ContextOf(c)) && r in t.Children(u);
        if u == c { EdgeReaches(e, id, c); } else { EdgeThenReaches(e, id, c, u); }
        assert u in t.ContextOf(id);
      }
    }
  }

  /** The reduce recorded so far closes the context, if one was met at all. */
  ghost predicate Records(t: TypedGraph, id: Id, children: seq<Id>, before: Id, now: Id) {
    && (now == before || t.ClosedBy(id, now))
    && ((exists c, r :: c in children && ClosesAt(t, c, r)) ==> t.ClosedBy(id, now))
  }

  lemma RecordsMore(t: TypedGraph, id: Id, front: seq<Id>, c: Id, before: Id, mid: Id, now: Id)
    requires t.Closed() && id in t.graph.all && c in t.Children(id)
    requires Records(t, id, front, before, mid)
    requires now == mid || ClosesAt(t, c, now)
    requires (exists r :: ClosesAt(t, c, r)) ==> ClosesAt(t, c, now)
    ensures Records(t, id, front + [c], before, now)
  {
    ClosedUnfolds(t, id, now);
    if x, r :| x in front + [c] && ClosesAt(t, x, r) {
      assert x in front || x == c;
    }
  }

  ghost predicate RanksContexts(t: TypedGraph, rank: map<Id, nat>, top: nat) {
    && rank.Keys == t.graph.all
    && RespectsEdges(t.ContextEdges(), rank)
    && forall v :: v in rank ==> rank[v] <= top
  }

  /** Without cycles the unpruned walk terminates and adds exactly the blocks
      reachable from `id` through blocks that are not reduces; it records a
      reduce that closes them whenever there is one. */
  method WalkMapContext(t: TypedGraph, id: Id, ctx: MapContext, ghost rank: map<Id, nat>, ghost top: nat)
    requires t.Closed() && id in t.graph.all && RanksContexts(t, rank, top)
    modifies ctx
    ensures ctx.mapBlockId == old(ctx.mapBlockId)
    ensures ctx.mappedBlockIds == old(ctx.mappedBlockIds) + t.ContextOf(id)
    ensures ctx.reduceBlockId == old(ctx.reduceBlockId) || t.ClosedBy(id, ctx.reduceBlockId)
    ensures (exists r :: t.ClosedBy(id, r)) ==> t.ClosedBy(id, ctx.reduceBlockId)
    decreases top - rank[id]
  {
    var children := t.Children(id);
    for k := 0 to |children|
      invariant ctx.mapBlockId == old(ctx.mapBlockId)
      invariant ctx.mappedBlockIds == old(ctx.mappedBlockIds) + Covered(t, children[..k])
      invariant Records(t, id, children[..k], old(ctx.reduceBlockId), ctx.reduceBlockId)
    {
      assert children[..k + 1][..k] == children[..k];
      assert children[..k + 1] == children[..k] + [children[k]];
      var child := children[k];
      ghost var mid := ctx.reduceBlockId;
      var kind := t.KindAt(child);
      if kind == None {
        RecordsMore(t, id, children[..k], child, old(ctx.reduceBlockId), mid, mid);
        continue;
      }
      if kind == Some(Reduce) {
        ctx.reduceBlockId := child;
        RecordsMore(t, id, children[..k], child, old(ctx.reduceBlockId), mid, child);
        continue;
      }
      assert (id, child) in t.ContextEdges();
      ctx.mappedBlockIds := ctx.mappedBlockIds + {child};
      WalkMapContext(t, child, ctx, rank, top);
      RecordsMore(t, id, children[..k], child, old(ctx.reduceBlockId), mid, ctx.reduceBlockId);
    }
    assert children[..|children|] == children;
    ContextUnfolds(t, id);
    if r :| t.ClosedBy(id, r) {
      ClosedUnfolds(t, id, r);
    }
  }
}
