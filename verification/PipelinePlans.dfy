// From a pipeline document and its manifests to the plan the scheduler's
// invariant speaks about.
module PipelinePlans {
  import opened Digraphs
  import opened Pipelines
  import opened DependencyGraphs
  import opened MapContexts
  import opened SchedulerState
  import opened PipelineScheduler
  import opened SchedulerInvariant
  import InputResolution

  function KindOf(blocks: seq<Block>, kinds: Kinds, id: Id): Option<Kind> {
    var byId := ById(blocks);
    if id in byId && byId[id].name in kinds then Some(kinds[byId[id].name]) else None
  }

  /** Edges that do not enter a reduce (nor a block of unknown kind). */
  ghost function ContextEdgesOf(blocks: seq<Block>, kinds: Kinds): Edges {
    set e | e in EdgesOf(blocks) && KindOf(blocks, kinds, e.1).Some? && KindOf(blocks, kinds, e.1) != Some(Reduce)
  }

  predicate IsMap(kinds: Kinds, b: Block) {
    b.name in kinds && kinds[b.name] == Map
  }

  function MapIds(blocks: seq<Block>, kinds: Kinds): set<Id> {
    set b | b in blocks && IsMap(kinds, b) :: b.id
  }

  ghost function ContextIn(blocks: seq<Block>, kinds: Kinds, m: Id): set<Id> {
    set v | v in Ids(blocks) && Reaches(ContextEdgesOf(blocks, kinds), m, v)
  }

  ghost function PlanOf(blocks: seq<Block>, kinds: Kinds, counts: map<Id, nat>): Plan {
    Plan(blocks,
         map m | m in MapIds(blocks, kinds) :: ContextIn(blocks, kinds, m),
         map m | m in MapIds(blocks, kinds) && m in counts :: counts[m])
  }

  /** What the server's check says: no map lies in another map's context. */
  ghost predicate NoNesting(blocks: seq<Block>, kinds: Kinds) {
    forall m, v :: m in MapIds(blocks, kinds) && v in ContextIn(blocks, kinds, m) && v != m ==>
      v !in MapIds(blocks, kinds)
  }

  ghost predicate ReduceBelow(blocks: seq<Block>, kinds: Kinds, m: Id) {
    exists r :: KindOf(blocks, kinds, r) == Some(Reduce) && Reaches(EdgesOf(blocks), m, r)
  }

  /** What the theorems ask of a document: unique ids, known references and none
      of them nil, no cycle, no nested maps. */
  ghost predicate Runnable(blocks: seq<Block>, kinds: Kinds) {
    && UniqueIds(blocks) && NoNilReference(blocks) && ReferencesKnown(blocks) && Acyclic(EdgesOf(blocks))
    && NoNesting(blocks, kinds)
  }

  /** What validation accepts of a document without nil references, inputs aside:
      in addition, known block types, and every map closed by a reduce. */
  ghost predicate Accepted(blocks: seq<Block>, kinds: Kinds) {
    && Runnable(blocks, kinds)
    && (forall b :: b in blocks ==> b.name in kinds)
    && (forall m :: m in MapIds(blocks, kinds) ==> ReduceBelow(blocks, kinds, m))
  }

  /** The manifests of block types. */
  type Types = map<string, InputResolution.Manifest>

  /** The manifests of the blocks b refers to. */
  function DepManifests(blocks: seq<Block>, types: Types, b: Block): InputResolution.Manifests {
    var byId := ById(blocks);
    map r | r in b.inputs && DepId(r) != NIL && DepId(r) in byId && byId[DepId(r)].name in types ::
      DepId(r) := types[byId[DepId(r)].name]
  }

  ghost predicate InputsResolve(blocks: seq<Block>, types: Types, b: Block) {
    b.name in types ==>
      exists m :: InputResolution.Resolves(DepManifests(blocks, types, b), types[b.name].inputs, b.inputs, Ok(m))
  }

  /** Maps declare an expansion, reduces take a collection, and nothing has to be
      given as an argument. */
  ghost predicate WellTyped(kinds: Kinds, types: Types) {
    forall t :: t in kinds && t in types ==>
      && (kinds[t] == Map ==> "expansion" in types[t].outputs.Values)
      && (kinds[t] == Reduce ==> "collection" in types[t].inputs.Values)
      && forall n :: n in types[t].inputs ==> !InputResolution.IsScalar(types[t].inputs[n])
  }

  /** All of the validator's checks, of a document without arguments. */
  ghost predicate Validated(blocks: seq<Block>, kinds: Kinds, types: Types) {
    && Accepted(blocks, kinds) && types.Keys == kinds.Keys && WellTyped(kinds, types)
    && forall b :: b in blocks ==> InputsResolve(blocks, types, b)
  }

  /** The checks of the validator are those of the document. */
  lemma ValidatorChecks(t: TypedGraph, blocks: seq<Block>, kinds: Kinds, m: Id)
    requires IsGraphOf(t.graph, blocks) && t.byId == ById(blocks) && t.kinds == kinds
    requires UniqueIds(blocks) && ReferencesKnown(blocks) && Acyclic(EdgesOf(blocks))
    requires (forall b :: b in blocks ==> b.name in kinds) && m in MapIds(blocks, kinds)
    ensures t.LeadsToReduce(m) <==> ReduceBelow(blocks, kinds, m)
    ensures !t.LeadsToMap(m) <==> forall v :: v in ContextIn(blocks, kinds, m) && v != m ==> v !in MapIds(blocks, kinds)
  {
    SameEdges(t, blocks, kinds);
    KnownKinds(t, blocks, kinds);
    assert t.KnownEdges() == EdgesOf(blocks);
    forall v ensures v in MapIds(blocks, kinds) <==> v in Ids(blocks) && KindOf(blocks, kinds, v) == Some(Map) {
      MapsAreMaps(blocks, kinds, v);
    }
    forall v | Reaches(t.ContextEdges(), m, v) ensures v in Ids(blocks) {
      var u := LastStep(t.ContextEdges(), m, v);
    }
  }

  lemma KnownKinds(t: TypedGraph, blocks: seq<Block>, kinds: Kinds)
    requires IsGraphOf(t.graph, blocks) && t.byId == ById(blocks) && t.kinds == kinds
    requires UniqueIds(blocks) && ReferencesKnown(blocks) && forall b :: b in blocks ==> b.name in kinds
    ensures forall e :: e in t.KnownEdges() <==> e in EdgesOf(blocks)
  {
    GraphIsClosed(t, blocks);
    EdgesAreKnown(blocks);
    forall u: Id, v: Id ensures (u, v) in t.KnownEdges() <==> (u, v) in EdgesOf(blocks) {
      ChildIffEdge(t, blocks, u, v);
      if (u, v) in EdgesOf(blocks) {
        assert (u, v).1 in Ids(blocks) && (u, v).0 in Ids(blocks);
        var b :| b in blocks && b.id == v;
        ByIdAt(blocks, b);
      }
    }
  }

  lemma MapsAreMaps(blocks: seq<Block>, kinds: Kinds, v: Id)
    requires UniqueIds(blocks)
    ensures v in MapIds(blocks, kinds) <==> v in Ids(blocks) && KindOf(blocks, kinds, v) == Some(Map)
  {
    if v in Ids(blocks) {
      var b :| b in blocks && b.id == v;
      ByIdAt(blocks, b);
      forall c | c in blocks && c.id == v ensures c == b { ByIdAt(blocks, c); }
    }
  }

  lemma ByIdAt(blocks: seq<Block>, b: Block)
    requires b in blocks && UniqueIds(blocks)
    ensures b.id in ById(blocks) && ById(blocks)[b.id] == b
  {
    var i :| 0 <= i < |blocks| && blocks[i] == b;
    ByIdLast(blocks, i);
  }

  /** Two maps fan b out, and b can be left waiting for the last of them alone:
      nothing else it depends on lies below that map. */
  ghost predicate ClashIn(blocks: seq<Block>, kinds: Kinds, first: Id, last: Id, b: Id) {
    && first in MapIds(blocks, kinds) && last in MapIds(blocks, kinds) && first != last
    && b in ContextIn(blocks, kinds, first) && (last, b) in EdgesOf(blocks)
    && forall d :: (d, b) in EdgesOf(blocks) && d != last ==> !Reaches(EdgesOf(blocks), last, d)
  }

  /** No map above b comes back empty. */
  ghost predicate CanRunIn(blocks: seq<Block>, kinds: Kinds, counts: map<Id, nat>, b: Id) {
    forall m :: m in MapIds(blocks, kinds) && Reaches(EdgesOf(blocks), m, b) ==> m in counts && counts[m] > 0
  }

  /** No two maps clash over a block that can run. */
  ghost predicate ClashFree(blocks: seq<Block>, kinds: Kinds, counts: map<Id, nat>) {
    forall first, last, b :: ClashIn(blocks, kinds, first, last, b) ==> !CanRunIn(blocks, kinds, counts, b)
  }

  lemma PlanIsSound(blocks: seq<Block>, kinds: Kinds, counts: map<Id, nat>)
    requires Runnable(blocks, kinds) && MapIds(blocks, kinds) <= counts.Keys
    ensures PlanOf(blocks, kinds, counts).Sound()
  {
    var p := PlanOf(blocks, kinds, counts);
    var e := ContextEdgesOf(blocks, kinds);
    SubgraphAcyclic(e, EdgesOf(blocks));
    forall m: Id, b: Id | p.Under(m, b) ensures p.EntersContext(m, b) && b != m {
      AcyclicNotSelfReaching(e, m);
      var d := LastStep(e, m, b);
      assert (d, b) in EdgesOf(blocks);
      DependencyKnown(p, b, d);
      assert p.DependsOn(b, d);
    }
  }

  /** The plan clashes where the document does. */
  lemma ClashIffDocument(blocks: seq<Block>, kinds: Kinds, counts: map<Id, nat>, first: Id, last: Id, b: Id)
    requires ReferencesKnown(blocks)
    ensures PlanOf(blocks, kinds, counts).Clashes(first, last, b) <==> ClashIn(blocks, kinds, first, last, b)
  {
    var p := PlanOf(blocks, kinds, counts);
    var e := ContextEdgesOf(blocks, kinds);
    if p.Under(first, b) && last in MapIds(blocks, kinds) && (last, b) in EdgesOf(blocks) {
      var d := LastStep(e, first, b);
      assert (last, b) in e;
      EdgeReaches(e, last, b);
    }
  }

  /** The plan is sound, and valid where the document has no clash. */
  lemma PlanIsValidIff(blocks: seq<Block>, kinds: Kinds, counts: map<Id, nat>)
    requires Runnable(blocks, kinds) && MapIds(blocks, kinds) <= counts.Keys
    ensures PlanOf(blocks, kinds, counts).Sound()
    ensures PlanOf(blocks, kinds, counts).Valid() <==> ClashFree(blocks, kinds, counts)
  {
    var p := PlanOf(blocks, kinds, counts);
    PlanIsSound(blocks, kinds, counts);
    forall first: Id, last: Id, b: Id ensures p.Clashes(first, last, b) <==> ClashIn(blocks, kinds, first, last, b) {
      ClashIffDocument(blocks, kinds, counts, first, last, b);
    }
    forall b ensures p.CanRun(b) <==> CanRunIn(blocks, kinds, counts, b) {}
  }

  /** The scheduler's walk records exactly the plan's contexts. */
  lemma IdentifiedContexts(t: TypedGraph, blocks: seq<Block>, kinds: Kinds, counts: map<Id, nat>)
    requires IsGraphOf(t.graph, blocks) && t.byId == ById(blocks) && t.kinds == kinds
    requires UniqueIds(blocks) && ReferencesKnown(blocks)
    ensures ContextsOf(t, blocks) == PlanOf(blocks, kinds, counts).contexts
  {
    SameEdges(t, blocks, kinds);
    ContextsOfIs(t, blocks, kinds);
    forall m ensures t.ContextOf(m) == ContextIn(blocks, kinds, m) {}
  }

  lemma SameEdges(t: TypedGraph, blocks: seq<Block>, kinds: Kinds)
    requires IsGraphOf(t.graph, blocks) && t.byId == ById(blocks) && t.kinds == kinds && ReferencesKnown(blocks)
    ensures t.ContextEdges() == ContextEdgesOf(blocks, kinds)
  {
    GraphIsClosed(t, blocks);
    EdgesAreKnown(blocks);
    forall u: Id, v: Id ensures (u, v) in t.ContextEdges() <==> (u, v) in ContextEdgesOf(blocks, kinds) {
      ChildIffEdge(t, blocks, u, v);
      assert (u, v) in EdgesOf(blocks) ==> (u, v).0 in Ids(blocks) && (u, v).1 in Ids(blocks);
      assert t.InContext(v) <==> KindOf(blocks, kinds, v).Some? && KindOf(blocks, kinds, v) != Some(Reduce);
    }
  }

  lemma {:induction false} ContextsOfIs(t: TypedGraph, blocks: seq<Block>, kinds: Kinds)
    requires t.kinds == kinds
    ensures ContextsOf(t, blocks).Keys == MapIds(blocks, kinds)
    ensures forall m :: m in ContextsOf(t, blocks) ==> ContextsOf(t, blocks)[m] == t.ContextOf(m)
  {
    if blocks != [] {
      var n := |blocks| - 1;
      ContextsOfIs(t, blocks[..n], kinds);
      assert blocks == blocks[..n] + [blocks[n]];
    }
  }
}
