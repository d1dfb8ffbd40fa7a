// Small documents that validation accepts, for the concrete cases.
module ExamplePipelines {
  import opened Digraphs
  import opened Pipelines
  import opened DependencyGraphs
  import opened MapContexts
  import opened SchedulerState
  import opened SchedulerInvariant
  import opened PipelinePlans

  const KINDS: Kinds :=
    map["split" := Map, "work" := Standard, "pair" := Standard, "gather" := Reduce, "watch" := Standard]

  /** A map, a mapped block and a reduce, and a block beside them. */
  const MAP_REDUCE: seq<Block> := [
    Block(1, "split", []),
    Block(2, "work", [Bare(1)]),
    Block(3, "gather", [Bare(2)]),
    Block(4, "watch", [])]

  /** What the shared block takes from the two maps. */
  const BOTH_ITEMS: seq<InputRef> := [Explicit(1, "items", "left"), Explicit(2, "items", "right")]

  /** Two maps, a block that takes both outputs, and a reduce. */
  const TWO_MAPS: seq<Block> := [
    Block(1, "split", []),
    Block(2, "split", []),
    Block(3, "pair", BOTH_ITEMS),
    Block(4, "gather", [Bare(3)])]

  /** Documents whose maps all fan out the same single block. */
  lemma OneMappedBlock(blocks: seq<Block>, kinds: Kinds, maps: set<Id>, v: Id)
    requires UniqueIds(blocks) && NoNilReference(blocks) && ReferencesKnown(blocks) && Acyclic(EdgesOf(blocks))
    requires NamesKnown(blocks, kinds) && MapIds(blocks, kinds) == maps && v !in maps
    requires forall m :: m in maps ==> ContextIn(blocks, kinds, m) == {v} && ReduceBelow(blocks, kinds, m)
    ensures Accepted(blocks, kinds)
  {
  }

  lemma OneMapIsClashFree(blocks: seq<Block>, kinds: Kinds, counts: map<Id, nat>, m: Id)
    requires MapIds(blocks, kinds) == {m}
    ensures ClashFree(blocks, kinds, counts)
  {
  }

  ghost predicate NamesKnown(blocks: seq<Block>, kinds: Kinds) {
    forall b :: b in blocks ==> b.name in kinds
  }

  lemma PlanParts(blocks: seq<Block>, kinds: Kinds, counts: map<Id, nat>, v: Id)
    requires MapIds(blocks, kinds) == counts.Keys
    requires forall m :: m in counts ==> ContextIn(blocks, kinds, m) == {v}
    ensures var p := PlanOf(blocks, kinds, counts);
            && p.contexts.Keys == counts.Keys && p.fan == counts && p.blocks == blocks
            && forall m :: m in counts ==> p.contexts[m] == {v}
  {
  }

  // ---- One map -------------------------------------------------------------------------

  lemma MapReduceEdges()
    ensures EdgeList(MAP_REDUCE) == [(1, 2), (2, 3)]
  {
    var bs := MAP_REDUCE;
    assert RefEdges(2, [Bare(1)]) == [(1, 2)] by { assert [Bare(1)][..0] == []; }
    assert RefEdges(3, [Bare(2)]) == [(2, 3)] by { assert [Bare(2)][..0] == []; }
    assert EdgeList([bs[0]]) == [] by { assert [bs[0]][..0] == []; }
    assert EdgeList([bs[0], bs[1]]) == [(1, 2)] by { assert [bs[0], bs[1]][..1] == [bs[0]]; }
    assert EdgeList([bs[0], bs[1], bs[2]]) == [(1, 2), (2, 3)] by {
      assert [bs[0], bs[1], bs[2]][..2] == [bs[0], bs[1]];
    }
    assert bs[..3] == [bs[0], bs[1], bs[2]];
  }

  lemma MapReduceIds()
    ensures Ids(MAP_REDUCE) == {1, 2, 3, 4}
  {
    var bs := MAP_REDUCE;
    assert bs[0] in bs && bs[1] in bs && bs[2] in bs && bs[3] in bs;
  }

  lemma MapReduceBlocks()
    ensures UniqueIds(MAP_REDUCE) && NoNilReference(MAP_REDUCE) && ReferencesKnown(MAP_REDUCE)
    ensures Acyclic(EdgesOf(MAP_REDUCE)) && Ids(MAP_REDUCE) == {1, 2, 3, 4}
    ensures forall e :: e in EdgesOf(MAP_REDUCE) <==> e == (1, 2) || e == (2, 3)
  {
    MapReduceEdges();
    RankedIsAcyclic(EdgesOf(MAP_REDUCE), map[1 := 1, 2 := 2, 3 := 3]);
    MapReduceIds();
  }

  lemma MapReduceKinds()
    ensures KindOf(MAP_REDUCE, KINDS, 1) == Some(Map) && KindOf(MAP_REDUCE, KINDS, 2) == Some(Standard)
    ensures KindOf(MAP_REDUCE, KINDS, 3) == Some(Reduce) && MapIds(MAP_REDUCE, KINDS) == {1}
  {
    MapReduceBlocks();
    var bs := MAP_REDUCE;
    ByIdAt(bs, bs[0]);
    ByIdAt(bs, bs[1]);
    ByIdAt(bs, bs[2]);
    assert bs[0] in bs && IsMap(KINDS, bs[0]) && !IsMap(KINDS, bs[1]) && !IsMap(KINDS, bs[2]) && !IsMap(KINDS, bs[3]);
  }

  lemma MapReduceContext()
    ensures ContextIn(MAP_REDUCE, KINDS, 1) == {2}
  {
    MapReduceBlocks();
    MapReduceKinds();
    var e := ContextEdgesOf(MAP_REDUCE, KINDS);
    assert forall x :: x in e <==> x == (1, 2);
    EdgeReaches(e, 1, 2);
    forall v | Reaches(e, 1, v) ensures v == 2 {
      var u := LastStep(e, 1, v);
    }
  }

  lemma MapReduceReduce()
    ensures ReduceBelow(MAP_REDUCE, KINDS, 1) && NamesKnown(MAP_REDUCE, KINDS)
  {
    MapReduceBlocks();
    MapReduceKinds();
    EdgeReaches(EdgesOf(MAP_REDUCE), 1, 2);
    ReachesThenEdge(EdgesOf(MAP_REDUCE), 1, 2, 3);
  }

  lemma MapReduceIsAccepted()
    ensures Accepted(MAP_REDUCE, KINDS)
  {
    MapReduceBlocks();
    MapReduceKinds();
    MapReduceContext();
    MapReduceReduce();
    OneMappedBlock(MAP_REDUCE, KINDS, {1}, 2);
  }

  lemma MapReduceDependencies()
    ensures EdgesOf(MAP_REDUCE) == {(1, 2), (2, 3)}
  {
    MapReduceBlocks();
    forall e ensures e in EdgesOf(MAP_REDUCE) <==> e in {(1, 2), (2, 3)} {}
  }

  lemma MapReduceContexts(counts: map<Id, nat>)
    requires counts.Keys == {1}
    ensures var p := PlanOf(MAP_REDUCE, KINDS, counts);
            && MapIds(MAP_REDUCE, KINDS) == {1} && p.contexts.Keys == {1} && p.contexts[1] == {2}
            && p.fan == counts && p.blocks == MAP_REDUCE
  {
    MapReduceKinds();
    MapReduceContext();
    PlanParts(MAP_REDUCE, KINDS, counts, 2);
  }

  lemma MapReducePlan(counts: map<Id, nat>)
    requires counts.Keys == {1}
    ensures var p := PlanOf(MAP_REDUCE, KINDS, counts);
            && p.Valid() && p.contexts.Keys == {1} && p.contexts[1] == {2} && p.fan == counts
            && p.DependsOn(2, 1) && p.DependsOn(3, 2) && forall d :: p.DependsOn(2, d) ==> d == 1
  {
    MapReduceIsAccepted();
    MapReduceContexts(counts);
    MapReduceDependencies();
    OneMapIsClashFree(MAP_REDUCE, KINDS, counts, 1);
    PlanIsValidIff(MAP_REDUCE, KINDS, counts);
  }

  // ---- Two maps ------------------------------------------------------------------------

  lemma TwoMapsEdges()
    ensures EdgeList(TWO_MAPS) == [(1, 3), (2, 3), (3, 4)]
  {
    var bs := TWO_MAPS;
    assert RefEdges(3, BOTH_ITEMS) == [(1, 3), (2, 3)] by {
      var first := BOTH_ITEMS[..1];
      assert first == [BOTH_ITEMS[0]] && first[..0] == [];
    }
    assert RefEdges(4, [Bare(3)]) == [(3, 4)] by { assert [Bare(3)][..0] == []; }
    assert EdgeList([bs[0]]) == [] by { assert [bs[0]][..0] == []; }
    assert EdgeList([bs[0], bs[1]]) == [] by { assert [bs[0], bs[1]][..1] == [bs[0]]; }
    assert EdgeList([bs[0], bs[1], bs[2]]) == [(1, 3), (2, 3)] by {
      assert [bs[0], bs[1], bs[2]][..2] == [bs[0], bs[1]];
    }
    assert bs[..3] == [bs[0], bs[1], bs[2]];
  }

  lemma TwoMapsIds()
    ensures Ids(TWO_MAPS) == {1, 2, 3, 4}
  {
    var bs := TWO_MAPS;
    assert bs[0] in bs && bs[1] in bs && bs[2] in bs && bs[3] in bs;
  }

  lemma TwoMapsDependencies()
    ensures EdgesOf(TWO_MAPS) == {(1, 3), (2, 3), (3, 4)}
  {
    TwoMapsEdges();
    var es: seq<(Id, Id)> := [(1, 3), (2, 3), (3, 4)];
    assert ToSet(es) == {(1, 3), (2, 3), (3, 4)};
  }

  lemma TwoMapsBlocks()
    ensures UniqueIds(TWO_MAPS) && NoNilReference(TWO_MAPS) && ReferencesKnown(TWO_MAPS)
    ensures Acyclic(EdgesOf(TWO_MAPS)) && Ids(TWO_MAPS) == {1, 2, 3, 4}
    ensures forall e :: e in EdgesOf(TWO_MAPS) <==> e == (1, 3) || e == (2, 3) || e == (3, 4)
  {
    TwoMapsDependencies();
    RankedIsAcyclic(EdgesOf(TWO_MAPS), map[1 := 1, 2 := 2, 3 := 3, 4 := 4]);
    TwoMapsIds();
  }

  lemma TwoMapsKinds()
    ensures KindOf(TWO_MAPS, KINDS, 1) == Some(Map) && KindOf(TWO_MAPS, KINDS, 2) == Some(Map)
    ensures KindOf(TWO_MAPS, KINDS, 3) == Some(Standard) && KindOf(TWO_MAPS, KINDS, 4) == Some(Reduce)
    ensures MapIds(TWO_MAPS, KINDS) == {1, 2}
  {
    TwoMapsBlocks();
    var bs := TWO_MAPS;
    ByIdAt(bs, bs[0]);
    ByIdAt(bs, bs[1]);
    ByIdAt(bs, bs[2]);
    ByIdAt(bs, bs[3]);
    assert bs[0] in bs && bs[1] in bs && IsMap(KINDS, bs[0]) && IsMap(KINDS, bs[1]) && !IsMap(KINDS, bs[2]) &&
      !IsMap(KINDS, bs[3]);
  }

  lemma TwoMapsContexts()
    ensures ContextIn(TWO_MAPS, KINDS, 1) == {3} && ContextIn(TWO_MAPS, KINDS, 2) == {3}
  {
    TwoMapsBlocks();
    TwoMapsKinds();
    var e := ContextEdgesOf(TWO_MAPS, KINDS);
    assert forall x :: x in e <==> x == (1, 3) || x == (2, 3);
    EdgeReaches(e, 1, 3);
    EdgeReaches(e, 2, 3);
    forall m, v | Reaches(e, m, v) ensures v == 3 {
      var u := LastStep(e, m, v);
    }
  }

  lemma TwoMapsReduce()
    ensures ReduceBelow(TWO_MAPS, KINDS, 1) && ReduceBelow(TWO_MAPS, KINDS, 2)
  {
    TwoMapsBlocks();
    TwoMapsKinds();
    var e := EdgesOf(TWO_MAPS);
    EdgeReaches(e, 1, 3);
    ReachesThenEdge(e, 1, 3, 4);
    EdgeReaches(e, 2, 3);
    ReachesThenEdge(e, 2, 3, 4);
  }

  lemma TwoMapsNames()
    ensures NamesKnown(TWO_MAPS, KINDS)
  {
  }

  lemma TwoMapsIsAccepted()
    ensures Accepted(TWO_MAPS, KINDS)
  {
    TwoMapsBlocks();
    TwoMapsKinds();
    TwoMapsContexts();
    TwoMapsReduce();
    TwoMapsNames();
    OneMappedBlock(TWO_MAPS, KINDS, {1, 2}, 3);
  }

  lemma TwoMapsFans(counts: map<Id, nat>)
    requires counts.Keys == {1, 2}
    ensures var p := PlanOf(TWO_MAPS, KINDS, counts);
            && MapIds(TWO_MAPS, KINDS) == {1, 2} && p.contexts.Keys == {1, 2}
            && p.contexts[1] == {3} && p.contexts[2] == {3} && p.fan == counts && p.blocks == TWO_MAPS
  {
    TwoMapsKinds();
    TwoMapsContexts();
    PlanParts(TWO_MAPS, KINDS, counts, 3);
  }

  lemma TwoMapsSound(counts: map<Id, nat>)
    requires counts.Keys == {1, 2}
    ensures PlanOf(TWO_MAPS, KINDS, counts).Sound()
  {
    TwoMapsIsAccepted();
    TwoMapsKinds();
    PlanIsSound(TWO_MAPS, KINDS, counts);
  }

  lemma ThirdDependsOnTwo(p: Plan)
    requires p.blocks == TWO_MAPS
    ensures forall d :: p.DependsOn(3, d) ==> d == 1 || d == 2
  {
    TwoMapsDependencies();
  }

  lemma TwoMapsPlan(counts: map<Id, nat>)
    requires counts.Keys == {1, 2}
    ensures var p := PlanOf(TWO_MAPS, KINDS, counts);
            && p.Sound() && p.contexts.Keys == {1, 2} && p.contexts[1] == {3} && p.contexts[2] == {3} && p.fan == counts
            && forall d :: p.DependsOn(3, d) ==> d == 1 || d == 2
  {
    TwoMapsFans(counts);
    TwoMapsSound(counts);
    ThirdDependsOnTwo(PlanOf(TWO_MAPS, KINDS, counts));
  }
}
