// The editor's map-context analysis (web_ui/utils/mapContext.ts): stacks of
// open maps carried along a topological order, against the scheduler's contexts.
module EditorContexts {
  import opened Digraphs
  import opened Pipelines
  import opened DependencyGraphs
  import opened MapContexts
  import opened PipelinePlans

  datatype Node = Node(id: Id, kind: Kind, deps: seq<Id>)

  datatype Analysis = Analysis(
    incoming: map<Id, seq<Id>>,
    outgoing: map<Id, seq<Id>>,
    inContext: set<Id>,
    nestedMaps: seq<Id>)

  function NodeIds(nodes: seq<Node>): set<Id> {
    set n | n in nodes :: n.id
  }

  ghost predicate UniqueNodes(nodes: seq<Node>) {
    forall i, j :: 0 <= i < j < |nodes| ==> nodes[i].id != nodes[j].id
  }

  function NodesById(nodes: seq<Node>): map<Id, Node> {
    if nodes == [] then map[]
    else
      var last := nodes[|nodes| - 1];
      NodesById(nodes[..|nodes| - 1])[last.id := last]
  }

  lemma {:induction false} NodesByIdAt(nodes: seq<Node>)
    ensures NodesById(nodes).Keys == NodeIds(nodes)
    ensures forall v :: v in NodesById(nodes) ==> NodesById(nodes)[v] in nodes && NodesById(nodes)[v].id == v
    ensures UniqueNodes(nodes) ==> forall n :: n in nodes ==> NodesById(nodes)[n.id] == n
  {
    if nodes != [] {
      var k := |nodes| - 1;
      NodesByIdAt(nodes[..k]);
      assert nodes == nodes[..k] + [nodes[k]];
      if UniqueNodes(nodes) { LastIsUnique(nodes); }
    }
  }

  lemma LastIsUnique(nodes: seq<Node>)
    requires UniqueNodes(nodes) && nodes != []
    ensures UniqueNodes(nodes[..|nodes| - 1])
    ensures forall n :: n in nodes[..|nodes| - 1] ==> n.id != nodes[|nodes| - 1].id
  {
    var k := |nodes| - 1;
    forall n | n in nodes[..k] ensures n.id != nodes[k].id {
      var i :| 0 <= i < k && nodes[..k][i] == n;
      assert nodes[i] == n;
    }
  }

  // ---- The meaning of the analysis ---------------------------------------------

  /** The longest stack among the dependencies; the earliest one when several are longest. */
  function Deepest(deps: seq<Id>, outgoing: map<Id, seq<Id>>): seq<Id> {
    if deps == [] then []
    else
      var best := Deepest(deps[..|deps| - 1], outgoing);
      var d := deps[|deps| - 1];
      if d in outgoing && |outgoing[d]| > |best| then outgoing[d] else best
  }

  /** A map pushes itself, a reduce closes the innermost map. */
  function After(node: Node, incoming: seq<Id>): seq<Id> {
    match node.kind
    case Map => incoming + [node.id]
    case Reduce => if incoming == [] then [] else incoming[..|incoming| - 1]
    case Standard => incoming
  }

  /** The equations between a block's stacks and those of its dependencies. */
  ghost predicate Solves(byId: map<Id, Node>, incoming: map<Id, seq<Id>>, outgoing: map<Id, seq<Id>>) {
    && incoming.Keys == byId.Keys && outgoing.Keys == byId.Keys
    && forall v {:trigger byId[v]} :: v in byId ==>
         incoming[v] == Deepest(byId[v].deps, outgoing) && outgoing[v] == After(byId[v], incoming[v])
  }

  lemma {:induction false} DeepestBounds(deps: seq<Id>, outgoing: map<Id, seq<Id>>)
    ensures forall d :: d in deps && d in outgoing ==> |outgoing[d]| <= |Deepest(deps, outgoing)|
    ensures Deepest(deps, outgoing) != [] ==>
              exists d :: d in deps && d in outgoing && outgoing[d] == Deepest(deps, outgoing)
  {
    if deps != [] {
      DeepestBounds(deps[..|deps| - 1], outgoing);
      assert deps == deps[..|deps| - 1] + [deps[|deps| - 1]];
    }
  }

  /** Dependency i has the stack that is taken: all before it are shorter, and none
      behind it is longer. */
  ghost predicate FirstDeepest(deps: seq<Id>, outgoing: map<Id, seq<Id>>, i: nat) {
    && i < |deps| && deps[i] in outgoing
    && (forall j :: 0 <= j < i && deps[j] in outgoing ==> |outgoing[deps[j]]| < |outgoing[deps[i]]|)
    && (forall j :: i < j < |deps| && deps[j] in outgoing ==> |outgoing[deps[j]]| <= |outgoing[deps[i]]|)
  }

  /** Among several longest stacks the first dependency's is taken. */
  lemma {:induction false} DeepestIsFirst(deps: seq<Id>, outgoing: map<Id, seq<Id>>, i: nat)
    requires FirstDeepest(deps, outgoing, i)
    ensures Deepest(deps, outgoing) == outgoing[deps[i]]
  {
    var n := |deps| - 1;
    DeepestBounds(deps[..n], outgoing);
    if i < n {
      assert forall j :: 0 <= j < n ==> deps[..n][j] == deps[j];
      DeepestIsFirst(deps[..n], outgoing, i);
    } else {
      forall d | d in deps[..n] && d in outgoing ensures |outgoing[d]| < |outgoing[deps[i]]| {
        var j :| 0 <= j < n && deps[..n][j] == d;
        assert deps[j] == d;
      }
    }
  }

  /** A map opens above whatever is open, and a reduce closes the last one opened;
      with nothing open it closes nothing. */
  lemma ReduceUndoesMap(map_: Node, other: Node, reduce: Node, stack: seq<Id>)
    requires map_.kind == Map && other.kind == Standard && reduce.kind == Reduce
    ensures After(reduce, After(map_, stack)) == stack && After(reduce, []) == []
    ensures After(map_, stack)[|stack|..] == [map_.id] && After(other, stack) == stack
  {
  }

  lemma {:induction false} DeepestCongruent(deps: seq<Id>, a: map<Id, seq<Id>>, b: map<Id, seq<Id>>)
    requires forall d :: d in deps ==> (d in a <==> d in b) && (d in a ==> a[d] == b[d])
    ensures Deepest(deps, a) == Deepest(deps, b)
  {
    if deps != [] {
      DeepestCongruent(deps[..|deps| - 1], a, b);
    }
  }

  // ---- Indexing the nodes ----------------------------------------------------------

  function DepEdges(id: Id, deps: seq<Id>, all: set<Id>): seq<(Id, Id)> {
    if deps == [] then []
    else
      var last := deps[|deps| - 1];
      DepEdges(id, deps[..|deps| - 1], all) + (if last in all then [(last, id)] else [])
  }

  function NodeEdgeList(nodes: seq<Node>, all: set<Id>): seq<(Id, Id)> {
    if nodes == [] then []
    else
      var last := nodes[|nodes| - 1];
      NodeEdgeList(nodes[..|nodes| - 1], all) + DepEdges(last.id, last.deps, all)
  }

  ghost function NodeEdges(nodes: seq<Node>): Edges {
    ToSet(NodeEdgeList(nodes, NodeIds(nodes)))
  }

  lemma {:induction false} DepEdgesIn(id: Id, deps: seq<Id>, all: set<Id>, u: Id, v: Id)
    ensures (u, v) in DepEdges(id, deps, all) <==> v == id && u in all && u in deps
  {
    if deps != [] {
      DepEdgesIn(id, deps[..|deps| - 1], all, u, v);
      assert deps == deps[..|deps| - 1] + [deps[|deps| - 1]];
    }
  }

  lemma {:induction false} NodeEdgeListIn(nodes: seq<Node>, all: set<Id>, u: Id, v: Id)
    ensures (u, v) in NodeEdgeList(nodes, all) <==> u in all && exists n :: n in nodes && n.id == v && u in n.deps
  {
    if nodes != [] {
      var k := |nodes| - 1;
      NodeEdgeListIn(nodes[..k], all, u, v);
      DepEdgesIn(nodes[k].id, nodes[k].deps, all, u, v);
      assert nodes == nodes[..k] + [nodes[k]];
      if u in all && exists n :: n in nodes && n.id == v && u in n.deps {
        var n :| n in nodes && n.id == v && u in n.deps;
        assert n in nodes[..k] || n == nodes[k];
      }
    }
  }

  /** `children` and `indeg` describe the edges `es` between the nodes of `all`. */
  ghost predicate Counts(all: set<Id>, children: map<Id, seq<Id>>, indeg: map<Id, int>, es: seq<(Id, Id)>) {
    && children.Keys == all && indeg.Keys == all
    && (forall e :: e in es ==> e.0 in all && e.1 in all)
    && (forall u {:trigger Targets(es, u)} :: Lookup(children, u) == Targets(es, u))
    && (forall v {:trigger indeg[v]} :: v in all ==> indeg[v] == |Sources(es, v)|)
  }

  lemma CountsEmpty(all: set<Id>)
    ensures Counts(all, map id | id in all :: [], map id | id in all :: 0, [])
  {
  }

  lemma CountsOneMore(all: set<Id>, children: map<Id, seq<Id>>, indeg: map<Id, int>, es: seq<(Id, Id)>, d: Id, id: Id)
    requires Counts(all, children, indeg, es) && d in all && id in all
    ensures Counts(all, children[d := children[d] + [id]], indeg[id := indeg[id] + 1], es + [(d, id)])
  {
    var es' := es + [(d, id)];
    assert es'[..|es|] == es;
    var children' := children[d := children[d] + [id]];
    forall u ensures Lookup(children', u) == Targets(es', u) { assert Lookup(children, u) == Targets(es, u); }
  }

  method IndexDeps(id: Id, deps: seq<Id>, all: set<Id>, children0: map<Id, seq<Id>>, indeg0: map<Id, int>,
                   ghost es: seq<(Id, Id)>)
    returns (children: map<Id, seq<Id>>, indeg: map<Id, int>)
    requires id in all && Counts(all, children0, indeg0, es)
    ensures Counts(all, children, indeg, es + DepEdges(id, deps, all))
  {
    children, indeg := children0, indeg0;
    ghost var seen := es;
    for k := 0 to |deps|
      invariant seen == es + DepEdges(id, deps[..k], all)
      invariant Counts(all, children, indeg, seen)
    {
      assert deps[..k + 1][..k] == deps[..k];
      var d := deps[k];
      if d !in all {
        continue;
      }
      CountsOneMore(all, children, indeg, seen, d, id);
      seen := seen + [(d, id)];
      children := children[d := children[d] + [id]];
      indeg := indeg[id := indeg[id] + 1];
    }
    assert deps[..|deps|] == deps;
  }

  method IndexNodes(nodes: seq<Node>) returns (children: map<Id, seq<Id>>, indeg: map<Id, int>)
    ensures Counts(NodeIds(nodes), children, indeg, NodeEdgeList(nodes, NodeIds(nodes)))
  {
    var all := NodeIds(nodes);
    children, indeg := map id | id in all :: [], map id | id in all :: 0;
    CountsEmpty(all);
    for i := 0 to |nodes|
      invariant Counts(all, children, indeg, NodeEdgeList(nodes[..i], all))
    {
      assert nodes[i] in nodes;
      assert nodes[..i + 1][..i] == nodes[..i];
      children, indeg := IndexDeps(nodes[i].id, nodes[i].deps, all, children, indeg, NodeEdgeList(nodes[..i], all));
    }
    assert nodes[..|nodes|] == nodes;
  }

  method Starters(nodes: seq<Node>, indeg: map<Id, int>) returns (queue: seq<Id>)
    requires UniqueNodes(nodes) && indeg.Keys == NodeIds(nodes)
    ensures QueueMatches(NodeIds(nodes), indeg, queue)
  {
    queue := [];
    for i := 0 to |nodes|
      invariant NoDuplicates(queue)
      invariant forall v :: v in queue <==> exists j :: 0 <= j < i && nodes[j].id == v && indeg[v] == 0
    {
      assert nodes[i] in nodes;
      if indeg[nodes[i].id] == 0 {
        queue := queue + [nodes[i].id];
      }
    }
    forall v | v in NodeIds(nodes) ensures v in queue <==> indeg[v] == 0 {
      var j :| 0 <= j < |nodes| && nodes[j].id == v;
    }
  }

  /** A topological order of the nodes; nodes left out by a cycle come last. */
  method Order(nodes: seq<Node>) returns (order: seq<Id>)
    requires UniqueNodes(nodes)
    ensures Enumerates(order, NodeIds(nodes))
    ensures Acyclic(NodeEdges(nodes)) ==> EdgesForward(NodeEdgeList(nodes, NodeIds(nodes)), order)
  {
    var all := NodeIds(nodes);
    ghost var es := NodeEdgeList(nodes, all);
    var children, indeg := IndexNodes(nodes);
    var queue := Starters(nodes, indeg);
    forall v | v in all ensures indeg[v] == Remaining(es, v, ToSet<Id>([])) {
      RemainingInitially(es, v);
      assert (ToSet<Id>([])) == {};
    }
    var sorted := KahnLoop(all, children, indeg, queue, es);
    NothingLeft(es, all, sorted);
    order := sorted;
    for i := 0 to |nodes|
      invariant NoDuplicates(order) && sorted <= order
      invariant forall v :: v in order ==> v in all
      invariant forall j :: 0 <= j < i ==> nodes[j].id in order
    {
      assert nodes[i] in nodes;
      if nodes[i].id !in order {
        order := order + [nodes[i].id];
      }
    }
    NoDuplicatesCard(order, all);
    if Acyclic(NodeEdges(nodes)) {
      assert order == sorted;
    }
  }

  // ---- The analysis -------------------------------------------------------------------

  /** Which part of the equations holds for the blocks placed so far. */
  ghost predicate PartlySolves(byId: map<Id, Node>, placed: seq<Id>, incoming: map<Id, seq<Id>>,
                               outgoing: map<Id, seq<Id>>)
  {
    forall v {:trigger byId[v]} :: v in placed ==>
      v in byId && v in incoming && incoming[v] == Deepest(byId[v].deps, outgoing)
  }

  lemma PlaceNext(nodes: seq<Node>, order: seq<Id>, i: nat, incoming: map<Id, seq<Id>>, outgoing: map<Id, seq<Id>>,
                  out: seq<Id>)
    requires UniqueNodes(nodes) && Enumerates(order, NodeIds(nodes)) && i < |order|
    requires EdgesForward(NodeEdgeList(nodes, NodeIds(nodes)), order)
    requires outgoing.Keys == ToSet(order[..i])
    requires PartlySolves(NodesById(nodes), order[..i], incoming, outgoing)
    ensures var id := order[i];
            id in NodesById(nodes) &&
            PartlySolves(NodesById(nodes), order[..i + 1],
                         incoming[id := Deepest(NodesById(nodes)[id].deps, outgoing)], outgoing[id := out])
  {
    var byId, id := NodesById(nodes), order[i];
    NodesByIdAt(nodes);
    forall j | 0 <= j <= i
      ensures Deepest(byId[order[j]].deps, outgoing[id := out]) == Deepest(byId[order[j]].deps, outgoing)
    {
      var v := order[j];
      assert PredecessorsIn(NodeEdgeList(nodes, NodeIds(nodes)), v, order[..j]);
      NodeEdgeListIn(nodes, NodeIds(nodes), id, v);
      assert id !in order[..j];
      DeepestCongruent(byId[v].deps, outgoing[id := out], outgoing);
    }
    forall v | v in order[..i + 1] ensures v in byId && v in incoming[id := Deepest(byId[id].deps, outgoing)]
      && incoming[id := Deepest(byId[id].deps, outgoing)][v] == Deepest(byId[v].deps, outgoing[id := out])
    {
      var j :| 0 <= j <= i && order[j] == v;
      if j < i { assert v in order[..i]; assert v != id; }
    }
  }

  /** The nested maps are the maps placed with a non-empty stack. */
  ghost predicate Flags(byId: map<Id, Node>, incoming: map<Id, seq<Id>>, nested: seq<Id>) {
    && NoDuplicates(nested)
    && forall v :: v in nested <==> v in incoming && incoming[v] != [] && v in byId && byId[v].kind == Map
  }

  lemma FlagsNext(byId: map<Id, Node>, incoming: map<Id, seq<Id>>, nested: seq<Id>, id: Id, inc: seq<Id>)
    requires Flags(byId, incoming, nested) && id in byId && id !in incoming
    ensures Flags(byId, incoming[id := inc], if byId[id].kind == Map && inc != [] then nested + [id] else nested)
  {
    if byId[id].kind == Map && inc != [] {
      NoDuplicatesConcat(nested, [id]);
    }
  }

  /** The state of the analysis after some blocks have been placed. */
  ghost predicate Placed(nodes: seq<Node>, placed: seq<Id>, incoming: map<Id, seq<Id>>, outgoing: map<Id, seq<Id>>) {
    var byId := NodesById(nodes);
    && incoming.Keys == ToSet(placed) && outgoing.Keys == ToSet(placed)
    && (forall v {:trigger byId[v]} :: v in placed ==> v in byId && outgoing[v] == After(byId[v], incoming[v]))
    && (Acyclic(NodeEdges(nodes)) ==> PartlySolves(byId, placed, incoming, outgoing))
  }

  lemma PlacedNext(nodes: seq<Node>, order: seq<Id>, i: nat, incoming: map<Id, seq<Id>>, outgoing: map<Id, seq<Id>>)
    requires UniqueNodes(nodes) && Enumerates(order, NodeIds(nodes)) && i < |order|
    requires Acyclic(NodeEdges(nodes)) ==> EdgesForward(NodeEdgeList(nodes, NodeIds(nodes)), order)
    requires Placed(nodes, order[..i], incoming, outgoing)
    ensures var byId, id := NodesById(nodes), order[i];
            id in byId && id !in incoming &&
            var inc := Deepest(byId[id].deps, outgoing);
            Placed(nodes, order[..i + 1], incoming[id := inc], outgoing[id := After(byId[id], inc)])
  {
    NodesByIdAt(nodes);
    NextKey(order, i);
    var byId, id := NodesById(nodes), order[i];
    if Acyclic(NodeEdges(nodes)) {
      PlaceNext(nodes, order, i, incoming, outgoing, After(byId[id], Deepest(byId[id].deps, outgoing)));
    }
  }

  lemma AllPlaced(nodes: seq<Node>, order: seq<Id>, incoming: map<Id, seq<Id>>, outgoing: map<Id, seq<Id>>)
    requires UniqueNodes(nodes) && Enumerates(order, NodeIds(nodes)) && Placed(nodes, order, incoming, outgoing)
    ensures incoming.Keys == NodeIds(nodes) && outgoing.Keys == NodeIds(nodes)
    ensures Acyclic(NodeEdges(nodes)) ==> Solves(NodesById(nodes), incoming, outgoing)
  {
    NodesByIdAt(nodes);
    assert ToSet(order) == NodeIds(nodes);
  }

  /** Without cycles the stacks solve the equations; the context and the nested
      maps are read off them in every case. */
  method ComputeMapContext(nodes: seq<Node>) returns (r: Analysis)
    requires UniqueNodes(nodes)
    ensures r.incoming.Keys == NodeIds(nodes) && r.outgoing.Keys == NodeIds(nodes)
    ensures Acyclic(NodeEdges(nodes)) ==> Solves(NodesById(nodes), r.incoming, r.outgoing)
    ensures forall v :: v in r.inContext <==> v in r.incoming && r.incoming[v] != []
    ensures Flags(NodesById(nodes), r.incoming, r.nestedMaps)
  {
    var byId := NodesById(nodes);
    var order := Order(nodes);
    var incoming: map<Id, seq<Id>>, outgoing: map<Id, seq<Id>>, nestedMaps: seq<Id> := map[], map[], [];
    for i := 0 to |order|
      invariant Placed(nodes, order[..i], incoming, outgoing)
      invariant Flags(byId, incoming, nestedMaps)
    {
      PlacedNext(nodes, order, i, incoming, outgoing);
      var id := order[i];
      var node := byId[id];
      var inc := Deepest(node.deps, outgoing);
      FlagsNext(byId, incoming, nestedMaps, id, inc);
      incoming := incoming[id := inc];
      if node.kind == Map && |inc| > 0 {
        nestedMaps := nestedMaps + [id];
      }
      outgoing := outgoing[id := After(node, inc)];
    }
    assert order[..|order|] == order;
    AllPlaced(nodes, order, incoming, outgoing);
    var inContext := set v | v in incoming && incoming[v] != [];
    r := Analysis(incoming, outgoing, inContext, nestedMaps);
  }

  lemma NextKey(order: seq<Id>, i: nat)
    requires NoDuplicates(order) && i < |order|
    ensures order[i] !in ToSet(order[..i])
    ensures ToSet(order[..i + 1]) == ToSet(order[..i]) + {order[i]}
  {
    assert order[..i + 1] == order[..i] + [order[i]];
  }

  /** The equations have one solution, so the stacks do not depend on which
      topological order was taken. */
  lemma {:induction false} SolutionIsUnique(nodes: seq<Node>, i1: map<Id, seq<Id>>, o1: map<Id, seq<Id>>,
                                            i2: map<Id, seq<Id>>, o2: map<Id, seq<Id>>)
    requires UniqueNodes(nodes) && Acyclic(NodeEdges(nodes))
    requires Solves(NodesById(nodes), i1, o1) && Solves(NodesById(nodes), i2, o2)
    ensures i1 == i2 && o1 == o2
  {
    NodesByIdAt(nodes);
    var rank := AcyclicHasRank(NodeEdges(nodes), NodeIds(nodes));
    forall v | v in NodeIds(nodes) ensures i1[v] == i2[v] && o1[v] == o2[v] {
      SameAt(nodes, i1, o1, i2, o2, rank, v);
    }
  }

  lemma {:induction false} SameAt(nodes: seq<Node>, i1: map<Id, seq<Id>>, o1: map<Id, seq<Id>>,
                                  i2: map<Id, seq<Id>>, o2: map<Id, seq<Id>>, rank: map<Id, nat>, v: Id)
    requires UniqueNodes(nodes) && rank.Keys == NodeIds(nodes) && RespectsEdges(NodeEdges(nodes), rank)
    requires Solves(NodesById(nodes), i1, o1) && Solves(NodesById(nodes), i2, o2)
    requires v in NodeIds(nodes)
    ensures v in i1 && v in i2 && v in o1 && v in o2 && i1[v] == i2[v] && o1[v] == o2[v]
    decreases rank[v]
  {
    NodesByIdAt(nodes);
    var deps := NodesById(nodes)[v].deps;
    forall d | d in deps && d in o1 ensures o1[d] == o2[d] {
      NodeEdgeListIn(nodes, NodeIds(nodes), d, v);
      assert (d, v) in NodeEdges(nodes);
      SameAt(nodes, i1, o1, i2, o2, rank, d);
    }
    DeepestCongruent(deps, o1, o2);
  }

  // ---- Against the scheduler's contexts -------------------------------------------------

  /** The nodes draw the pipeline: same blocks, kinds and edges. */
  ghost predicate Mirrors(nodes: seq<Node>, blocks: seq<Block>, kinds: Kinds) {
    && UniqueIds(blocks) && UniqueNodes(nodes) && NodeIds(nodes) == Ids(blocks)
    && NodeEdges(nodes) == EdgesOf(blocks)
    && (forall v {:trigger NodesById(nodes)[v]} :: v in NodesById(nodes) ==>
          KindOf(blocks, kinds, v) == Some(NodesById(nodes)[v].kind))
  }

  /** A stack never shrinks along an edge that does not enter a reduce. */
  lemma EdgeCarries(nodes: seq<Node>, incoming: map<Id, seq<Id>>, outgoing: map<Id, seq<Id>>, u: Id, v: Id)
    requires UniqueNodes(nodes) && Solves(NodesById(nodes), incoming, outgoing) && (u, v) in NodeEdges(nodes)
    ensures u in outgoing && v in incoming && |outgoing[u]| <= |incoming[v]|
  {
    NodesByIdAt(nodes);
    NodeEdgeListIn(nodes, NodeIds(nodes), u, v);
    DeepestBounds(NodesById(nodes)[v].deps, outgoing);
  }

  lemma ContextEdgeCarries(nodes: seq<Node>, blocks: seq<Block>, kinds: Kinds,
                           incoming: map<Id, seq<Id>>, outgoing: map<Id, seq<Id>>, u: Id, v: Id)
    requires Mirrors(nodes, blocks, kinds) && Solves(NodesById(nodes), incoming, outgoing)
    requires (u, v) in ContextEdgesOf(blocks, kinds)
    ensures u in outgoing && v in incoming && v in outgoing
    ensures outgoing[u] != [] ==> incoming[v] != [] && outgoing[v] != []
  {
    NodesByIdAt(nodes);
    EdgeCarries(nodes, incoming, outgoing, u, v);
    assert v in NodesById(nodes) && NodesById(nodes)[v].kind != Reduce;
  }

  lemma MapOpens(nodes: seq<Node>, blocks: seq<Block>, kinds: Kinds,
                 incoming: map<Id, seq<Id>>, outgoing: map<Id, seq<Id>>, m: Id)
    requires Mirrors(nodes, blocks, kinds) && Solves(NodesById(nodes), incoming, outgoing)
    requires m in MapIds(blocks, kinds)
    ensures m in outgoing && outgoing[m] != []
  {
    NodesByIdAt(nodes);
    MapsAreMaps(blocks, kinds, m);
    assert m in NodesById(nodes) && NodesById(nodes)[m].kind == Map;
  }

  /** Whatever lies in a map's context has a non-empty stack. */
  lemma ContextHasStack(nodes: seq<Node>, blocks: seq<Block>, kinds: Kinds,
                        incoming: map<Id, seq<Id>>, outgoing: map<Id, seq<Id>>, m: Id, v: Id)
    requires Mirrors(nodes, blocks, kinds) && Solves(NodesById(nodes), incoming, outgoing)
    requires m in MapIds(blocks, kinds) && v in ContextIn(blocks, kinds, m)
    ensures v in incoming && incoming[v] != [] && v in outgoing && outgoing[v] != []
  {
    var e := ContextEdgesOf(blocks, kinds);
    var S := set x | x in outgoing && outgoing[x] != [];
    MapOpens(nodes, blocks, kinds, incoming, outgoing, m);
    forall x: Id, y: Id | x in S && (x, y) in e ensures y in S {
      ContextEdgeCarries(nodes, blocks, kinds, incoming, outgoing, x, y);
    }
    var u := LastStep(e, m, v);
    if u != m { ReachesStaysClosed(e, S, m, u); }
    assert u in S;
    ContextEdgeCarries(nodes, blocks, kinds, incoming, outgoing, u, v);
  }

  /** A context grows along an edge that does not enter a reduce. */
  lemma ContextGrows(blocks: seq<Block>, kinds: Kinds, m: Id, d: Id, v: Id)
    requires UniqueIds(blocks) && Acyclic(EdgesOf(blocks)) && m in MapIds(blocks, kinds)
    requires d == m || d in ContextIn(blocks, kinds, m)
    requires (d, v) in EdgesOf(blocks) && v in Ids(blocks)
    requires KindOf(blocks, kinds, v).Some? && KindOf(blocks, kinds, v) != Some(Reduce)
    ensures v in ContextIn(blocks, kinds, m) && v != m
  {
    var e := ContextEdgesOf(blocks, kinds);
    assert (d, v) in e;
    if d == m { EdgeReaches(e, m, v); } else { ReachesThenEdge(e, m, d, v); }
    SubgraphAcyclic(e, EdgesOf(blocks));
    AcyclicNotSelfReaching(e, m);
  }

  /** A non-empty stack comes from a dependency. */
  lemma StackComesFrom(nodes: seq<Node>, incoming: map<Id, seq<Id>>, outgoing: map<Id, seq<Id>>, v: Id) returns (d: Id)
    requires UniqueNodes(nodes) && Solves(NodesById(nodes), incoming, outgoing)
    requires v in incoming && incoming[v] != []
    ensures d in outgoing && outgoing[d] == incoming[v] && (d, v) in NodeEdges(nodes)
  {
    NodesByIdAt(nodes);
    var deps := NodesById(nodes)[v].deps;
    DeepestBounds(deps, outgoing);
    d :| d in deps && d in outgoing && outgoing[d] == incoming[v];
    NodeEdgeListIn(nodes, NodeIds(nodes), d, v);
  }

  /** Without nesting a block's stack holds at most one map, the one whose
      context it is in. */
  ghost predicate OneMapOpen(blocks: seq<Block>, kinds: Kinds, v: Id, out: seq<Id>) {
    out == [] || (|out| == 1 && out[0] in MapIds(blocks, kinds) &&
      (v == out[0] || v in ContextIn(blocks, kinds, out[0])))
  }

  ghost predicate InOneContext(blocks: seq<Block>, kinds: Kinds, v: Id, inc: seq<Id>) {
    && |inc| <= 1
    && (KindOf(blocks, kinds, v) == Some(Map) ==> inc == [])
    && (inc != [] ==> inc[0] in MapIds(blocks, kinds))
    && (inc != [] && KindOf(blocks, kinds, v) != Some(Reduce) ==> v in ContextIn(blocks, kinds, inc[0]))
  }

  lemma OneContext(nodes: seq<Node>, blocks: seq<Block>, kinds: Kinds, d: Id, v: Id, stack: seq<Id>)
    requires Mirrors(nodes, blocks, kinds) && Acyclic(EdgesOf(blocks)) && NoNesting(blocks, kinds)
    requires (d, v) in EdgesOf(blocks) && v in NodesById(nodes)
    requires stack != [] && OneMapOpen(blocks, kinds, d, stack)
    ensures InOneContext(blocks, kinds, v, stack)
  {
    NodesByIdAt(nodes);
    MapsAreMaps(blocks, kinds, v);
    assert KindOf(blocks, kinds, v) == Some(NodesById(nodes)[v].kind);
    if KindOf(blocks, kinds, v) != Some(Reduce) {
      ContextGrows(blocks, kinds, stack[0], d, v);
    }
  }

  lemma {:induction false} StackIsContext(nodes: seq<Node>, blocks: seq<Block>, kinds: Kinds,
                       incoming: map<Id, seq<Id>>, outgoing: map<Id, seq<Id>>, rank: map<Id, nat>, v: Id)
    requires Mirrors(nodes, blocks, kinds) && Solves(NodesById(nodes), incoming, outgoing)
    requires rank.Keys == NodeIds(nodes) && RespectsEdges(NodeEdges(nodes), rank)
    requires NoNesting(blocks, kinds) && v in rank && Acyclic(EdgesOf(blocks))
    ensures v in incoming && InOneContext(blocks, kinds, v, incoming[v])
    ensures v in outgoing && OneMapOpen(blocks, kinds, v, outgoing[v])
    decreases rank[v]
  {
    NodesByIdAt(nodes);
    assert v in NodesById(nodes);
    if incoming[v] != [] {
      var d := StackComesFrom(nodes, incoming, outgoing, v);
      StackIsContext(nodes, blocks, kinds, incoming, outgoing, rank, d);
      OneContext(nodes, blocks, kinds, d, v, incoming[v]);
    }
    AfterOneContext(nodes, blocks, kinds, v, incoming[v]);
  }

  lemma AfterOneContext(nodes: seq<Node>, blocks: seq<Block>, kinds: Kinds, v: Id, inc: seq<Id>)
    requires Mirrors(nodes, blocks, kinds) && v in NodesById(nodes) && InOneContext(blocks, kinds, v, inc)
    ensures OneMapOpen(blocks, kinds, v, After(NodesById(nodes)[v], inc))
  {
    NodesByIdAt(nodes);
    MapsAreMaps(blocks, kinds, v);
    assert KindOf(blocks, kinds, v) == Some(NodesById(nodes)[v].kind);
  }

  /** The editor flags a nested map exactly when the server's check does; and
      when neither does, the blocks the editor draws inside a context, reduces
      aside, are those the scheduler fans out, under the same map. */
  lemma EditorAndSchedulerAgree(nodes: seq<Node>, blocks: seq<Block>, kinds: Kinds,
                                incoming: map<Id, seq<Id>>, outgoing: map<Id, seq<Id>>)
    requires Mirrors(nodes, blocks, kinds) && Acyclic(EdgesOf(blocks))
    requires Solves(NodesById(nodes), incoming, outgoing)
    ensures (forall v :: v in MapIds(blocks, kinds) ==> v in incoming && incoming[v] == []) <==>
            NoNesting(blocks, kinds)
    ensures NoNesting(blocks, kinds) ==> forall v :: v in Ids(blocks) && KindOf(blocks, kinds, v) != Some(Reduce) ==>
              v in incoming &&
              (incoming[v] != [] <==> exists m :: m in MapIds(blocks, kinds) && v in ContextIn(blocks, kinds, m))
    ensures NoNesting(blocks, kinds) ==> forall v :: v in Ids(blocks) && KindOf(blocks, kinds, v) != Some(Reduce) ==>
              v in incoming &&
              (incoming[v] != [] ==>
                 incoming[v][0] in MapIds(blocks, kinds) && v in ContextIn(blocks, kinds, incoming[v][0]))
  {
    forall m, v | m in MapIds(blocks, kinds) && v in ContextIn(blocks, kinds, m)
      ensures v in incoming && incoming[v] != []
    {
      ContextHasStack(nodes, blocks, kinds, incoming, outgoing, m, v);
    }
    if NoNesting(blocks, kinds) {
      var rank := AcyclicHasRank(NodeEdges(nodes), NodeIds(nodes));
      forall v | v in Ids(blocks)
        ensures v in incoming && InOneContext(blocks, kinds, v, incoming[v])
        ensures v in MapIds(blocks, kinds) ==> KindOf(blocks, kinds, v) == Some(Map)
      {
        StackIsContext(nodes, blocks, kinds, incoming, outgoing, rank, v);
        MapsAreMaps(blocks, kinds, v);
      }
    }
  }

  // ---- Broadcast edges -----------------------------------------------------------------

  /** A value from outside the target's innermost open map. */
  predicate IsBroadcastEdge(r: Analysis, source: Id, target: Id) {
    if target !in r.incoming || r.incoming[target] == [] then false
    else
      var activeMap := r.incoming[target][|r.incoming[target]| - 1];
      source != activeMap && !(source in r.outgoing && activeMap in r.outgoing[source])
  }

  lemma TargetContext(nodes: seq<Node>, blocks: seq<Block>, kinds: Kinds, r: Analysis, target: Id)
    requires Mirrors(nodes, blocks, kinds) && Acyclic(EdgesOf(blocks)) && NoNesting(blocks, kinds)
    requires Solves(NodesById(nodes), r.incoming, r.outgoing) && target in Ids(blocks)
    ensures target in r.incoming
    ensures r.incoming[target] != [] ==> |r.incoming[target]| == 1 && r.incoming[target][0] in MapIds(blocks, kinds)
  {
    var rank := AcyclicHasRank(NodeEdges(nodes), NodeIds(nodes));
    StackIsContext(nodes, blocks, kinds, r.incoming, r.outgoing, rank, target);
  }

  /** No two maps fan the block out. */
  ghost predicate InOneContextAtMost(blocks: seq<Block>, kinds: Kinds, v: Id) {
    forall m, m' :: m in MapIds(blocks, kinds) && m' in MapIds(blocks, kinds)
      && v in ContextIn(blocks, kinds, m) && v in ContextIn(blocks, kinds, m')
      ==> m == m'
  }

  lemma SourceInside(nodes: seq<Node>, blocks: seq<Block>, kinds: Kinds, r: Analysis, m: Id, source: Id)
    requires Mirrors(nodes, blocks, kinds) && Acyclic(EdgesOf(blocks)) && NoNesting(blocks, kinds)
    requires Solves(NodesById(nodes), r.incoming, r.outgoing) && source in Ids(blocks)
    requires m in MapIds(blocks, kinds) && source != m && InOneContextAtMost(blocks, kinds, source)
    ensures source in r.outgoing && (m in r.outgoing[source] <==> source in ContextIn(blocks, kinds, m))
  {
    var rank := AcyclicHasRank(NodeEdges(nodes), NodeIds(nodes));
    StackIsContext(nodes, blocks, kinds, r.incoming, r.outgoing, rank, source);
    if source in ContextIn(blocks, kinds, m) {
      ContextHasStack(nodes, blocks, kinds, r.incoming, r.outgoing, m, source);
    }
    OpenMapIs(blocks, kinds, m, source, r.outgoing[source]);
  }

  lemma OpenMapIs(blocks: seq<Block>, kinds: Kinds, m: Id, v: Id, out: seq<Id>)
    requires NoNesting(blocks, kinds) && InOneContextAtMost(blocks, kinds, v) && OneMapOpen(blocks, kinds, v, out)
    requires m in MapIds(blocks, kinds) && v != m
    requires v in ContextIn(blocks, kinds, m) ==> out != []
    ensures m in out <==> v in ContextIn(blocks, kinds, m)
  {
    if v in ContextIn(blocks, kinds, m) {
      assert v !in MapIds(blocks, kinds) && v in ContextIn(blocks, kinds, out[0]);
    }
  }

  ghost predicate RunsOutside(blocks: seq<Block>, kinds: Kinds, m: Id, source: Id) {
    source != m && source !in ContextIn(blocks, kinds, m)
  }

  /** Only the innermost open map counts. */
  lemma BroadcastMeans(r: Analysis, source: Id, target: Id, outer: seq<Id>, m: Id)
    requires target in r.incoming && r.incoming[target] == outer + [m] && source in r.outgoing
    ensures IsBroadcastEdge(r, source, target) <==> source != m && m !in r.outgoing[source]
  {
  }

  /** In a pipeline without nested maps, an edge from a block that no two maps
      fan out is drawn as a broadcast exactly when the source runs outside the
      map whose items the target receives. */
  lemma BroadcastIff(nodes: seq<Node>, blocks: seq<Block>, kinds: Kinds, r: Analysis, source: Id, target: Id)
    requires Mirrors(nodes, blocks, kinds) && Acyclic(EdgesOf(blocks)) && NoNesting(blocks, kinds)
    requires Solves(NodesById(nodes), r.incoming, r.outgoing)
    requires source in Ids(blocks) && target in Ids(blocks) && InOneContextAtMost(blocks, kinds, source)
    ensures target in r.incoming
    ensures IsBroadcastEdge(r, source, target) <==>
            r.incoming[target] != [] && RunsOutside(blocks, kinds, r.incoming[target][0], source)
  {
    TargetContext(nodes, blocks, kinds, r, target);
    if r.incoming[target] != [] && source != r.incoming[target][0] {
      SourceInside(nodes, blocks, kinds, r, r.incoming[target][0], source);
      assert r.incoming[target] == [] + [r.incoming[target][0]];
      BroadcastMeans(r, source, target, [], r.incoming[target][0]);
    }
  }
}
