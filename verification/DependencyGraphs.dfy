// The dependency graph of a pipeline and Kahn's sort (core/pipeline.go).
module DependencyGraphs {
  import opened Digraphs
  import opened Pipelines

  /** Adjacency lists with one entry per reference, so a block that refers to
      the same dependency twice contributes two entries. */
  datatype DependencyGraph = DependencyGraph(
    forward: map<Id, seq<Id>>,
    reverse: map<Id, seq<Id>>,
    all: set<Id>)

  // ---- The references of a pipeline as a list of edges ---------------------

  function RefEdges(id: Id, refs: seq<InputRef>): seq<(Id, Id)> {
    if refs == [] then []
    else
      var last := DepId(refs[|refs| - 1]);
      RefEdges(id, refs[..|refs| - 1]) + (if last == NIL then [] else [(last, id)])
  }

  /** One (dependency, dependent) pair per non-nil reference, in document order. */
  function EdgeList(blocks: seq<Block>): seq<(Id, Id)> {
    if blocks == [] then []
    else
      var last := blocks[|blocks| - 1];
      EdgeList(blocks[..|blocks| - 1]) + RefEdges(last.id, last.inputs)
  }

  ghost function EdgesOf(blocks: seq<Block>): Edges {
    ToSet(EdgeList(blocks))
  }

  function Targets(es: seq<(Id, Id)>, u: Id): seq<Id> {
    if es == [] then []
    else
      var last := es[|es| - 1];
      var rest := Targets(es[..|es| - 1], u);
      if last.0 == u then rest + [last.1] else rest
  }

  function Sources(es: seq<(Id, Id)>, v: Id): seq<Id> {
    if es == [] then []
    else
      var last := es[|es| - 1];
      var rest := Sources(es[..|es| - 1], v);
      if last.1 == v then rest + [last.0] else rest
  }

  /** Dependents and dependencies are listed in the order of the references. */
  lemma {:induction false} AdjacencyInOrder(a: seq<(Id, Id)>, b: seq<(Id, Id)>, x: Id)
    ensures Targets(a + b, x) == Targets(a, x) + Targets(b, x) && Sources(a + b, x) == Sources(a, x) + Sources(b, x)
  {
    if b == [] {
      assert a + b == a;
    } else {
      AdjacencyInOrder(a, b[..|b| - 1], x);
      assert (a + b)[..|a + b| - 1] == a + b[..|b| - 1];
    }
  }

  ghost predicate IsGraphOf(g: DependencyGraph, blocks: seq<Block>) {
    && g.all == Ids(blocks)
    && Indexes(g.forward, g.reverse, EdgeList(blocks))
  }

  lemma {:induction false} RefEdgesIn(id: Id, refs: seq<InputRef>, u: Id, v: Id)
    ensures (u, v) in RefEdges(id, refs) <==> v == id && u != NIL && exists r :: r in refs && DepId(r) == u
  {
    if refs != [] {
      var n := |refs| - 1;
      RefEdgesIn(id, refs[..n], u, v);
      assert refs == refs[..n] + [refs[n]];
      if v == id && u != NIL && exists r :: r in refs && DepId(r) == u {
        var r :| r in refs && DepId(r) == u;
        assert r in refs[..n] || r == refs[n];
      }
    }
  }

  /** What an edge of the graph means in the document. */
  lemma {:induction false} EdgeListIn(blocks: seq<Block>, u: Id, v: Id)
    ensures (u, v) in EdgeList(blocks) <==>
            u != NIL && exists b, r :: b in blocks && b.id == v && r in b.inputs && DepId(r) == u
  {
    if blocks != [] {
      var n := |blocks| - 1;
      EdgeListIn(blocks[..n], u, v);
      RefEdgesIn(blocks[n].id, blocks[n].inputs, u, v);
      assert blocks == blocks[..n] + [blocks[n]];
      if u != NIL && exists b, r :: b in blocks && b.id == v && r in b.inputs && DepId(r) == u {
        var b, r :| b in blocks && b.id == v && r in b.inputs && DepId(r) == u;
        assert b in blocks[..n] || b == blocks[n];
      }
    }
  }

  lemma EdgesAreKnown(blocks: seq<Block>)
    requires ReferencesKnown(blocks)
    ensures forall e :: e in EdgeList(blocks) ==> e.0 in Ids(blocks) && e.1 in Ids(blocks)
  {
    forall e | e in EdgeList(blocks) ensures e.0 in Ids(blocks) && e.1 in Ids(blocks) {
      EdgeListIn(blocks, e.0, e.1);
    }
  }

  /** How often x appears in s. */
  function Occurs(s: seq<Id>, x: Id): nat {
    if s == [] then 0
    else Occurs(s[..|s| - 1], x) + (if s[|s| - 1] == x then 1 else 0)
  }

  lemma {:induction false} OccursFirst(s: seq<Id>, x: Id)
    requires s != []
    ensures Occurs(s, x) == Occurs(s[1..], x) + (if s[0] == x then 1 else 0)
  {
    var n := |s| - 1;
    if n > 0 {
      OccursFirst(s[..n], x);
      assert s[..n][1..] == s[1..][..n - 1];
    }
  }

  lemma OccursAppended(s: seq<Id>, t: Id, x: Id)
    ensures Occurs(s + [t], x) == Occurs(s, x) + (if t == x then 1 else 0)
  {
    assert (s + [t])[..|s|] == s;
  }

  /** Forward and Reverse are transposes of each other as multisets: v appears
      among u's dependents as often as u appears among v's dependencies. */
  lemma {:induction false} ForwardReverseTranspose(es: seq<(Id, Id)>, u: Id, v: Id)
    ensures Occurs(Targets(es, u), v) == Occurs(Sources(es, v), u)
    ensures Occurs(Targets(es, u), v) > 0 <==> (u, v) in es
    ensures v in Targets(es, u) <==> (u, v) in es
  {
    if es != [] {
      var n := |es| - 1;
      ForwardReverseTranspose(es[..n], u, v);
      assert es == es[..n] + [es[n]];
      OccursAppended(Targets(es[..n], u), es[n].1, v);
      OccursAppended(Sources(es[..n], v), es[n].0, u);
    }
  }

  ghost predicate Indexes(forward: map<Id, seq<Id>>, reverse: map<Id, seq<Id>>, es: seq<(Id, Id)>) {
    && (forall u {:trigger Targets(es, u)} :: Lookup(forward, u) == Targets(es, u))
    && (forall v {:trigger Sources(es, v)} :: Lookup(reverse, v) == Sources(es, v))
  }

  lemma IndexesAppended(forward: map<Id, seq<Id>>, reverse: map<Id, seq<Id>>, es: seq<(Id, Id)>, u: Id, v: Id)
    requires Indexes(forward, reverse, es)
    ensures Indexes(forward[u := Lookup(forward, u) + [v]], reverse[v := Lookup(reverse, v) + [u]], es + [(u, v)])
  {
    var es' := es + [(u, v)];
    var forward', reverse' := forward[u := Lookup(forward, u) + [v]], reverse[v := Lookup(reverse, v) + [u]];
    assert es'[..|es|] == es;
    forall x ensures Lookup(forward', x) == Targets(es', x) { assert Lookup(forward, x) == Targets(es, x); }
    forall x ensures Lookup(reverse', x) == Sources(es', x) { assert Lookup(reverse, x) == Sources(es, x); }
  }

  ghost predicate RefsKnown(refs: seq<InputRef>, all: set<Id>) {
    forall ref :: ref in refs ==> DepId(ref) == NIL || DepId(ref) in all
  }

  /** The edges of one block; stops at the first reference to an unknown block. */
  method AddReferences(block: Block, all: set<Id>, forward0: map<Id, seq<Id>>, reverse0: map<Id, seq<Id>>,
                       ghost es: seq<(Id, Id)>)
    returns (known: bool, forward: map<Id, seq<Id>>, reverse: map<Id, seq<Id>>)
    requires Indexes(forward0, reverse0, es)
    ensures known <==> RefsKnown(block.inputs, all)
    ensures known ==> Indexes(forward, reverse, es + RefEdges(block.id, block.inputs))
  {
    known, forward, reverse := true, forward0, reverse0;
    ghost var cur := es;
    for j := 0 to |block.inputs|
      invariant Indexes(forward, reverse, cur)
      invariant cur == es + RefEdges(block.id, block.inputs[..j])
      invariant RefsKnown(block.inputs[..j], all)
    {
      assert block.inputs[..j + 1][..j] == block.inputs[..j];
      assert block.inputs[..j + 1] == block.inputs[..j] + [block.inputs[j]];
      var depId := DepId(block.inputs[j]);
      if depId == NIL {
        continue;
      }
      if depId !in all {
        known := false;
        return;
      }
      IndexesAppended(forward, reverse, cur, depId, block.id);
      forward := forward[depId := Lookup(forward, depId) + [block.id]];
      reverse := reverse[block.id := Lookup(reverse, block.id) + [depId]];
      cur := cur + [(depId, block.id)];
    }
    assert block.inputs[..|block.inputs|] == block.inputs;
  }

  method BuildDependencyGraph(blocks: seq<Block>) returns (r: Result<DependencyGraph>)
    ensures r.Ok? <==> ReferencesKnown(blocks)
    ensures r.Ok? ==> IsGraphOf(r.value, blocks)
  {
    var all: set<Id> := {};
    for i := 0 to |blocks|
      invariant all == Ids(blocks[..i])
    {
      assert blocks[..i + 1] == blocks[..i] + [blocks[i]];
      all := all + {blocks[i].id};
    }
    assert blocks[..|blocks|] == blocks;
    var forward: map<Id, seq<Id>> := map[];
    var reverse: map<Id, seq<Id>> := map[];
    for i := 0 to |blocks|
      invariant Indexes(forward, reverse, EdgeList(blocks[..i]))
      invariant forall b :: b in blocks[..i] ==> RefsKnown(b.inputs, all)
    {
      var known;
      known, forward, reverse := AddReferences(blocks[i], all, forward, reverse, EdgeList(blocks[..i]));
      if !known {
        var ref :| ref in blocks[i].inputs && DepId(ref) != NIL && DepId(ref) !in all;
        assert blocks[i] in blocks;
        return Err("reference to an unknown dependency");
      }
      assert blocks[..i + 1][..i] == blocks[..i];
      assert blocks[..i + 1] == blocks[..i] + [blocks[i]];
    }
    r := Ok(DependencyGraph(forward, reverse, all));
  }

  // ---- Kahn's sort ---------------------------------------------------------------

  /** How many edges into v start outside `done`. */
  ghost function Remaining(es: seq<(Id, Id)>, v: Id, done: set<Id>): nat {
    if es == [] then 0
    else
      var last := es[|es| - 1];
      Remaining(es[..|es| - 1], v, done) + (if last.1 == v && last.0 !in done then 1 else 0)
  }

  lemma {:induction false} RemainingInitially(es: seq<(Id, Id)>, v: Id)
    ensures Remaining(es, v, {}) == |Sources(es, v)|
  {
    if es != [] { RemainingInitially(es[..|es| - 1], v); }
  }

  lemma {:induction false} RemainingAfter(es: seq<(Id, Id)>, v: Id, done: set<Id>, u: Id)
    requires u !in done
    ensures Remaining(es, v, done) == Remaining(es, v, done + {u}) + Occurs(Targets(es, u), v)
  {
    if es != [] {
      var n := |es| - 1;
      RemainingAfter(es[..n], v, done, u);
      OccursAppended(Targets(es[..n], u), es[n].1, v);
    }
  }

  lemma {:induction false} RemainingZero(es: seq<(Id, Id)>, v: Id, done: set<Id>)
    ensures Remaining(es, v, done) == 0 <==> forall u :: (u, v) in es ==> u in done
  {
    if es != [] {
      var n := |es| - 1;
      RemainingZero(es[..n], v, done);
      assert es == es[..n] + [es[n]];
    }
  }

  ghost predicate Adjacent(all: set<Id>, forward: map<Id, seq<Id>>, es: seq<(Id, Id)>) {
    && (forall u {:trigger Targets(es, u)} :: Lookup(forward, u) == Targets(es, u))
    && (forall e :: e in es ==> e.0 in all && e.1 in all)
  }

  ghost predicate PredecessorsIn(es: seq<(Id, Id)>, v: Id, done: seq<Id>) {
    forall u :: (u, v) in es ==> u in done
  }

  /** Each node of the order comes after all its predecessors. */
  ghost predicate EdgesForward(es: seq<(Id, Id)>, order: seq<Id>) {
    forall j :: 0 <= j < |order| ==> PredecessorsIn(es, order[j], order[..j])
  }

  ghost predicate DegreesMatch(es: seq<(Id, Id)>, all: set<Id>, inDegree: map<Id, int>, done: seq<Id>) {
    inDegree.Keys == all && forall v :: v in all ==> inDegree[v] == Remaining(es, v, ToSet(done))
  }

  /** A node is placed or queued exactly when no edge into it is left. */
  ghost predicate QueueMatches(all: set<Id>, inDegree: map<Id, int>, placed: seq<Id>) {
    && NoDuplicates(placed)
    && (forall v :: v in placed ==> v in all)
    && inDegree.Keys == all
    && (forall v :: v in all ==> (v in placed <==> inDegree[v] == 0))
  }

  /** One pass over the dependents of `node`: every occurrence takes one edge away. */
  method RelaxDependents(node: Id, dependents: seq<Id>, all: set<Id>, inDegree0: map<Id, int>, queue0: seq<Id>,
                         ghost es: seq<(Id, Id)>, ghost placed: seq<Id>)
    returns (inDegree: map<Id, int>, queue: seq<Id>)
    requires forall e :: e in es ==> e.0 in all && e.1 in all
    requires dependents == Targets(es, node)
    requires node !in placed
    requires DegreesMatch(es, all, inDegree0, placed)
    requires QueueMatches(all, inDegree0, placed + [node] + queue0)
    ensures DegreesMatch(es, all, inDegree, placed + [node])
    ensures QueueMatches(all, inDegree, placed + [node] + queue)
  {
    inDegree, queue := inDegree0, queue0;
    ghost var known := placed + [node] + queue;
    ghost var rest := dependents;
    RelaxStart(es, all, node, inDegree0, placed, queue0);
    for k := 0 to |dependents|
      invariant rest == dependents[k..] && known == placed + [node] + queue
      invariant PartlyRelaxed(es, all, inDegree, ToSet(placed + [node]), rest, known)
    {
      var dep := dependents[k];
      RelaxOne(es, all, inDegree, ToSet(placed + [node]), rest, known);
      rest := rest[1..];
      inDegree := inDegree[dep := inDegree[dep] - 1];
      if inDegree[dep] == 0 {
        queue := queue + [dep];
        known := known + [dep];
      }
    }
    assert DegreesMatch(es, all, inDegree, placed + [node]);
  }

  /** Part-way through a node's dependents: `rest` still has to be counted down. */
  ghost predicate PartlyRelaxed(es: seq<(Id, Id)>, all: set<Id>, inDegree: map<Id, int>, done: set<Id>,
                                rest: seq<Id>, known: seq<Id>)
  {
    && QueueMatches(all, inDegree, known)
    && (forall v :: v in rest ==> v in all)
    && (forall v {:trigger Occurs(rest, v)} {:trigger inDegree[v]} :: v in all ==>
          inDegree[v] == Remaining(es, v, done) + Occurs(rest, v))
  }

  lemma RelaxStart(es: seq<(Id, Id)>, all: set<Id>, node: Id, inDegree: map<Id, int>, placed: seq<Id>, queue: seq<Id>)
    requires forall e :: e in es ==> e.0 in all && e.1 in all
    requires node !in placed && DegreesMatch(es, all, inDegree, placed)
    requires QueueMatches(all, inDegree, placed + [node] + queue)
    ensures PartlyRelaxed(es, all, inDegree, ToSet(placed + [node]), Targets(es, node), placed + [node] + queue)
  {
    assert ToSet(placed + [node]) == ToSet(placed) + {node};
    forall v | v in Targets(es, node) ensures v in all {
      ForwardReverseTranspose(es, node, v);
    }
    forall v | v in all ensures inDegree[v] == Remaining(es, v, ToSet(placed + [node])) + Occurs(Targets(es, node), v) {
      RemainingAfter(es, v, ToSet(placed), node);
    }
  }

  lemma RelaxOne(es: seq<(Id, Id)>, all: set<Id>, inDegree: map<Id, int>, done: set<Id>, rest: seq<Id>, known: seq<Id>)
    requires rest != [] && PartlyRelaxed(es, all, inDegree, done, rest, known)
    ensures var dep := rest[0];
            && dep in inDegree && inDegree[dep] > 0
            && PartlyRelaxed(es, all, inDegree[dep := inDegree[dep] - 1], done, rest[1..],
                             if inDegree[dep] == 1 then known + [dep] else known)
  {
    var dep := rest[0];
    forall v | v in all ensures Occurs(rest, v) == Occurs(rest[1..], v) + (if dep == v then 1 else 0) {
      OccursFirst(rest, v);
    }
  }

  lemma PlacedFits(all: set<Id>, sorted: seq<Id>, node: Id, queue: seq<Id>)
    requires NoDuplicates(sorted + [node] + queue)
    requires forall v :: v in sorted + [node] + queue ==> v in all
    ensures |sorted| < |all|
  {
    var p := sorted + [node];
    forall i, j | 0 <= i < j < |p| ensures p[i] != p[j] {
      assert p[i] == (sorted + [node] + queue)[i] && p[j] == (sorted + [node] + queue)[j];
    }
    NoDuplicatesCard(p, all);
  }

  lemma NotPlacedTwice(sorted: seq<Id>, node: Id, queue: seq<Id>)
    requires NoDuplicates(sorted + [node] + queue)
    ensures node !in sorted
  {
    var known := sorted + [node] + queue;
    assert known[|sorted|] == node;
    forall i | 0 <= i < |sorted| ensures sorted[i] != node {
      assert known[i] == sorted[i];
    }
  }

  /** The queue loop of Kahn's algorithm, run to exhaustion. */
  method KahnLoop(all: set<Id>, forward: map<Id, seq<Id>>, inDegree0: map<Id, int>, queue0: seq<Id>,
                  ghost es: seq<(Id, Id)>)
    returns (sorted: seq<Id>)
    requires Adjacent(all, forward, es)
    requires DegreesMatch(es, all, inDegree0, [])
    requires QueueMatches(all, inDegree0, queue0)
    ensures NoDuplicates(sorted) && (forall v :: v in sorted ==> v in all)
    ensures EdgesForward(es, sorted)
    ensures PredecessorClosed(ToSet(es), all - ToSet(sorted))
  {
    sorted := [];
    var queue, inDegree := queue0, inDegree0;
    assert [] + queue0 == queue0;
    while queue != []
      invariant DegreesMatch(es, all, inDegree, sorted)
      invariant QueueMatches(all, inDegree, sorted + queue)
      invariant EdgesForward(es, sorted)
      decreases |all| - |sorted|
    {
      var node := queue[0];
      ghost var was := sorted;
      assert sorted + queue == sorted + [node] + queue[1..];
      assert (sorted + queue)[|sorted|] == node;
      NotPlacedTwice(sorted, node, queue[1..]);
      RemainingZero(es, node, ToSet(sorted));
      assert PredecessorsIn(es, node, sorted);
      queue := queue[1..];
      PlacedFits(all, sorted, node, queue);
      inDegree, queue := RelaxDependents(node, Lookup(forward, node), all, inDegree, queue, es, sorted);
      sorted := sorted + [node];
      forall j | 0 <= j < |sorted| ensures PredecessorsIn(es, sorted[j], sorted[..j]) {
        if j < |was| { assert sorted[..j] == was[..j]; } else { assert sorted[..j] == was; }
      }
    }
    assert sorted + queue == sorted;
    ghost var left := all - ToSet(sorted);
    forall v | v in left ensures HasPredecessorIn(ToSet(es), left, v) {
      RemainingZero(es, v, ToSet(sorted));
      var u :| (u, v) in es && u !in sorted;
      assert u in left;
    }
  }

  lemma ForwardOrderIsAcyclic(es: seq<(Id, Id)>, order: seq<Id>)
    requires NoDuplicates(order) && EdgesForward(es, order)
    requires forall e :: e in es ==> e.0 in order && e.1 in order
    ensures Acyclic(ToSet(es))
  {
    var rank := map v | v in order :: IndexOf(order, v);
    forall u, v | (u, v) in es ensures rank[u] < rank[v] {
      var j := IndexOf(order, v);
      assert PredecessorsIn(es, order[j], order[..j]);
      var i :| 0 <= i < j && order[..j][i] == u;
      assert order[i] == u;
    }
    RankedIsAcyclic(ToSet(es), rank);
  }

  ghost function IndexOf(s: seq<Id>, v: Id): (i: nat)
    requires v in s
    ensures i < |s| && s[i] == v
  {
    var i :| 0 <= i < |s| && s[i] == v; i
  }

  lemma NothingLeft(es: seq<(Id, Id)>, all: set<Id>, sorted: seq<Id>)
    requires NoDuplicates(sorted) && (forall v :: v in sorted ==> v in all)
    requires EdgesForward(es, sorted)
    requires forall e :: e in es ==> e.0 in all && e.1 in all
    requires PredecessorClosed(ToSet(es), all - ToSet(sorted))
    ensures |sorted| == |all| <==> Acyclic(ToSet(es))
    ensures |sorted| == |all| ==> Enumerates(sorted, all)
  {
    NoDuplicatesCard(sorted, all);
    if |sorted| == |all| {
      ForwardOrderIsAcyclic(es, sorted);
    } else {
      var left := all - ToSet(sorted);
      if left == {} {
        forall v | v in all ensures v in sorted {
          assert v !in left;
        }
        CardOfAll(all, sorted);
      }
      PredecessorClosedHasCycle(ToSet(es), left);
    }
  }

  lemma {:induction false} CardOfAll(all: set<Id>, s: seq<Id>)
    requires forall v :: v in all ==> v in s
    ensures |all| <= |s|
  {
    if s != [] {
      var n := |s| - 1;
      assert s == s[..n] + [s[n]];
      CardOfAll(all - {s[n]}, s[..n]);
    }
  }

  /** The nodes without incoming edges, in whatever order the map yields them. */
  method ZeroDegree(all: set<Id>, inDegree: map<Id, int>) returns (queue: seq<Id>)
    requires inDegree.Keys == all
    ensures QueueMatches(all, inDegree, queue)
  {
    queue := [];
    var unseen := all;
    while unseen != {}
      invariant unseen <= all && NoDuplicates(queue)
      invariant forall v :: v in queue ==> v in all && v !in unseen && inDegree[v] == 0
      invariant forall v :: v in all && v !in unseen && inDegree[v] == 0 ==> v in queue
      decreases unseen
    {
      var id :| id in unseen;
      unseen := unseen - {id};
      if inDegree[id] == 0 {
        queue := queue + [id];
      }
    }
  }

  /** Sound and complete for graphs with repeated references: an order is
      returned exactly when the graph has no cycle, and it lists every block
      once with all edges pointing forward. */
  method TopologicalSort(g: DependencyGraph, ghost blocks: seq<Block>) returns (r: Result<seq<Id>>)
    requires IsGraphOf(g, blocks) && ReferencesKnown(blocks)
    ensures r.Ok? <==> Acyclic(EdgesOf(blocks))
    ensures r.Ok? ==> Enumerates(r.value, Ids(blocks)) && EdgesForward(EdgeList(blocks), r.value)
  {
    ghost var es := EdgeList(blocks);
    EdgesAreKnown(blocks);
    var inDegree := map v | v in g.all :: |Lookup(g.reverse, v)|;
    forall v | v in g.all ensures inDegree[v] == Remaining(es, v, ToSet<Id>([])) {
      RemainingInitially(es, v);
      assert (ToSet<Id>([])) == {};
    }
    var queue := ZeroDegree(g.all, inDegree);
    var sorted := KahnLoop(g.all, g.forward, inDegree, queue, es);
    NothingLeft(es, g.all, sorted);
    if |sorted| != |g.all| {
      return Err("cycle detected in dependency graph");
    }
    r := Ok(sorted);
  }
}
