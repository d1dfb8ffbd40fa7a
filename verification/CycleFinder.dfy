// The editor's cycle search (web_ui/utils/validate.ts): a three-colour
// depth-first search that returns the cycle it runs into.
module CycleFinder {
  import opened Digraphs
  import opened Pipelines
  import opened DependencyGraphs

  datatype Color = White | Gray | Black

  function RefIds(refs: seq<InputRef>): seq<Id> {
    seq(|refs|, i requires 0 <= i < |refs| => DepId(refs[i]))
  }

  /** Block id to referenced ids; a repeated block id keeps the last block. */
  function References(blocks: seq<Block>): map<Id, seq<Id>> {
    if blocks == [] then map[]
    else
      var last := blocks[|blocks| - 1];
      References(blocks[..|blocks| - 1])[last.id := RefIds(last.inputs)]
  }

  /** From each block to the blocks it refers to; unknown references are skipped. */
  ghost function ReferenceEdges(adj: map<Id, seq<Id>>): Edges {
    set u, v | u in adj && v in adj && v in adj[u] :: (u, v)
  }

  /** The gray nodes form a path of references; a black node's references are
      all blackened before it. */
  ghost predicate Consistent(adj: map<Id, seq<Id>>, color: map<Id, Color>, stack: seq<Id>, finished: seq<Id>) {
    && color.Keys == adj.Keys
    && NoDuplicates(stack) && NoDuplicates(finished)
    && (forall v :: v in stack <==> v in color && color[v] == Gray)
    && (forall v :: v in finished <==> v in color && color[v] == Black)
    && (stack != [] ==> IsPath(ReferenceEdges(adj), stack))
    && Backward(ReferenceEdges(adj), finished)
  }

  ghost predicate Keeps(a: seq<Id>, b: seq<Id>) {
    forall v :: v in a ==> v in b
  }

  /** Every node comes after all the nodes it refers to. */
  ghost predicate Backward(e: Edges, order: seq<Id>) {
    forall i :: 0 <= i < |order| ==> SuccessorsIn(e, order[i], order[..i])
  }

  ghost predicate SuccessorsIn(e: Edges, u: Id, done: seq<Id>) {
    forall v :: (u, v) in e ==> v in done
  }

  lemma PushKeepsPath(e: Edges, stack: seq<Id>, node: Id)
    requires stack != [] ==> IsPath(e, stack) && (stack[|stack| - 1], node) in e
    ensures IsPath(e, stack + [node])
  {
    if stack != [] { Append(e, stack, node); }
  }

  lemma PopKeepsPath(e: Edges, stack: seq<Id>)
    requires stack != [] && IsPath(e, stack)
    ensures |stack| > 1 ==> IsPath(e, stack[..|stack| - 1])
  {
    if |stack| > 1 { Slice(e, stack, 0, |stack| - 1); }
  }

  lemma Finish(e: Edges, finished: seq<Id>, node: Id)
    requires Backward(e, finished) && SuccessorsIn(e, node, finished)
    ensures Backward(e, finished + [node])
  {
    var order := finished + [node];
    forall i | 0 <= i < |order| ensures SuccessorsIn(e, order[i], order[..i]) {
      assert order[..i] == finished[..i];
      if i < |finished| { assert SuccessorsIn(e, finished[i], finished[..i]); }
    }
  }

  lemma LeaveKeeps(adj: map<Id, seq<Id>>, color: map<Id, Color>, stack: seq<Id>, finished: seq<Id>)
    requires Consistent(adj, color, stack, finished) && stack != []
    requires SuccessorsIn(ReferenceEdges(adj), stack[|stack| - 1], finished)
    ensures var node := stack[|stack| - 1];
            Consistent(adj, color[node := Black], stack[..|stack| - 1], finished + [node])
  {
    var node, rest := stack[|stack| - 1], stack[..|stack| - 1];
    assert stack == rest + [node];
    assert node !in rest;
    assert node !in finished by { assert node in stack; }
    Finish(ReferenceEdges(adj), finished, node);
    NoDuplicatesConcat(finished, [node]);
    PopKeepsPath(ReferenceEdges(adj), stack);
  }

  function FirstIndex(s: seq<Id>, v: Id): (i: nat)
    requires v in s
    ensures i < |s| && s[i] == v && v !in s[..i]
  {
    if s[0] == v then 0
    else
      var i := 1 + FirstIndex(s[1..], v);
      assert s[..i] == [s[0]] + s[1..][..i - 1];
      i
  }

  /** The part of the stack from `dep` on, closed by the edge back to it. */
  function CloseCycle(ghost e: Edges, stack: seq<Id>, dep: Id): (cycle: seq<Id>)
    requires dep in stack && IsPath(e, stack) && (stack[|stack| - 1], dep) in e
    ensures IsCycle(e, cycle)
  {
    var idx := FirstIndex(stack, dep);
    Slice(e, stack, idx, |stack|);
    assert stack[idx..] == stack[idx..|stack|];
    Append(e, stack[idx..], dep);
    stack[idx..] + [dep]
  }

  lemma BackwardIsAcyclic(e: Edges, order: seq<Id>)
    requires NoDuplicates(order) && Backward(e, order)
    requires forall u, v :: (u, v) in e ==> u in order && v in order
    ensures Acyclic(e)
  {
    var rank := map v | v in order :: |order| - IndexOf(order, v);
    forall u, v | (u, v) in e ensures rank[u] < rank[v] {
      var i := IndexOf(order, u);
      assert SuccessorsIn(e, order[i], order[..i]);
      var j :| 0 <= j < i && order[..i][j] == v;
      assert order[j] == v;
    }
    RankedIsAcyclic(e, rank);
  }

  lemma SettledOffStack(adj: map<Id, seq<Id>>, color: map<Id, Color>, stack: seq<Id>, finished: seq<Id>, v: Id)
    requires Consistent(adj, color, stack, finished) && v in color && color[v] != White
    requires v !in stack || color[v] != Gray
    ensures v in finished
  {
  }

  class Search {
    const adj: map<Id, seq<Id>>
    var color: map<Id, Color>
    var stack: seq<Id>
    ghost var finished: seq<Id>

    ghost predicate Valid()
      reads this
    {
      Consistent(adj, color, stack, finished)
    }

    ghost function Untouched(): set<Id>
      reads this
    {
      set v | v in color && color[v] == White
    }

    constructor (blocks: seq<Block>)
      ensures Valid() && adj == References(blocks) && stack == []
    {
      adj := References(blocks);
      color := map id | id in References(blocks) :: White;
      stack := [];
      finished := [];
    }

    method Enter(node: Id)
      requires Valid() && node in adj && color[node] == White
      requires stack != [] ==> (stack[|stack| - 1], node) in ReferenceEdges(adj)
      modifies this
      ensures Valid() && stack == old(stack) + [node] && finished == old(finished)
      ensures Untouched() == old(Untouched()) - {node} && node in old(Untouched())
    {
      PushKeepsPath(ReferenceEdges(adj), stack, node);
      color := color[node := Gray];
      stack := stack + [node];
    }

    method Leave(node: Id)
      requires Valid() && stack != [] && stack[|stack| - 1] == node
      requires node in adj && SuccessorsIn(ReferenceEdges(adj), node, finished)
      modifies this
      ensures Valid() && stack == old(stack)[..|old(stack)| - 1] && finished == old(finished) + [node]
      ensures Untouched() == old(Untouched())
    {
      LeaveKeeps(adj, color, stack, finished);
      assert color[node] == Gray;
      stack, color, finished := stack[..|stack| - 1], color[node := Black], finished + [node];
    }

    /** Explores everything below `node`.  Without a cycle the stack is restored
        and every block reached is finished. */
    method Dfs(node: Id) returns (cycle: Option<seq<Id>>)
      requires Valid() && node in adj && color[node] == White
      requires stack != [] ==> (stack[|stack| - 1], node) in ReferenceEdges(adj)
      modifies this
      ensures cycle.Some? ==> IsCycle(ReferenceEdges(adj), cycle.value)
      ensures cycle.None? ==> Valid() && stack == old(stack) && Keeps(old(finished), finished) && node in finished
      ensures cycle.None? ==> Untouched() < old(Untouched())
      decreases Untouched()
    {
      Enter(node);
      var deps := adj[node];
      for k := 0 to |deps|
        invariant Valid() && stack == old(stack) + [node] && Keeps(old(finished), finished)
        invariant Untouched() < old(Untouched())
        invariant forall j :: 0 <= j < k && deps[j] in adj ==> deps[j] in finished
      {
        var dep := deps[k];
        if dep !in adj {
          continue;
        }
        assert (node, dep) in ReferenceEdges(adj);
        if color[dep] == Gray {
          return Some(CloseCycle(ReferenceEdges(adj), stack, dep));
        }
        if color[dep] == White {
          cycle := Dfs(dep);
          if cycle.Some? {
            return;
          }
        } else {
          SettledOffStack(adj, color, stack, finished, dep);
        }
      }
      Leave(node);
      cycle := None;
    }
  }

  /** The keys of the reference map in insertion order. */
  function KeyOrder(blocks: seq<Block>): seq<Id> {
    if blocks == [] then []
    else
      var rest := KeyOrder(blocks[..|blocks| - 1]);
      var id := blocks[|blocks| - 1].id;
      if id in rest then rest else rest + [id]
  }

  lemma {:induction false} KeyOrderCovers(blocks: seq<Block>, id: Id)
    ensures id in KeyOrder(blocks) <==> id in References(blocks)
    ensures id in References(blocks) <==> id in Ids(blocks)
  {
    if blocks != [] {
      KeyOrderCovers(blocks[..|blocks| - 1], id);
      assert blocks == blocks[..|blocks| - 1] + [blocks[|blocks| - 1]];
    }
  }

  lemma KeysAre(blocks: seq<Block>)
    ensures forall id :: id in KeyOrder(blocks) <==> id in References(blocks)
  {
    forall id ensures id in KeyOrder(blocks) <==> id in References(blocks) { KeyOrderCovers(blocks, id); }
  }

  lemma CycleMeansNotAcyclic(e: Edges, p: seq<nat>)
    requires IsCycle(e, p)
    ensures !Acyclic(e)
  {
  }

  /** Nothing exactly when the references contain no cycle; otherwise a genuine one. */
  method FindCycle(blocks: seq<Block>) returns (cycle: Option<seq<Id>>)
    ensures cycle.None? <==> Acyclic(ReferenceEdges(References(blocks)))
    ensures cycle.Some? ==> IsCycle(ReferenceEdges(References(blocks)), cycle.value)
  {
    var search := new Search(blocks);
    var keys := KeyOrder(blocks);
    KeysAre(blocks);
    for i := 0 to |keys|
      invariant search.Valid() && search.stack == [] && search.adj == References(blocks)
      invariant forall j :: 0 <= j < i ==> keys[j] in search.finished
    {
      ghost var before, done := search.finished, search.color[keys[i]] == White;
      if search.color[keys[i]] == White {
        cycle := search.Dfs(keys[i]);
        if cycle.Some? {
          CycleMeansNotAcyclic(ReferenceEdges(search.adj), cycle.value);
          return;
        }
      }
      assert Keeps(before, search.finished);
      if !done { SettledOffStack(search.adj, search.color, search.stack, search.finished, keys[i]); }
    }
    assert forall id :: id in search.adj ==> id in search.finished;
    BackwardIsAcyclic(ReferenceEdges(search.adj), search.finished);
    cycle := None;
  }

  // ---- Against the server's sort ------------------------------------------------

  lemma {:induction false} ReferencesAt(blocks: seq<Block>, b: Block)
    requires b in blocks && UniqueIds(blocks)
    ensures b.id in References(blocks) && References(blocks)[b.id] == RefIds(b.inputs)
  {
    var n := |blocks| - 1;
    if blocks[n] != b {
      var i :| 0 <= i < |blocks| && blocks[i] == b;
      assert blocks[..n][i] == b;
      ReferencesAt(blocks[..n], b);
    }
  }

  lemma {:induction false} ReferencesComeFrom(blocks: seq<Block>, u: Id) returns (b: Block)
    requires u in References(blocks)
    ensures b in blocks && b.id == u && References(blocks)[u] == RefIds(b.inputs)
  {
    b := blocks[|blocks| - 1];
    if b.id != u {
      b := ReferencesComeFrom(blocks[..|blocks| - 1], u);
    }
  }

  /** Each edge the editor follows, unless it leads to the nil id, is an edge of
      the server's graph turned round; the server has no others when ids are
      unique and references known. */
  lemma EdgesTransposed(blocks: seq<Block>, u: Id, v: Id)
    ensures v != NIL && (u, v) in ReferenceEdges(References(blocks)) ==> (v, u) in EdgesOf(blocks)
    ensures UniqueIds(blocks) && ReferencesKnown(blocks) && (v, u) in EdgesOf(blocks) ==>
              v != NIL && (u, v) in ReferenceEdges(References(blocks))
  {
    EdgeListIn(blocks, v, u);
    KeyOrderCovers(blocks, u);
    KeyOrderCovers(blocks, v);
    if v != NIL && (u, v) in ReferenceEdges(References(blocks)) {
      var b := ReferencesComeFrom(blocks, u);
      var i :| 0 <= i < |b.inputs| && RefIds(b.inputs)[i] == v;
      assert b.inputs[i] in b.inputs && DepId(b.inputs[i]) == v;
    }
    if UniqueIds(blocks) && ReferencesKnown(blocks) && (v, u) in EdgesOf(blocks) {
      var b, r :| b in blocks && b.id == u && r in b.inputs && DepId(r) == v;
      ReferencesAt(blocks, b);
      var i :| 0 <= i < |b.inputs| && b.inputs[i] == r;
      assert RefIds(b.inputs)[i] == v;
    }
  }

  // ---- Documents with repeated ids ------------------------------------------------

  function WithoutId(blocks: seq<Block>, id: Id): seq<Block> {
    if blocks == [] then []
    else
      var last := blocks[|blocks| - 1];
      var rest := WithoutId(blocks[..|blocks| - 1], id);
      if last.id == id then rest else rest + [last]
  }

  /** The document with every overwritten block removed. */
  function Survivors(blocks: seq<Block>): seq<Block> {
    if blocks == [] then []
    else
      var last := blocks[|blocks| - 1];
      WithoutId(Survivors(blocks[..|blocks| - 1]), last.id) + [last]
  }

  lemma {:induction false} WithoutIdIn(blocks: seq<Block>, id: Id, b: Block)
    ensures b in WithoutId(blocks, id) <==> b in blocks && b.id != id
  {
    if blocks != [] {
      WithoutIdIn(blocks[..|blocks| - 1], id, b);
      assert blocks == blocks[..|blocks| - 1] + [blocks[|blocks| - 1]];
    }
  }

  lemma AppendUnique(rest: seq<Block>, b: Block, front: seq<Block>)
    requires UniqueIds(rest) && UniqueIds(front + [b]) && forall c :: c in rest ==> c in front
    ensures UniqueIds(rest + [b])
  {
    forall i | 0 <= i < |rest| ensures rest[i].id != b.id {
      assert rest[i] in front;
      var j :| 0 <= j < |front| && front[j] == rest[i];
      assert (front + [b])[j].id != (front + [b])[|front|].id;
    }
  }

  lemma {:induction false} WithoutIdUnique(blocks: seq<Block>, id: Id)
    requires UniqueIds(blocks)
    ensures UniqueIds(WithoutId(blocks, id))
  {
    if blocks != [] {
      var n := |blocks| - 1;
      WithoutIdUnique(blocks[..n], id);
      assert blocks == blocks[..n] + [blocks[n]];
      forall c ensures c in WithoutId(blocks[..n], id) ==> c in blocks[..n] { WithoutIdIn(blocks[..n], id, c); }
      if blocks[n].id != id { AppendUnique(WithoutId(blocks[..n], id), blocks[n], blocks[..n]); }
    }
  }

  lemma ReferencesAppended(blocks: seq<Block>, b: Block)
    ensures References(blocks + [b]) == References(blocks)[b.id := RefIds(b.inputs)]
  {
    assert (blocks + [b])[..|blocks|] == blocks;
  }

  lemma {:induction false} WithoutIdReferences(blocks: seq<Block>, id: Id)
    ensures References(WithoutId(blocks, id)) == References(blocks) - {id}
  {
    if blocks != [] {
      var n := |blocks| - 1;
      WithoutIdReferences(blocks[..n], id);
      if blocks[n].id != id { ReferencesAppended(WithoutId(blocks[..n], id), blocks[n]); }
    }
  }

  lemma {:induction false} SurvivorsUnique(blocks: seq<Block>)
    ensures UniqueIds(Survivors(blocks)) && forall b :: b in Survivors(blocks) ==> b in blocks
  {
    if blocks != [] {
      var n := |blocks| - 1;
      SurvivorsUnique(blocks[..n]);
      var front, last := Survivors(blocks[..n]), blocks[n];
      WithoutIdUnique(front, last.id);
      forall b ensures b in WithoutId(front, last.id) <==>
        b in front && b.id != last.id { WithoutIdIn(front, last.id, b); }
      assert blocks == blocks[..n] + [last];
    }
  }

  lemma {:induction false} SurvivorsReferences(blocks: seq<Block>)
    ensures References(Survivors(blocks)) == References(blocks)
  {
    if blocks != [] {
      var n := |blocks| - 1;
      SurvivorsReferences(blocks[..n]);
      WithoutIdReferences(Survivors(blocks[..n]), blocks[n].id);
      ReferencesAppended(WithoutId(Survivors(blocks[..n]), blocks[n].id), blocks[n]);
    }
  }

  /** The editor's reference map is that of the survivors, whose ids are unique. */
  lemma SurvivorsAre(blocks: seq<Block>)
    ensures UniqueIds(Survivors(blocks)) && References(Survivors(blocks)) == References(blocks)
    ensures forall b :: b in Survivors(blocks) ==> b in blocks
  {
    SurvivorsUnique(blocks);
    SurvivorsReferences(blocks);
  }

  lemma SurvivorsKnown(blocks: seq<Block>)
    requires ReferencesKnown(blocks)
    ensures ReferencesKnown(Survivors(blocks))
  {
    SurvivorsAre(blocks);
    forall id ensures id in Ids(Survivors(blocks)) <==> id in Ids(blocks) {
      KeyOrderCovers(blocks, id);
      KeyOrderCovers(Survivors(blocks), id);
    }
  }

  lemma {:induction false} UniqueSurvive(blocks: seq<Block>)
    requires UniqueIds(blocks)
    ensures Survivors(blocks) == blocks
  {
    if blocks != [] {
      var n := |blocks| - 1;
      UniqueSurvive(blocks[..n]);
      KeepsOthers(blocks[..n], blocks[n].id);
      assert blocks == blocks[..n] + [blocks[n]];
    }
  }

  lemma {:induction false} KeepsOthers(blocks: seq<Block>, id: Id)
    requires forall i :: 0 <= i < |blocks| ==> blocks[i].id != id
    ensures WithoutId(blocks, id) == blocks
  {
    if blocks != [] {
      KeepsOthers(blocks[..|blocks| - 1], id);
      assert blocks == blocks[..|blocks| - 1] + [blocks[|blocks| - 1]];
    }
  }

  // ---- Cycles turned round ------------------------------------------------------------

  function Reversed(p: seq<nat>): seq<nat> {
    seq(|p|, i requires 0 <= i < |p| => p[|p| - 1 - i])
  }

  lemma TransposedCycle(e: Edges, f: Edges, p: seq<nat>)
    requires IsCycle(e, p) && forall u, v :: (u, v) in e ==> (v, u) in f
    ensures IsCycle(f, Reversed(p))
  {
    forall i: nat | i + 1 < |p| ensures StepAt(f, Reversed(p), i) { assert StepAt(e, p, |p| - 2 - i); }
  }

  lemma TransposeAcyclic(e: Edges, f: Edges)
    requires Acyclic(f) && forall u, v :: (u, v) in e ==> (v, u) in f
    ensures Acyclic(e)
  {
    forall p: seq<nat> ensures !IsCycle(e, p) {
      if IsCycle(e, p) { TransposedCycle(e, f, p); }
    }
  }

  lemma RotatedStep(e: Edges, p: seq<nat>, i: nat, k: nat)
    requires IsCycle(e, p) && i < |p| && k + 1 < |p|
    ensures var q := p[i..] + p[1..i + 1]; |q| == |p| && StepAt(e, q, k)
  {
    if k + 1 < |p| - i {
      assert StepAt(e, p, i + k);
    } else if k + 1 == |p| - i {
      assert StepAt(e, p, 0);
    } else {
      assert StepAt(e, p, k - (|p| - i) + 1);
    }
  }

  /** A cycle through x leads from x back to x. */
  lemma CycleReturns(e: Edges, p: seq<nat>, i: nat)
    requires IsCycle(e, p) && i < |p|
    ensures Reaches(e, p[i], p[i])
  {
    var q := p[i..] + p[1..i + 1];
    forall k: nat | k + 1 < |q| ensures StepAt(e, q, k) { RotatedStep(e, p, i, k); }
    assert IsPath(e, q) && q[0] == p[i] && q[|q| - 1] == p[i];
    assert PathFromTo(e, q, p[i], p[i]);
  }

  lemma CycleAvoidingNil(e: Edges, f: Edges, p: seq<nat>)
    requires IsCycle(e, p) && forall u, v :: (u, v) in e && v != NIL ==> (v, u) in f
    ensures Reaches(e, NIL, NIL) || IsCycle(f, Reversed(p))
  {
    if i :| 0 <= i < |p| && p[i] == NIL {
      CycleReturns(e, p, i);
    } else {
      forall i: nat | i + 1 < |p| ensures StepAt(f, Reversed(p), i) { assert StepAt(e, p, |p| - 2 - i); }
    }
  }

  /** The editor reports no cycle exactly when the server's sort succeeds on the
      document without its overwritten blocks and no cycle leads through a block
      that carries the nil id, which the server takes for no reference. */
  lemma EditorAndServerAgree(blocks: seq<Block>)
    requires ReferencesKnown(blocks)
    ensures var e := ReferenceEdges(References(blocks));
            Acyclic(e) <==> Acyclic(EdgesOf(Survivors(blocks))) && !Reaches(e, NIL, NIL)
  {
    SurvivorsAre(blocks);
    SurvivorsKnown(blocks);
    var bs := Survivors(blocks);
    var e, f := ReferenceEdges(References(bs)), EdgesOf(bs);
    forall u: Id, v: Id ensures (v, u) in f <==> v != NIL && (u, v) in e { EdgesTransposed(bs, u, v); }
    if Acyclic(e) {
      TransposeAcyclic(f, e);
      AcyclicNotSelfReaching(e, NIL);
    }
    if Acyclic(f) && !Reaches(e, NIL, NIL) {
      forall p: seq<nat> ensures !IsCycle(e, p) {
        if IsCycle(e, p) { CycleAvoidingNil(e, f, p); }
      }
    }
  }

  /** With unique ids, none of them nil, the two checks are one. */
  lemma UniqueIdsAgree(blocks: seq<Block>)
    requires UniqueIds(blocks) && ReferencesKnown(blocks) && NIL !in Ids(blocks)
    ensures Acyclic(ReferenceEdges(References(blocks))) <==> Acyclic(EdgesOf(blocks))
  {
    EditorAndServerAgree(blocks);
    UniqueSurvive(blocks);
    NilUnreached(blocks);
  }

  lemma NilUnreached(blocks: seq<Block>)
    requires NIL !in Ids(blocks)
    ensures !Reaches(ReferenceEdges(References(blocks)), NIL, NIL)
  {
    var e := ReferenceEdges(References(blocks));
    KeyOrderCovers(blocks, NIL);
    if Reaches(e, NIL, NIL) {
      var u := LastStep(e, NIL, NIL);
    }
  }

  /** Also with repeated ids, a reported cycle that avoids the nil id fails the sort. */
  lemma ReportedCycleFailsSort(blocks: seq<Block>)
    requires !Acyclic(ReferenceEdges(References(blocks))) && !Reaches(ReferenceEdges(References(blocks)), NIL, NIL)
    ensures !Acyclic(EdgesOf(blocks))
  {
    var e, f := ReferenceEdges(References(blocks)), EdgesOf(blocks);
    forall u: Id, v: Id | (u, v) in e && v != NIL ensures (v, u) in f { EdgesTransposed(blocks, u, v); }
    var p: seq<nat> :| IsCycle(e, p);
    CycleAvoidingNil(e, f, p);
    CycleMeansNotAcyclic(f, Reversed(p));
  }

  const SHADOWED: seq<Block> := [Block(1, "", [Bare(2)]), Block(2, "", [Bare(1)]), Block(1, "", [])]

  lemma ShadowedReferences()
    ensures References(SHADOWED) == map[1 := [], 2 := [1]]
  {
    assert SHADOWED[..2][..1] == [SHADOWED[0]] && [SHADOWED[0]][..0] == [];
    assert References(SHADOWED[..2][..1]) == map[1 := RefIds([Bare(2)])];
    assert References(SHADOWED[..2]) == map[1 := RefIds([Bare(2)]), 2 := RefIds([Bare(1)])];
    assert RefIds([Bare(1)]) == [1] && RefIds([]) == [];
  }

  lemma ShadowedCycle()
    ensures !Acyclic(EdgesOf(SHADOWED))
  {
    assert SHADOWED[0] in SHADOWED && SHADOWED[1] in SHADOWED;
    assert Bare(2) in SHADOWED[0].inputs && Bare(1) in SHADOWED[1].inputs;
    EdgeListIn(SHADOWED, 1, 2);
    EdgeListIn(SHADOWED, 2, 1);
    var p: seq<nat> := [1, 2, 1];
    assert StepAt(EdgesOf(SHADOWED), p, 0) && StepAt(EdgesOf(SHADOWED), p, 1);
    assert IsCycle(EdgesOf(SHADOWED), p);
  }

  /** The converse needs unique ids: a later block of the same id hides a cycle
      from the editor that the server's sort still meets. */
  lemma RepeatedIdHidesCycle()
    ensures ReferencesKnown(SHADOWED) && NIL !in Ids(SHADOWED)
    ensures Acyclic(ReferenceEdges(References(SHADOWED))) && !Acyclic(EdgesOf(SHADOWED))
  {
    ShadowedReferences();
    ShadowedCycle();
    RankedIsAcyclic(ReferenceEdges(References(SHADOWED)), map[1 := 1, 2 := 0]);
    assert SHADOWED[0].id in Ids(SHADOWED) && SHADOWED[1].id in Ids(SHADOWED);
  }
}
