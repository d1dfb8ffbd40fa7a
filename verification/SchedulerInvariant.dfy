// What every reachable scheduler state keeps, whichever way its queue is
// served: one invocation at a time by the command line (cli/cmd/run.go) or in
// sweeps with results coming back in any order (server/engine/engine.go).
module SchedulerInvariant {
  import opened Digraphs
  import opened Pipelines
  import opened DependencyGraphs
  import opened SchedulerState

  /** A validated pipeline, its map contexts, and how many items each map block
      will turn out to yield. */
  datatype Plan = Plan(blocks: seq<Block>, contexts: Contexts, fan: map<Id, nat>) {
    ghost predicate DependsOn(b: Id, d: Id) {
      (d, b) in EdgesOf(blocks)
    }

    ghost predicate DepsIn(b: Id, completed: set<Id>) {
      forall d :: DependsOn(b, d) ==> d in completed
    }

    /** b lies in the context of map m. */
    ghost predicate Under(m: Id, b: Id) {
      m in contexts && b in contexts[m]
    }

    ghost predicate EntersContext(m: Id, b: Id) {
      exists d :: DependsOn(b, d) && (d == m || Under(m, d))
    }

    /** What validation ensures of the blocks alone. */
    ghost predicate ValidBlocks() {
      UniqueIds(blocks) && NoNilReference(blocks) && ReferencesKnown(blocks) && Acyclic(EdgesOf(blocks))
    }

    /** A pipeline validation accepts: contexts lie below their map and hold no map. */
    ghost predicate Sound() {
      && ValidBlocks()
      && fan.Keys == contexts.Keys && contexts.Keys <= Ids(blocks)
      && (forall m, b :: Under(m, b) ==> b in Ids(blocks) && b !in contexts && EntersContext(m, b))
    }

    /** Two maps fan b out, and b can be left waiting for the last of them alone. */
    ghost predicate Clashes(first: Id, last: Id, b: Id) {
      && first != last && Under(first, b) && Under(last, b) && DependsOn(b, last)
      && forall d :: DependsOn(b, d) && d != last ==> !Reaches(EdgesOf(blocks), last, d)
    }

    /** No map above b comes back empty. */
    ghost predicate CanRun(b: Id) {
      forall m :: m in contexts && Reaches(EdgesOf(blocks), m, b) ==> m in fan && fan[m] > 0
    }

    /** Nowhere can two expansions launch an invocation twice. */
    ghost predicate Valid() {
      Sound() && forall first, last, b :: Clashes(first, last, b) ==> !CanRun(b)
    }

    /** A map above b has completed, so b is replaced by indexed invocations. */
    ghost predicate Expanded(b: Id, completed: set<Id>) {
      exists m :: Under(m, b) && m in completed
    }

    /** The invocations the plan consists of once `completed` has finished. */
    ghost predicate Instance(k: Key, completed: set<Id>) {
      match k
      case Base(b) => b in Ids(blocks) && !Expanded(b, completed)
      case Mapped(b, i) => exists m :: Under(m, b) && m in completed && m in fan && i < fan[m]
    }

    ghost function BlockAt(id: Id): Block
      requires id in Ids(blocks)
    {
      var b :| b in blocks && b.id == id; b
    }

    ghost function InvocationFor(k: Key): Invocation
      requires k.id in Ids(blocks)
    {
      var b := BlockAt(k.id);
      Invocation(b.id, b.name, b.inputs, if k.Base? then None else Some(k.index))
    }

    /** A map block that yields nothing never counts as completed. */
    ghost predicate Effective(b: Id) {
      b in contexts ==> b in fan && fan[b] > 0
    }

    /** The result an invocation reports when it succeeds. */
    ghost function ResultOf(k: Key): BlockResult
      requires fan.Keys == contexts.Keys
    {
      if k.Base? && k.id in contexts then MapDone(k.id, fan[k.id]) else Complete(k.id)
    }
  }

  /** A scheduler state together with the invocations handed out so far, in
      order, and those whose result has come back. */
  datatype System = System(s: State, taken: seq<Key>, reported: set<Key>) {
    ghost function Launched(): seq<Key> {
      taken + KeysOf(s.queue)
    }
  }

  // ---- The invariant, clause by clause -----------------------------------------

  ghost predicate WellFormed(p: Plan, sys: System) {
    && (forall k :: k in sys.s.pending ==> k.id in Ids(p.blocks) && sys.s.pending[k] == p.InvocationFor(k))
    && (forall inv :: inv in sys.s.queue ==> inv.id in Ids(p.blocks) && inv == p.InvocationFor(KeyOf(inv)))
  }

  /** Some invocation has been launched twice. */
  ghost predicate Repeats(sys: System) {
    !NoDuplicates(sys.Launched())
  }

  /** Only an invocation of a mapped block may be there twice. */
  ghost predicate AtMostTwice(keys: seq<Key>) {
    forall k: Key :: multiset(keys)[k] <= if k.Base? then 1 else 2
  }

  /** Pending and launched invocations are the plan's, and none is both. */
  ghost predicate Placed(p: Plan, sys: System) {
    && (forall k :: k in sys.s.pending ==> k !in sys.Launched())
    && (forall k :: k in sys.s.pending || k in sys.Launched() ==> p.Instance(k, sys.s.completed))
  }

  /** The invocations of one block are launched together. */
  ghost predicate SiblingsTogether(sys: System) {
    forall j, k :: j in sys.s.pending && k in sys.Launched() ==> j.id != k.id
  }

  ghost predicate HasReported(reported: set<Key>, b: Id) {
    exists k :: k in reported && k.id == b
  }

  ghost predicate CompletedHasReported(p: Plan, sys: System) {
    && (forall k :: k in sys.reported ==> k in sys.taken)
    && (forall b :: b in sys.s.completed ==> p.Effective(b) && HasReported(sys.reported, b))
  }

  ghost predicate Saturated(p: Plan, sys: System) {
    forall k :: k in sys.s.pending ==> !p.DepsIn(k.id, sys.s.completed)
  }

  ghost predicate LaunchedWhenReady(p: Plan, sys: System) {
    forall k :: k in sys.Launched() ==> p.DepsIn(k.id, sys.s.completed)
  }

  /** What failures and cancellation keep too: nothing is launched before its
      dependencies, nor while it waits. */
  ghost predicate Safe(p: Plan, sys: System) {
    && WellFormed(p, sys)
    && Placed(p, sys)
    && AtMostTwice(sys.Launched())
    && SiblingsTogether(sys)
    && CompletedHasReported(p, sys)
    && Saturated(p, sys)
    && LaunchedWhenReady(p, sys)
  }

  /** Nothing of the plan has been lost. */
  ghost predicate AllPlaced(p: Plan, sys: System) {
    forall k :: p.Instance(k, sys.s.completed) ==> k in sys.s.pending || k in sys.Launched()
  }

  ghost predicate ReportedCompletes(p: Plan, sys: System) {
    forall b :: p.Effective(b) && HasReported(sys.reported, b) ==> b in sys.s.completed
  }

  /** Everything k depends on, siblings included, is among `before`. */
  ghost predicate AfterDependencies(p: Plan, completed: set<Id>, k: Key, before: seq<Key>) {
    forall d, j :: p.DependsOn(k.id, d) && p.Instance(j, completed) && j.id == d ==> j in before
  }

  /** An invocation is launched only after all invocations of every dependency. */
  ghost predicate LaunchOrder(p: Plan, completed: set<Id>, launched: seq<Key>) {
    forall i :: 0 <= i < |launched| ==> AfterDependencies(p, completed, launched[i], launched[..i])
  }

  /** The invariant of runs in which every result is a success. */
  ghost predicate Inv(p: Plan, sys: System) {
    && Safe(p, sys)
    && !sys.s.cancelled
    && AllPlaced(p, sys)
    && ReportedCompletes(p, sys)
    && LaunchOrder(p, sys.s.completed, sys.Launched())
  }

  // ---- Facts about plans ---------------------------------------------------------

  lemma BlockAtFinds(p: Plan, b: Block)
    requires UniqueIds(p.blocks) && b in p.blocks
    ensures b.id in Ids(p.blocks) && p.BlockAt(b.id) == b
  {
    var c := p.BlockAt(b.id);
    var i :| 0 <= i < |p.blocks| && p.blocks[i] == b;
    var j :| 0 <= j < |p.blocks| && p.blocks[j] == c;
  }

  lemma InvocationForBase(p: Plan, b: Block)
    requires UniqueIds(p.blocks) && b in p.blocks
    ensures b.id in Ids(p.blocks) && p.InvocationFor(Base(b.id)) == InvocationOf(b)
  {
    BlockAtFinds(p, b);
  }

  /** The code's readiness test is readiness of the block. */
  lemma ReadyIffDepsIn(p: Plan, k: Key, completed: set<Id>)
    requires p.ValidBlocks() && k.id in Ids(p.blocks)
    ensures DepsDone(p.InvocationFor(k).inputs, completed) <==> p.DepsIn(k.id, completed)
  {
    var b := p.BlockAt(k.id);
    if DepsDone(b.inputs, completed) {
      forall d | p.DependsOn(b.id, d) ensures d in completed {
        EdgeListIn(p.blocks, d, b.id);
        var c, r :| c in p.blocks && c.id == b.id && r in c.inputs && DepId(r) == d;
        BlockAtFinds(p, c);
      }
    }
    if p.DepsIn(b.id, completed) {
      forall r | r in b.inputs ensures DepId(r) in completed {
        EdgeListIn(p.blocks, DepId(r), b.id);
        assert p.DependsOn(b.id, DepId(r));
      }
    }
  }

  lemma ReadyKeysAre(p: Plan, s: State)
    requires p.ValidBlocks()
    requires forall k :: k in s.pending ==> k.id in Ids(p.blocks) && s.pending[k] == p.InvocationFor(k)
    ensures forall k :: k in ReadyKeys(s) <==> k in s.pending && p.DepsIn(k.id, s.completed)
  {
    forall k | k in s.pending ensures k in ReadyKeys(s) <==> p.DepsIn(k.id, s.completed) {
      ReadyIffDepsIn(p, k, s.completed);
    }
  }

  lemma DependencyKnown(p: Plan, b: Id, d: Id)
    requires p.ValidBlocks() && p.DependsOn(b, d)
    ensures d in Ids(p.blocks) && b in Ids(p.blocks)
  {
    EdgesAreKnown(p.blocks);
    assert (d, b).0 in Ids(p.blocks);
  }

  lemma KeyOfInvocationFor(p: Plan, k: Key)
    requires k.id in Ids(p.blocks)
    ensures KeyOf(p.InvocationFor(k)) == k
  {
  }

  /** A block of a context is reachable from the map. */
  lemma {:induction false} UnderReaches(p: Plan, m: Id, b: Id, rank: map<Id, nat>)
    requires p.Sound() && p.Under(m, b)
    requires rank.Keys == Ids(p.blocks) && RespectsEdges(EdgesOf(p.blocks), rank)
    ensures Reaches(EdgesOf(p.blocks), m, b)
    decreases rank[b]
  {
    assert p.EntersContext(m, b);
    var d :| p.DependsOn(b, d) && (d == m || p.Under(m, d));
    DependencyKnown(p, b, d);
    if d == m {
      EdgeReaches(EdgesOf(p.blocks), m, b);
    } else {
      UnderReaches(p, m, d, rank);
      ReachesThenEdge(EdgesOf(p.blocks), m, d, b);
    }
  }

  lemma ContextIsBelow(p: Plan, m: Id)
    requires p.Sound()
    ensures forall b :: p.Under(m, b) ==> Reaches(EdgesOf(p.blocks), m, b)
  {
    var rank := AcyclicHasRank(EdgesOf(p.blocks), Ids(p.blocks));
    forall b | p.Under(m, b) ensures Reaches(EdgesOf(p.blocks), m, b) {
      UnderReaches(p, m, b, rank);
    }
  }

  /** Whatever lies below a block that has not completed neither has completed
      nor been launched. */
  lemma DownstreamWaits(p: Plan, sys: System, u: Id)
    requires p.Sound() && Safe(p, sys) && u !in sys.s.completed
    ensures forall v :: Reaches(EdgesOf(p.blocks), u, v) ==> v !in sys.s.completed && !HasLaunched(sys, v)
  {
    var e := EdgesOf(p.blocks);
    forall v | Reaches(e, u, v) ensures v !in sys.s.completed && !HasLaunched(sys, v) {
      var waiting := (Ids(p.blocks) + {u}) - sys.s.completed;
      forall x: Id, y: Id | x in waiting && (x, y) in e ensures y in waiting && !HasLaunched(sys, y) {
        StepWaits(p, sys, x, y);
      }
      var d := LastStep(e, u, v);
      if d != u { ReachesStaysClosed(e, waiting, u, d); }
    }
  }

  ghost predicate HasLaunched(sys: System, b: Id) {
    exists k :: k in sys.Launched() && k.id == b
  }

  lemma StepWaits(p: Plan, sys: System, x: Id, y: Id)
    requires p.ValidBlocks() && CompletedHasReported(p, sys) && LaunchedWhenReady(p, sys)
    requires x !in sys.s.completed && (x, y) in EdgesOf(p.blocks)
    ensures y in Ids(p.blocks) && y !in sys.s.completed && !HasLaunched(sys, y)
  {
    assert p.DependsOn(y, x);
    DependencyKnown(p, y, x);
    assert forall r :: r in sys.reported ==> r in sys.Launched();
    assert forall k :: k in sys.Launched() ==> k.id != y;
  }

  // ---- How often an invocation is launched -------------------------------------

  lemma {:induction false} AtMostOnce(keys: seq<Key>)
    requires NoDuplicates(keys)
    ensures forall k :: multiset(keys)[k] <= 1
    ensures AtMostTwice(keys)
  {
    if keys != [] {
      var n := |keys| - 1;
      AtMostOnce(keys[..n]);
      assert keys == keys[..n] + [keys[n]];
      assert forall i :: 0 <= i < n ==> keys[i] != keys[n];
      assert keys[n] !in keys[..n];
    }
  }

  lemma AtMostTwiceConcat(a: seq<Key>, b: seq<Key>)
    requires AtMostTwice(a) && AtMostTwice(b) && forall k :: k in b ==> k !in a
    ensures AtMostTwice(a + b)
  {
    assert multiset(a + b) == multiset(a) + multiset(b);
    forall k: Key ensures multiset(a + b)[k] <= if k.Base? then 1 else 2 {
      if k !in b { assert multiset(b)[k] == 0; }
    }
  }

  lemma OnceThenOnce(a: seq<Key>, b: seq<Key>)
    requires NoDuplicates(a) && NoDuplicates(b) && forall k :: k in a ==> k.Mapped?
    ensures AtMostTwice(a + b)
  {
    AtMostOnce(a);
    AtMostOnce(b);
    assert multiset(a + b) == multiset(a) + multiset(b);
    forall k: Key ensures multiset(a + b)[k] <= if k.Base? then 1 else 2 {
      if k.Base? { assert k !in a && multiset(a)[k] == 0; }
    }
  }

  lemma AtMostTwiceParts(a: seq<Key>, b: seq<Key>)
    requires AtMostTwice(a + b)
    ensures AtMostTwice(a) && AtMostTwice(b)
    ensures forall k: Key :: k.Base? && k in b ==> k !in a
  {
    assert multiset(a + b) == multiset(a) + multiset(b);
  }

  lemma {:induction false} BoundedCard(m: multiset<Key>, universe: set<Key>)
    requires forall k :: k in m ==> k in universe && m[k] <= 2
    ensures |m| <= 2 * |universe|
  {
    if universe == {} {
      assert m == multiset{};
    } else {
      var k :| k in universe;
      BoundedCard(m[k := 0], universe - {k});
    }
  }

  // ---- The start -----------------------------------------------------------------

  ghost predicate AddedBlocks(p: Plan, blocks: seq<Block>, s: State) {
    && s.completed == {} && !s.cancelled
    && (forall k :: k in s.pending <==> k.Base? && HasBlock(blocks, k.id, true))
    && (forall k :: k in KeysOf(s.queue) <==> k.Base? && HasBlock(blocks, k.id, false))
    && NoDuplicates(KeysOf(s.queue))
    && (forall k :: k in s.pending ==> k.id in Ids(p.blocks) && s.pending[k] == p.InvocationFor(k))
    && (forall inv :: inv in s.queue ==> inv.id in Ids(p.blocks) && inv == p.InvocationFor(KeyOf(inv)))
  }

  ghost predicate HasBlock(blocks: seq<Block>, id: Id, inputs: bool) {
    exists b :: b in blocks && b.id == id && (b.inputs != [] <==> inputs)
  }

  lemma HasBlockAppended(blocks: seq<Block>, b: Block, id: Id, inputs: bool)
    ensures HasBlock(blocks + [b], id, inputs) <==>
            HasBlock(blocks, id, inputs) || (b.id == id && (b.inputs != [] <==> inputs))
  {
    assert b in blocks + [b];
    forall c ensures c in blocks + [b] <==> c in blocks || c == b {}
    if HasBlock(blocks, id, inputs) {
      var c :| c in blocks && c.id == id && (c.inputs != [] <==> inputs);
      assert c in blocks + [b];
    }
  }

  lemma AddWaiting(p: Plan, rest: seq<Block>, s: State, b: Block)
    requires UniqueIds(p.blocks) && b in p.blocks && b.inputs != [] && AddedBlocks(p, rest, s)
    ensures AddedBlocks(p, rest + [b], AddBlock(s, b))
  {
    InvocationForBase(p, b);
    var s' := AddBlock(s, b);
    forall k ensures k in s'.pending <==> k.Base? && HasBlock(rest + [b], k.id, true) {
      HasBlockAppended(rest, b, k.id, true);
    }
    forall k ensures k in KeysOf(s'.queue) <==> k.Base? && HasBlock(rest + [b], k.id, false) {
      HasBlockAppended(rest, b, k.id, false);
    }
  }

  lemma AddSource(p: Plan, rest: seq<Block>, s: State, b: Block)
    requires UniqueIds(p.blocks) && b in p.blocks && b.inputs == [] && AddedBlocks(p, rest, s)
    requires !HasBlock(rest, b.id, false)
    ensures AddedBlocks(p, rest + [b], AddBlock(s, b))
  {
    InvocationForBase(p, b);
    var s' := AddBlock(s, b);
    KeysOfConcat(s.queue, [InvocationOf(b)]);
    assert KeysOf(s'.queue) == KeysOf(s.queue) + [Base(b.id)];
    forall k ensures k in s'.pending <==> k.Base? && HasBlock(rest + [b], k.id, true) {
      HasBlockAppended(rest, b, k.id, true);
    }
    forall k ensures k in KeysOf(s'.queue) <==> k.Base? && HasBlock(rest + [b], k.id, false) {
      HasBlockAppended(rest, b, k.id, false);
    }
  }

  lemma {:induction false} AddBlocksIs(p: Plan, blocks: seq<Block>)
    requires UniqueIds(p.blocks) && blocks <= p.blocks
    ensures AddedBlocks(p, blocks, AddBlocks(EMPTY, blocks))
  {
    if blocks != [] {
      var n := |blocks| - 1;
      var rest := blocks[..n];
      var b := blocks[n];
      AddBlocksIs(p, rest);
      assert b == p.blocks[n] && blocks == rest + [b];
      forall c | c in rest ensures c.id != b.id {
        var i :| 0 <= i < n && rest[i] == c;
        assert p.blocks[i] == c;
      }
      if b.inputs != [] {
        AddWaiting(p, rest, AddBlocks(EMPTY, rest), b);
      } else {
        AddSource(p, rest, AddBlocks(EMPTY, rest), b);
      }
    }
  }

  lemma InitialPlaces(p: Plan, s: State)
    requires AddedBlocks(p, p.blocks, s)
    ensures forall k :: p.Instance(k, {}) <==> k in s.pending || k in KeysOf(s.queue)
  {
    forall k ensures p.Instance(k, {}) <==> k in s.pending || k in KeysOf(s.queue) {
      if p.Instance(k, {}) {
        var b :| b in p.blocks && b.id == k.id;
      }
    }
  }

  /** Blocks with inputs wait, and those without are ready. */
  lemma InitialReadiness(p: Plan, s: State)
    requires p.ValidBlocks() && AddedBlocks(p, p.blocks, s)
    ensures forall k :: k in s.pending ==> p.InvocationFor(k).inputs != [] && !p.DepsIn(k.id, {})
    ensures forall k :: k in KeysOf(s.queue) ==>
            k.id in Ids(p.blocks) && p.InvocationFor(k).inputs == [] && p.DepsIn(k.id, {})
  {
    forall k | k in s.pending ensures p.InvocationFor(k).inputs != [] && !p.DepsIn(k.id, {}) {
      var b :| b in p.blocks && b.id == k.id && b.inputs != [];
      InvocationForBase(p, b);
      assert b.inputs[0] in b.inputs;
      ReadyIffDepsIn(p, k, {});
    }
    forall k | k in KeysOf(s.queue)
      ensures k.id in Ids(p.blocks) && p.InvocationFor(k).inputs == [] && p.DepsIn(k.id, {})
    {
      var b :| b in p.blocks && b.id == k.id && b.inputs == [];
      InvocationForBase(p, b);
      ReadyIffDepsIn(p, k, {});
    }
  }

  lemma InitialIsSafe(p: Plan, s: State)
    requires p.ValidBlocks() && AddedBlocks(p, p.blocks, s)
    ensures Safe(p, System(s, [], {})) && !Repeats(System(s, [], {}))
  {
    InitialPlaces(p, s);
    InitialReadiness(p, s);
    assert System(s, [], {}).Launched() == KeysOf(s.queue);
    AtMostOnce(KeysOf(s.queue));
  }

  lemma InitialOrder(p: Plan, launched: seq<Key>)
    requires forall k :: k in launched ==> p.DepsIn(k.id, {})
    ensures LaunchOrder(p, {}, launched)
  {
    forall i | 0 <= i < |launched| ensures AfterDependencies(p, {}, launched[i], launched[..i]) {
      assert launched[i] in launched;
    }
  }

  lemma InitialIsLive(p: Plan, s: State)
    requires p.ValidBlocks() && AddedBlocks(p, p.blocks, s)
    ensures Inv(p, System(s, [], {})) && !Repeats(System(s, [], {}))
  {
    var sys := System(s, [], {});
    InitialIsSafe(p, s);
    InitialPlaces(p, s);
    InitialReadiness(p, s);
    assert sys.Launched() == KeysOf(s.queue);
    InitialOrder(p, sys.Launched());
  }

  /** A freshly added pipeline satisfies the invariant. */
  lemma InitialInv(p: Plan)
    requires p.Sound()
    ensures var sys := System(AddBlocks(EMPTY, p.blocks), [], {});
            Inv(p, sys) && !Repeats(sys)
  {
    AddBlocksIs(p, p.blocks);
    InitialIsLive(p, AddBlocks(EMPTY, p.blocks));
  }
}
