// The state of one pipeline's scheduler and what each operation may do to it
// (core/scheduler.go).  Go iterates maps in no fixed order, so promotion and
// fan-out are relations: any enumeration of the ready keys, or of the mapped
// blocks, is allowed.
module SchedulerState {
  import opened Digraphs
  import opened Pipelines

  /** Key of a pending invocation: the block id, or the UUIDv5 (section 5.5 of
      RFC 9562) derived from block id and map index. */
  datatype Key = Base(id: Id) | Mapped(id: Id, index: nat)

  datatype Invocation = Invocation(id: Id, name: string, inputs: seq<InputRef>, index: Option<nat>)

  function KeyOf(inv: Invocation): Key {
    if inv.index.None? then Base(inv.id) else Mapped(inv.id, inv.index.value)
  }

  /** A terminal result.  `count` is the number of expansion items of a map
      block; zero also stands for a missing expansion. */
  datatype BlockResult = Complete(id: Id) | MapDone(id: Id, count: nat) | Failed(id: Id)

  datatype State = State(
    pending: map<Key, Invocation>,
    queue: seq<Invocation>,
    completed: set<Id>,
    cancelled: bool)

  /** The blocks a map block fans out over, per map block. */
  type Contexts = map<Id, set<Id>>

  function InvocationOf(b: Block): Invocation {
    Invocation(b.id, b.name, b.inputs, None)
  }

  predicate DepsDone(inputs: seq<InputRef>, completed: set<Id>) {
    forall r :: r in inputs ==> DepId(r) == NIL || DepId(r) in completed
  }

  function KeysOf(q: seq<Invocation>): seq<Key> {
    seq(|q|, i requires 0 <= i < |q| => KeyOf(q[i]))
  }

  // ---- AddPipeline -----------------------------------------------------------

  /** Blocks without inputs can run at once, the others wait. */
  function AddBlock(s: State, b: Block): State {
    if b.inputs == [] then s.(queue := s.queue + [InvocationOf(b)])
    else s.(pending := s.pending[Base(b.id) := InvocationOf(b)])
  }

  function AddBlocks(s: State, blocks: seq<Block>): State {
    if blocks == [] then s
    else AddBlock(AddBlocks(s, blocks[..|blocks| - 1]), blocks[|blocks| - 1])
  }

  const EMPTY: State := State(map[], [], {}, false)

  /** A new scheduler after its pipeline has been added; an unknown reference
      leaves it empty. */
  ghost function Started(blocks: seq<Block>): State {
    if ReferencesKnown(blocks) then AddBlocks(EMPTY, blocks) else EMPTY
  }

  // ---- promoteReady ----------------------------------------------------------

  function ReadyKeys(s: State): set<Key> {
    set k | k in s.pending && DepsDone(s.pending[k].inputs, s.completed)
  }

  function Pick(pending: map<Key, Invocation>, order: seq<Key>): seq<Invocation>
    requires forall k :: k in order ==> k in pending
  {
    seq(|order|, i requires 0 <= i < |order| => pending[order[i]])
  }

  ghost predicate PromotesIn(s: State, order: seq<Key>, s': State) {
    && Enumerates(order, ReadyKeys(s))
    && s' == s.(pending := s.pending - ToSet(order), queue := s.queue + Pick(s.pending, order))
  }

  /** Every pending invocation whose dependencies are completed joins the queue. */
  ghost predicate Promotes(s: State, s': State) {
    exists order :: PromotesIn(s, order, s')
  }

  // ---- HandleMap -------------------------------------------------------------

  function FindBlock(blocks: seq<Block>, id: Id): Invocation {
    if blocks == [] then Invocation(NIL, "", [], None)
    else if blocks[0].id == id then InvocationOf(blocks[0])
    else FindBlock(blocks[1..], id)
  }

  /** The invocation to fan out: the pending one, else one built from the document. */
  function Original(s: State, blocks: seq<Block>, id: Id): Invocation {
    if Base(id) in s.pending then s.pending[Base(id)] else FindBlock(blocks, id)
  }

  function Instances(original: Invocation, n: nat): seq<Invocation> {
    seq(n, i requires 0 <= i < n => original.(index := Some(i)))
  }

  function InstanceMap(original: Invocation, n: nat): map<Key, Invocation> {
    map i: nat | i < n :: Mapped(original.id, i) := original.(index := Some(i))
  }

  /** N invocations of one mapped block: to the queue if its dependencies are
      completed, otherwise to the pending invocations under their own keys. */
  function ExpandBlock(s: State, blocks: seq<Block>, id: Id, n: nat): State {
    var original := Original(s, blocks, id);
    var others := s.pending - {Base(id)};
    if DepsDone(original.inputs, s.completed) then
      s.(pending := others, queue := s.queue + Instances(original, n))
    else
      s.(pending := others + InstanceMap(original, n))
  }

  lemma ExpandBlockStarts(s: State, blocks: seq<Block>, id: Id)
    ensures ExpandBlock(s, blocks, id, 0) == s.(pending := s.pending - {Base(id)})
  {
    var original := Original(s, blocks, id);
    assert InstanceMap(original, 0) == map[];
    assert s.queue + Instances(original, 0) == s.queue;
  }

  lemma ExpandBlockGrows(s: State, blocks: seq<Block>, id: Id, n: nat)
    ensures var e := ExpandBlock(s, blocks, id, n);
            var inv := Original(s, blocks, id).(index := Some(n));
            ExpandBlock(s, blocks, id, n + 1) ==
              if DepsDone(inv.inputs, s.completed) then e.(queue := e.queue + [inv])
              else e.(pending := e.pending[Mapped(inv.id, n) := inv])
  {
    var original := Original(s, blocks, id);
    var inv := original.(index := Some(n));
    assert s.queue + Instances(original, n + 1) == s.queue + Instances(original, n) + [inv];
    assert InstanceMap(original, n + 1) == InstanceMap(original, n)[Mapped(original.id, n) := inv];
    var others := s.pending - {Base(id)};
    assert others + InstanceMap(original, n + 1) == (others + InstanceMap(original, n))[Mapped(original.id, n) := inv];
  }

  function ExpandAll(s: State, blocks: seq<Block>, ids: seq<Id>, n: nat): State {
    if ids == [] then s
    else ExpandBlock(ExpandAll(s, blocks, ids[..|ids| - 1], n), blocks, ids[|ids| - 1], n)
  }

  ghost predicate HandlesMapIn(blocks: seq<Block>, contexts: Contexts, s: State, id: Id, n: nat, ids: seq<Id>,
                               s': State)
  {
    id in contexts && Enumerates(ids, contexts[id]) &&
    s' == ExpandAll(s.(completed := s.completed + {id}), blocks, ids, n)
  }

  ghost predicate HandlesMap(blocks: seq<Block>, contexts: Contexts, s: State, id: Id, n: nat, s': State) {
    if n == 0 || id !in contexts then s' == s
    else exists ids :: HandlesMapIn(blocks, contexts, s, id, n, ids, s')
  }

  // ---- Update ----------------------------------------------------------------

  function Halted(s: State): State {
    State(map[], [], s.completed, true)
  }

  ghost predicate Updates(blocks: seq<Block>, contexts: Contexts, s: State, r: BlockResult, s': State) {
    match r
    case Failed(_) => s' == Halted(s)
    case Complete(id) => Promotes(s.(completed := s.completed + {id}), s')
    case MapDone(id, n) => exists mid :: HandlesMap(blocks, contexts, s, id, n, mid) && Promotes(mid, s')
  }

  // ---- Where things are in the queue ---------------------------------------------

  /** How many of the first n blocks have no inputs. */
  ghost function SourcesBefore(blocks: seq<Block>, n: nat): nat
    requires n <= |blocks|
  {
    if n == 0 then 0 else SourcesBefore(blocks, n - 1) + if blocks[n - 1].inputs == [] then 1 else 0
  }

  lemma {:induction false} SourcesOfPrefix(blocks: seq<Block>, n: nat, i: nat)
    requires i <= n <= |blocks|
    ensures SourcesBefore(blocks[..n], i) == SourcesBefore(blocks, i)
  {
    if i > 0 { SourcesOfPrefix(blocks, n, i - 1); }
  }

  lemma {:induction false} MoreSources(blocks: seq<Block>, i: nat, j: nat)
    requires i <= j <= |blocks|
    ensures SourcesBefore(blocks, i) <= SourcesBefore(blocks, j)
  {
    if i < j {
      MoreSources(blocks, i, j - 1);
    }
  }

  /** The queue of an added pipeline holds its sources in document order, and
      nothing else. */
  lemma {:induction false} SourceAt(blocks: seq<Block>, i: nat)
    requires i < |blocks|
    ensures var q := AddBlocks(EMPTY, blocks).queue;
            && |q| == SourcesBefore(blocks, |blocks|)
            && (blocks[i].inputs == [] ==>
                  SourcesBefore(blocks, i) < |q| && q[SourcesBefore(blocks, i)] == InvocationOf(blocks[i]))
  {
    var n := |blocks| - 1;
    SourcesOfPrefix(blocks, n, n);
    if n > 0 {
      SourceAt(blocks[..n], if i < n then i else 0);
      if i < n { SourcesOfPrefix(blocks, n, i); }
    }
  }

  lemma SourcesInOrder(blocks: seq<Block>, i: nat, j: nat)
    requires ReferencesKnown(blocks) && i < j < |blocks| && blocks[i].inputs == [] && blocks[j].inputs == []
    ensures exists x, y :: 0 <= x < y < |Started(blocks).queue|
              && Started(blocks).queue[x] == InvocationOf(blocks[i])
              && Started(blocks).queue[y] == InvocationOf(blocks[j])
  {
    SourceAt(blocks, i);
    SourceAt(blocks, j);
    MoreSources(blocks, i + 1, j);
    var x, y := SourcesBefore(blocks, i), SourcesBefore(blocks, j);
    assert Started(blocks).queue[x] == InvocationOf(blocks[i]) && Started(blocks).queue[y] == InvocationOf(blocks[j]);
  }

  /** The invocations of a block that is ready are queued by ascending index,
      behind what is there; otherwise each waits under its own key. */
  lemma FannedOutByIndex(s: State, blocks: seq<Block>, id: Id, n: nat, i: nat)
    requires i < n
    ensures var original := Original(s, blocks, id);
            var e := ExpandBlock(s, blocks, id, n);
            && s.queue <= e.queue
            && (if DepsDone(original.inputs, s.completed)
                then |e.queue| == |s.queue| + n && e.queue[|s.queue| + i] == original.(index := Some(i))
                else e.queue == s.queue && Mapped(original.id, i) in e.pending
                     && e.pending[Mapped(original.id, i)] == original.(index := Some(i)))
  {
    assert Mapped(Original(s, blocks, id).id, i) in InstanceMap(Original(s, blocks, id), n);
  }

  // ---- Facts about the operations ---------------------------------------------

  /** A bare reference waits for the block it names, an explicit one for the
      block it takes the output of; the nil id is waited for by neither. */
  lemma ReadyMeans(inputs: seq<InputRef>, completed: set<Id>)
    ensures DepsDone(inputs, completed) <==>
            forall i :: 0 <= i < |inputs| ==>
              match inputs[i]
              case Bare(id) => id == 0 || id in completed
              case Explicit(block, _, _) => block == 0 || block in completed
  {
    forall i | 0 <= i < |inputs| ensures inputs[i] in inputs {}
  }

  /** The first block with the id is taken, and a blank invocation if there is none. */
  lemma {:induction false} FindBlockFirst(blocks: seq<Block>, id: Id)
    ensures id !in Ids(blocks) ==> FindBlock(blocks, id) == Invocation(0, "", [], None)
    ensures forall i :: 0 <= i < |blocks| && blocks[i].id == id && (forall j :: 0 <= j < i ==> blocks[j].id != id) ==>
              FindBlock(blocks, id) == InvocationOf(blocks[i])
  {
    if blocks != [] && blocks[0].id != id {
      var rest := blocks[1..];
      FindBlockFirst(rest, id);
      assert Ids(rest) <= Ids(blocks);
      forall i | 0 <= i < |blocks| && blocks[i].id == id && (forall j :: 0 <= j < i ==> blocks[j].id != id)
        ensures FindBlock(blocks, id) == InvocationOf(blocks[i])
      {
        assert rest[i - 1] == blocks[i];
        forall j | 0 <= j < i - 1 ensures rest[j].id != id { assert rest[j] == blocks[j + 1]; }
      }
    } else if blocks != [] {
      assert blocks[0] in blocks;
    }
  }

  lemma FindBlockFinds(blocks: seq<Block>, b: Block)
    requires b in blocks && UniqueIds(blocks)
    ensures FindBlock(blocks, b.id) == InvocationOf(b)
  {
    FindBlockFirst(blocks, b.id);
    var i :| 0 <= i < |blocks| && blocks[i] == b;
  }

  lemma KeysOfConcat(p: seq<Invocation>, q: seq<Invocation>)
    ensures KeysOf(p + q) == KeysOf(p) + KeysOf(q)
  {
  }

  /** Promotion leaves nothing behind that is ready. */
  lemma PromotesSaturates(s: State, s': State)
    requires Promotes(s, s')
    ensures ReadyKeys(s') == {}
    ensures s'.completed == s.completed && s'.cancelled == s.cancelled
    ensures s.queue <= s'.queue
  {
    var order :| PromotesIn(s, order, s');
    forall k | k in s'.pending ensures !DepsDone(s'.pending[k].inputs, s'.completed) {
      assert k !in ReadyKeys(s);
    }
  }

  /** Without a ready invocation promotion changes nothing. */
  lemma PromotesIdle(s: State, s': State)
    requires ReadyKeys(s) == {} && Promotes(s, s')
    ensures s' == s
  {
    var order :| PromotesIn(s, order, s');
    NoDuplicatesCard(order, {});
    assert s.pending - ToSet(order) == s.pending;
    assert s.queue + Pick(s.pending, order) == s.queue;
  }

  /** Promotion and updates are possible in every state. */
  lemma PromotesTotal(s: State) returns (s': State)
    ensures Promotes(s, s')
  {
    var order := EnumerationExists(ReadyKeys(s));
    s' := s.(pending := s.pending - ToSet(order), queue := s.queue + Pick(s.pending, order));
    assert PromotesIn(s, order, s');
  }

  lemma UpdatesTotal(blocks: seq<Block>, contexts: Contexts, s: State, r: BlockResult) returns (s': State)
    ensures Updates(blocks, contexts, s, r, s')
  {
    match r
    case Failed(_) => s' := Halted(s);
    case Complete(id) => s' := PromotesTotal(s.(completed := s.completed + {id}));
    case MapDone(id, n) =>
      var mid := s;
      if n > 0 && id in contexts {
        var ids := EnumerationExists(contexts[id]);
        mid := ExpandAll(s.(completed := s.completed + {id}), blocks, ids, n);
        assert HandlesMapIn(blocks, contexts, s, id, n, ids, mid);
      }
      s' := PromotesTotal(mid);
  }
}
