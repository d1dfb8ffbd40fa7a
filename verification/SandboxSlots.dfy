// The pool of sandbox slots that block processes share (core/executor.go).
module SandboxSlots {
  import opened Digraphs

  const MAX: int := 999

  /** The slots marked as used and where the next scan starts. */
  datatype Pool = Pool(used: set<int>, next: int)

  ghost predicate InRange(p: Pool) {
    0 <= p.next < MAX && forall id :: id in p.used ==> 0 <= id < MAX
  }

  function SlotAfter(p: Pool, i: nat): int {
    (p.next + i) % MAX
  }

  /** The first free slot from the cursor on, wrapping around. */
  ghost predicate FirstFree(p: Pool, id: int) {
    exists i: nat :: i < MAX && SlotAfter(p, i) == id && id !in p.used
      && forall j: nat :: j < i ==> SlotAfter(p, j) in p.used
  }

  /** With every slot taken the answer is slot 0, and nothing is recorded. */
  ghost predicate Allocates(p: Pool, id: int, p': Pool) {
    if |p.used| < MAX then FirstFree(p, id) && p' == Pool(p.used + {id}, (id + 1) % MAX)
    else id == 0 && p' == p
  }

  class SlotAllocator {
    var used: set<int>
    var next: int

    ghost function Current(): Pool
      reads this
    {
      Pool(used, next)
    }

    constructor ()
      ensures Current() == Pool({}, 0) && InRange(Current())
    {
      used := {};
      next := 0;
    }

    method Allocate() returns (id: int)
      requires InRange(Current())
      modifies this
      ensures InRange(Current()) && Allocates(old(Current()), id, Current())
    {
      ghost var p := Current();
      for i := 0 to MAX
        invariant Current() == p
        invariant forall j: nat :: j < i ==> SlotAfter(p, j) in p.used
      {
        id := (next + i) % MAX;
        assert id == SlotAfter(p, i);
        if id !in used {
          used := used + {id};
          next := (id + 1) % MAX;
          assert FirstFree(p, id);
          RoomLeft(p.used, id);
          return;
        }
      }
      AllTaken(p);
      return 0;
    }

    method Release(id: int)
      requires InRange(Current())
      modifies this
      ensures InRange(Current()) && Current() == old(Current()).(used := old(used) - {id})
    {
      used := used - {id};
    }
  }

  // ---- Counting slots ------------------------------------------------------------------

  predicate Below(id: int, n: nat) {
    0 <= id < n
  }

  function Slots(n: nat): set<int> {
    set id: int | 0 <= id < n && Below(id, n)
  }

  lemma {:induction false} SlotCount(n: nat)
    ensures |Slots(n)| == n
  {
    if n > 0 {
      SlotCount(n - 1);
      assert Slots(n) == Slots(n - 1) + {n - 1} by {
        forall id: int
          ensures id in Slots(n) <==> id in Slots(n - 1) || id == n - 1
        {
          assert Below(id, n) <==> Below(id, n - 1) || id == n - 1;
        }
      }
    } else {
      assert Slots(0) == {};
    }
  }

  lemma RoomLeft(used: set<int>, id: int)
    requires 0 <= id < MAX && id !in used && forall x :: x in used ==> 0 <= x < MAX
    ensures |used| < MAX
  {
    SlotCount(MAX);
    forall x | x in used ensures x in Slots(MAX) { assert Below(x, MAX); }
    SubsetCard(used, Slots(MAX));
    assert Below(id, MAX);
  }

  /** The scan visits every slot. */
  lemma AllTaken(p: Pool)
    requires InRange(p) && forall j: nat :: j < MAX ==> SlotAfter(p, j) in p.used
    ensures |p.used| == MAX
  {
    forall id | id in Slots(MAX) ensures id in p.used {
      var j: nat := if p.next <= id then id - p.next else id + MAX - p.next;
      assert SlotAfter(p, j) == id;
    }
    SlotCount(MAX);
    forall x | x in p.used ensures x in Slots(MAX) { assert Below(x, MAX); }
    assert p.used == Slots(MAX);
  }

  // ---- Runs ---------------------------------------------------------------------------------

  /** The pool and the ids its users hold. */
  datatype World = World(pool: Pool, held: seq<int>)

  datatype Event = Allocated(id: int) | Released(position: nat)

  ghost predicate Step(w: World, e: Event, w': World) {
    match e
    case Allocated(id) => Allocates(w.pool, id, w'.pool) && w'.held == w.held + [id]
    case Released(k) =>
      && k < |w.held| && w'.held == w.held[..k] + w.held[k + 1..]
      && w'.pool == w.pool.(used := w.pool.used - {w.held[k]})
  }

  ghost predicate Run(ws: seq<World>, es: seq<Event>) {
    && |ws| == |es| + 1 && ws[0] == World(Pool({}, 0), [])
    && forall n: nat :: n < |es| ==> Step(ws[n], es[n], ws[n + 1])
  }

  /** Every id held is marked and held once, and is a slot. */
  ghost predicate Exclusive(w: World) {
    InRange(w.pool) && Enumerates(w.held, w.pool.used)
  }

  lemma {:induction false} SizeOfEnumeration(s: seq<int>, S: set<int>)
    requires Enumerates(s, S)
    ensures |s| == |S|
  {
    NoDuplicatesCard(s, S);
    if s != [] {
      var n := |s| - 1;
      assert s == s[..n] + [s[n]];
      SizeOfEnumeration(s[..n], S - {s[n]});
    } else {
      assert S == {};
    }
  }

  lemma AllocationStep(w: World, id: int, w': World)
    requires Exclusive(w) && Step(w, Allocated(id), w')
    ensures |w.held| < MAX ==> Exclusive(w')
    ensures |w.held| >= MAX ==> !NoDuplicates(w'.held)
  {
    SizeOfEnumeration(w.held, w.pool.used);
    if |w.held| < MAX {
      NoDuplicatesConcat(w.held, [id]);
    } else {
      SlotCount(MAX);
      forall x | x in w.pool.used ensures x in Slots(MAX) { assert Below(x, MAX); }
      SubsetCard(w.pool.used, Slots(MAX));
      assert Below(0, MAX) && 0 in Slots(MAX) && 0 in w.held;
      var k :| 0 <= k < |w.held| && w.held[k] == 0;
      assert w'.held[k] == w'.held[|w.held|];
    }
  }

  lemma ReleaseStep(w: World, k: nat, w': World)
    requires Exclusive(w) && Step(w, Released(k), w')
    ensures Exclusive(w')
  {
    var a, b := w.held[..k], w.held[k + 1..];
    assert w.held == a + [w.held[k]] + b;
    forall x ensures x in w'.held <==> x in w'.pool.used {
      assert x in w.held <==> x in a || x == w.held[k] || x in b;
      if x in a { var i :| 0 <= i < k && a[i] == x; assert w.held[i] == x; }
      if x in b { var i :| 0 <= i < |b| && b[i] == x; assert w.held[k + 1 + i] == x; }
    }
  }

  /** Over every run, all ids held are pairwise distinct, marked and in range as
      long as no allocation is made while 999 are held. */
  lemma {:induction false} RunIsExclusive(ws: seq<World>, es: seq<Event>, n: nat)
    requires Run(ws, es) && n <= |es|
    requires forall k: nat :: k < n && es[k].Allocated? ==> |ws[k].held| < MAX
    ensures Exclusive(ws[n])
  {
    if n > 0 {
      RunIsExclusive(ws, es, n - 1);
      assert Step(ws[n - 1], es[n - 1], ws[n - 1 + 1]);
      match es[n - 1]
      case Allocated(id) => AllocationStep(ws[n - 1], id, ws[n]);
      case Released(k) => ReleaseStep(ws[n - 1], k, ws[n]);
    }
  }

  ghost predicate AllDistinct(ws: seq<World>) {
    forall n :: 0 <= n < |ws| ==> NoDuplicates(ws[n].held)
  }

  ghost predicate NeverExhausted(ws: seq<World>, es: seq<Event>)
    requires |ws| == |es| + 1
  {
    forall n :: 0 <= n < |es| && es[n].Allocated? ==> |ws[n].held| < MAX
  }

  /** Two users hold the same slot at some time in a run exactly when an
      allocation is made while all 999 are held. */
  lemma DistinctIffNeverExhausted(ws: seq<World>, es: seq<Event>)
    requires Run(ws, es)
    ensures AllDistinct(ws) <==> NeverExhausted(ws, es)
  {
    if NeverExhausted(ws, es) {
      forall n | 0 <= n < |ws| ensures NoDuplicates(ws[n].held) { RunIsExclusive(ws, es, n); }
    } else {
      var n := FirstExhausted(ws, es, 0);
      RunIsExclusive(ws, es, n);
      assert Step(ws[n], es[n], ws[n + 1]);
      AllocationStep(ws[n], es[n].id, ws[n + 1]);
    }
  }

  lemma {:induction false} FirstExhausted(ws: seq<World>, es: seq<Event>, from: nat) returns (n: nat)
    requires |ws| == |es| + 1 && !NeverExhausted(ws, es)
    requires forall k :: 0 <= k < from && k < |es| && es[k].Allocated? ==> |ws[k].held| < MAX
    ensures n < |es| && es[n].Allocated? && |ws[n].held| >= MAX
    ensures forall k: nat :: k < n && es[k].Allocated? ==> |ws[k].held| < MAX
    decreases |es| - from
  {
    if from < |es| && es[from].Allocated? && |ws[from].held| >= MAX {
      n := from;
    } else {
      n := FirstExhausted(ws, es, from + 1);
    }
  }

  // ---- The pool exhausted, concretely -------------------------------------------------------

  /** The world after n allocations and nothing else. */
  function AfterAllocations(n: nat): World {
    World(Pool(Slots(n), n % MAX), seq(n, i requires 0 <= i < n => i))
  }

  lemma NextAllocation(n: nat)
    requires n < MAX
    ensures Step(AfterAllocations(n), Allocated(n), AfterAllocations(n + 1))
  {
    var p := AfterAllocations(n).pool;
    SlotCount(n);
    assert SlotAfter(p, 0) == n;
    assert !Below(n, n) && n !in Slots(n);
    assert FirstFree(p, n);
    SlotsGrow(n);
    assert AfterAllocations(n + 1).held == AfterAllocations(n).held + [n];
  }

  lemma SlotsGrow(n: nat)
    ensures Slots(n + 1) == Slots(n) + {n}
  {
    forall id: int ensures id in Slots(n + 1) <==> id in Slots(n) || id == n {
      assert Below(id, n + 1) <==> Below(id, n) || id == n;
    }
  }

  lemma {:induction false} OnlyAllocations(n: nat) returns (ws: seq<World>, es: seq<Event>)
    requires n <= MAX
    ensures Run(ws, es) && |es| == n && ws[n] == AfterAllocations(n)
    ensures forall e :: e in es ==> e.Allocated?
  {
    if n == 0 {
      ws, es := [World(Pool({}, 0), [])], [];
      assert Slots(0) == {};
    } else {
      ws, es := OnlyAllocations(n - 1);
      NextAllocation(n - 1);
      RunAppended(ws, es, Allocated(n - 1), AfterAllocations(n));
      ws, es := ws + [AfterAllocations(n)], es + [Allocated(n - 1)];
    }
  }

  lemma RunAppended(ws: seq<World>, es: seq<Event>, e: Event, w: World)
    requires Run(ws, es) && Step(ws[|es|], e, w)
    ensures Run(ws + [w], es + [e])
  {
    forall n: nat | n < |es| + 1 ensures Step((ws + [w])[n], (es + [e])[n], (ws + [w])[n + 1]) {
      if n < |es| { assert Step(ws[n], es[n], ws[n + 1]); }
    }
  }

  lemma TakesNext(p: Pool, id: int, p': Pool)
    requires InRange(p) && |p.used| < MAX && Allocates(p, id, p') && p.next !in p.used
    ensures id == p.next && p'.used == p.used + {id}
  {
    assert SlotAfter(p, 0) == p.next;
  }

  /** A slot that has just been released is not the next to be taken: the scan goes
      on behind it. */
  lemma ReleasedSlotRests(id: int, p: Pool, next: int, p': Pool)
    requires Allocates(Pool({}, 0), id, p) && Allocates(p.(used := p.used - {id}), next, p')
    ensures id == 0 && next == 1 && p'.used == {1}
  {
    TakesNext(Pool({}, 0), id, p);
    assert p.used - {id} == {};
    TakesNext(p.(used := p.used - {id}), next, p');
  }

  /** The thousandth user in a row is given slot 0, which the first still holds: the
      999 before it were given slots 0 to 998 in turn. */
  lemma ThousandthSharesSlotZero() returns (ws: seq<World>, es: seq<Event>)
    ensures Run(ws, es) && |es| == 1000 && forall e :: e in es ==> e.Allocated?
    ensures |ws[1000].held| == 1000 && ws[1000].held[999] == 0 && forall i :: 0 <= i < 999 ==> ws[1000].held[i] == i
  {
    ws, es := OnlyAllocations(MAX);
    var w := AfterAllocations(MAX);
    SlotCount(MAX);
    var last := World(w.pool, w.held + [0]);
    assert Step(w, Allocated(0), last);
    RunAppended(ws, es, Allocated(0), last);
    ws, es := ws + [last], es + [Allocated(0)];
  }
}
