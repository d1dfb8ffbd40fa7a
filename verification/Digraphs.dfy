// Finite directed graphs as edge sets: paths, cycles, reachability, and the
// facts about acyclicity that the pipeline modules share.
module Digraphs {
  type Edges = set<(nat, nat)>

  ghost predicate StepAt(e: Edges, p: seq<nat>, i: nat)
    requires i + 1 < |p|
  {
    (p[i], p[i + 1]) in e
  }

  ghost predicate IsPath(e: Edges, p: seq<nat>) {
    |p| > 0 && forall i: nat :: i + 1 < |p| ==> StepAt(e, p, i)
  }

  /** A cycle is written with its first node repeated at the end. */
  ghost predicate IsCycle(e: Edges, p: seq<nat>) {
    IsPath(e, p) && |p| >= 2 && p[0] == p[|p| - 1]
  }

  ghost predicate Acyclic(e: Edges) {
    forall p: seq<nat> :: !IsCycle(e, p)
  }

  ghost predicate PathFromTo(e: Edges, p: seq<nat>, u: nat, v: nat) {
    IsPath(e, p) && |p| >= 2 && p[0] == u && p[|p| - 1] == v
  }

  /** v can be reached from u along one or more edges. */
  ghost predicate Reaches(e: Edges, u: nat, v: nat) {
    exists p: seq<nat> :: PathFromTo(e, p, u, v)
  }

  ghost predicate NoDuplicates<T>(s: seq<T>) {
    forall i, j :: 0 <= i < j < |s| ==> s[i] != s[j]
  }

  ghost predicate Enumerates<T(!new)>(s: seq<T>, S: set<T>) {
    NoDuplicates(s) && forall x :: x in s <==> x in S
  }

  ghost function ToSet<T>(s: seq<T>): set<T> {
    set x | x in s
  }

  // ---- Sequences without duplicates -------------------------------------

  lemma {:induction false} NoDuplicatesCard<T(!new)>(s: seq<T>, S: set<T>)
    requires NoDuplicates(s) && forall x :: x in s ==> x in S
    ensures |s| <= |S|
    ensures |s| == |S| ==> forall x :: x in S ==> x in s
  {
    if s != [] {
      var last := s[|s| - 1];
      var rest := s[..|s| - 1];
      assert last !in rest;
      forall x | x in rest ensures x in S - {last} {}
      NoDuplicatesCard(rest, S - {last});
      assert s == rest + [last];
    }
  }

  lemma NoDuplicatesConcat<T(!new)>(a: seq<T>, b: seq<T>)
    requires NoDuplicates(a) && NoDuplicates(b) && forall x :: x in a ==> x !in b
    ensures NoDuplicates(a + b)
  {
    forall i, j | 0 <= i < j < |a + b| ensures (a + b)[i] != (a + b)[j] {
      if i < |a| <= j { assert a[i] in a && b[j - |a|] in b; }
    }
  }

  lemma SubsetCard<T>(a: set<T>, b: set<T>)
    requires a <= b
    ensures |a| <= |b| && (|a| == |b| ==> a == b)
  {
    var rest := b - a;
    assert b == a + rest;
    if |a| == |b| { assert rest == {}; }
  }

  lemma NoDuplicatesParts<T(!new)>(a: seq<T>, b: seq<T>)
    requires NoDuplicates(a + b)
    ensures NoDuplicates(a) && NoDuplicates(b) && forall x :: x in a ==> x !in b
  {
    var l := a + b;
    forall i, j | 0 <= i < j < |a| ensures a[i] != a[j] { assert l[i] == a[i] && l[j] == a[j]; }
    forall i, j | 0 <= i < j < |b| ensures b[i] != b[j] { assert l[|a| + i] == b[i] && l[|a| + j] == b[j]; }
    forall i, j | 0 <= i < |a| && 0 <= j < |b| ensures a[i] != b[j] { assert l[i] == a[i] && l[|a| + j] == b[j]; }
  }

  lemma ToSetGrows<T>(s: seq<T>, x: T)
    ensures ToSet(s + [x]) == ToSet(s) + {x}
  {
  }

  lemma {:induction false} EnumerationExists<T(!new)>(S: set<T>) returns (s: seq<T>)
    ensures Enumerates(s, S)
  {
    if S == {} {
      s := [];
    } else {
      var x :| x in S;
      var rest := EnumerationExists(S - {x});
      s := [x] + rest;
      assert forall y :: y in s <==> y == x || y in rest;
    }
  }

  lemma Pigeonhole(p: seq<nat>, S: set<nat>) returns (i: nat, j: nat)
    requires |p| > |S| && forall x :: x in p ==> x in S
    ensures i < j < |p| && p[i] == p[j]
  {
    if NoDuplicates(p) {
      NoDuplicatesCard(p, S);
    }
    i, j :| 0 <= i < j < |p| && p[i] == p[j];
  }

  // ---- Paths ---------------------------------------------------------------

  lemma Slice(e: Edges, p: seq<nat>, i: nat, j: nat)
    requires IsPath(e, p) && i < j <= |p|
    ensures IsPath(e, p[i..j])
  {
    forall k: nat | k + 1 < j - i ensures StepAt(e, p[i..j], k) {
      assert StepAt(e, p, i + k);
    }
  }

  lemma Prepend(e: Edges, u: nat, p: seq<nat>)
    requires IsPath(e, p) && (u, p[0]) in e
    ensures IsPath(e, [u] + p)
  {
    forall k: nat | k + 1 < |p| + 1 ensures StepAt(e, [u] + p, k) {
      if k > 0 { assert StepAt(e, p, k - 1); }
    }
  }

  lemma Append(e: Edges, p: seq<nat>, v: nat)
    requires IsPath(e, p) && (p[|p| - 1], v) in e
    ensures IsPath(e, p + [v])
  {
    forall k: nat | k + 1 < |p| + 1 ensures StepAt(e, p + [v], k) {
      if k + 1 < |p| { assert StepAt(e, p, k); }
    }
  }

  // ---- Acyclicity ----------------------------------------------------------

  ghost predicate HasPredecessorIn(e: Edges, S: set<nat>, v: nat) {
    exists u :: u in S && (u, v) in e
  }

  ghost predicate PredecessorClosed(e: Edges, S: set<nat>) {
    forall v {:trigger HasPredecessorIn(e, S, v)} :: v in S ==> HasPredecessorIn(e, S, v)
  }

  lemma {:induction false} BackwardPath(e: Edges, S: set<nat>, n: nat) returns (p: seq<nat>)
    requires S != {} && PredecessorClosed(e, S)
    ensures |p| == n + 1 && IsPath(e, p) && forall x :: x in p ==> x in S
  {
    if n == 0 {
      var v :| v in S;
      p := [v];
    } else {
      var q := BackwardPath(e, S, n - 1);
      assert q[0] in S && HasPredecessorIn(e, S, q[0]);
      var u :| u in S && (u, q[0]) in e;
      Prepend(e, u, q);
      p := [u] + q;
    }
  }

  /** A non-empty set in which every node has a predecessor contains a cycle. */
  lemma PredecessorClosedHasCycle(e: Edges, S: set<nat>)
    requires S != {} && PredecessorClosed(e, S)
    ensures !Acyclic(e)
  {
    var p := BackwardPath(e, S, |S|);
    var i, j := Pigeonhole(p, S);
    Slice(e, p, i, j + 1);
    assert IsCycle(e, p[i..j + 1]);
  }

  lemma MinimalElement(e: Edges, S: set<nat>) returns (x: nat)
    requires Acyclic(e) && S != {}
    ensures x in S && forall u :: u in S ==> (u, x) !in e
  {
    if PredecessorClosed(e, S) {
      PredecessorClosedHasCycle(e, S);
    }
    x :| x in S && !HasPredecessorIn(e, S, x);
  }

  ghost predicate RespectsEdges(e: Edges, rank: map<nat, nat>) {
    forall u, v :: (u, v) in e && u in rank && v in rank ==> rank[u] < rank[v]
  }

  /** Ranks along which every edge goes up: the measure for recursion over a
      pipeline without cycles. */
  lemma {:induction false} AcyclicHasRank(e: Edges, S: set<nat>) returns (rank: map<nat, nat>)
    requires Acyclic(e)
    ensures rank.Keys == S && RespectsEdges(e, rank)
  {
    rank := RankFrom(e, S, 0);
  }

  lemma {:induction false} RankFrom(e: Edges, S: set<nat>, base: nat) returns (rank: map<nat, nat>)
    requires Acyclic(e)
    ensures rank.Keys == S && RespectsEdges(e, rank)
    ensures forall v :: v in S ==> rank[v] >= base
    decreases S
  {
    if S == {} {
      rank := map[];
    } else {
      var x := MinimalElement(e, S);
      var rest := RankFrom(e, S - {x}, base + 1);
      rank := rest[x := base];
      forall u, v | (u, v) in e && u in rank && v in rank ensures rank[u] < rank[v] {
        assert v != x;
      }
    }
  }

  lemma {:induction false} RankGrowsAlongPath(e: Edges, rank: map<nat, nat>, p: seq<nat>)
    requires IsPath(e, p) && RespectsEdges(e, rank)
    requires forall x :: x in p ==> x in rank
    ensures |p| >= 2 ==> rank[p[0]] < rank[p[|p| - 1]]
  {
    if |p| >= 2 {
      assert StepAt(e, p, 0);
      assert p[0] in rank && p[1] in rank;
      Slice(e, p, 1, |p|);
      assert p[1..] == p[1..|p|];
      RankGrowsAlongPath(e, rank, p[1..]);
      assert p[1..][|p| - 2] == p[|p| - 1];
    }
  }

  /** A ranking of all edge endpoints rules cycles out. */
  lemma RankedIsAcyclic(e: Edges, rank: map<nat, nat>)
    requires RespectsEdges(e, rank)
    requires forall u, v :: (u, v) in e ==> u in rank && v in rank
    ensures Acyclic(e)
  {
    forall p: seq<nat> ensures !IsCycle(e, p) {
      if IsCycle(e, p) {
        forall x | x in p ensures x in rank {
          var i :| 0 <= i < |p| && p[i] == x;
          if i + 1 < |p| { assert StepAt(e, p, i); } else { assert StepAt(e, p, i - 1); }
        }
        RankGrowsAlongPath(e, rank, p);
      }
    }
  }

  // ---- Reachability ----------------------------------------------------------

  lemma EdgeReaches(e: Edges, u: nat, v: nat)
    requires (u, v) in e
    ensures Reaches(e, u, v)
  {
    assert IsPath(e, [u]);
    Append(e, [u], v);
    assert PathFromTo(e, [u] + [v], u, v);
  }

  lemma ReachesThenEdge(e: Edges, u: nat, v: nat, w: nat)
    requires Reaches(e, u, v) && (v, w) in e
    ensures Reaches(e, u, w)
  {
    var p :| PathFromTo(e, p, u, v);
    Append(e, p, w);
    assert PathFromTo(e, p + [w], u, w);
  }

  lemma EdgeThenReaches(e: Edges, u: nat, v: nat, w: nat)
    requires (u, v) in e && Reaches(e, v, w)
    ensures Reaches(e, u, w)
  {
    var p :| PathFromTo(e, p, v, w);
    Prepend(e, u, p);
    assert PathFromTo(e, [u] + p, u, w);
  }

  lemma FirstStep(e: Edges, u: nat, w: nat) returns (v: nat)
    requires Reaches(e, u, w)
    ensures (u, v) in e && (v == w || Reaches(e, v, w))
  {
    var p :| PathFromTo(e, p, u, w);
    assert StepAt(e, p, 0);
    v := p[1];
    if |p| > 2 {
      Slice(e, p, 1, |p|);
      assert p[1..] == p[1..|p|];
      assert PathFromTo(e, p[1..], v, w);
    }
  }

  lemma LastStep(e: Edges, u: nat, w: nat) returns (v: nat)
    requires Reaches(e, u, w)
    ensures (v, w) in e && (v == u || Reaches(e, u, v))
  {
    var p :| PathFromTo(e, p, u, w);
    assert StepAt(e, p, |p| - 2);
    v := p[|p| - 2];
    if |p| > 2 {
      Slice(e, p, 0, |p| - 1);
      assert PathFromTo(e, p[..|p| - 1], u, v);
    }
  }

  lemma {:induction false} ClosedAlongPath(e: Edges, S: set<nat>, p: seq<nat>)
    requires IsPath(e, p) && p[0] in S
    requires forall u, v :: u in S && (u, v) in e ==> v in S
    ensures p[|p| - 1] in S
  {
    if |p| >= 2 {
      assert StepAt(e, p, 0);
      Slice(e, p, 1, |p|);
      assert p[1..] == p[1..|p|];
      ClosedAlongPath(e, S, p[1..]);
    }
  }

  /** Whatever is reachable from a closed set lies inside it. */
  lemma ReachesStaysClosed(e: Edges, S: set<nat>, u: nat, w: nat)
    requires u in S && Reaches(e, u, w)
    requires forall x, y :: x in S && (x, y) in e ==> y in S
    ensures w in S
  {
    var p :| PathFromTo(e, p, u, w);
    ClosedAlongPath(e, S, p);
  }

  lemma AcyclicNotSelfReaching(e: Edges, u: nat)
    requires Acyclic(e)
    ensures !Reaches(e, u, u)
  {
    if Reaches(e, u, u) {
      var p :| PathFromTo(e, p, u, u);
      assert IsCycle(e, p);
    }
  }

  lemma SubgraphAcyclic(e: Edges, f: Edges)
    requires Acyclic(f) && e <= f
    ensures Acyclic(e)
  {
    forall p: seq<nat> ensures !IsCycle(e, p) {
      if IsCycle(e, p) {
        forall i: nat | i + 1 < |p| ensures StepAt(f, p, i) { assert StepAt(e, p, i); }
        assert IsCycle(f, p);
      }
    }
  }
}
