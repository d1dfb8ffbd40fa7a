// When the order in which a map yields a dependency's outputs matters for a
// bare reference (core/pipeline.go, step 2 of ResolveInputs).
module MatchingOrder {
  import opened Digraphs
  import opened Pipelines
  import opened InputResolution

  // ---- Passes --------------------------------------------------------------------------

  lemma {:induction false} ContinuePass(inputs: map<string, string>, m: Matching, id: Id, outputs: map<string, string>,
                                        order: seq<string>, rest: seq<string>, r: Result<Matching>)
    returns (r': Result<Matching>)
    requires MatchPass(inputs, m, id, outputs, order, r)
    requires forall o :: o in rest ==> o in outputs
    ensures MatchPass(inputs, m, id, outputs, order + rest, r')
    ensures r.Err? ==> r'.Err?
    ensures r.Ok? && r'.Ok? ==> Extends(r.value, r'.value)
  {
    if rest == [] {
      assert order + rest == order;
      r' := r;
    } else {
      var k := |rest| - 1;
      var mid := ContinuePass(inputs, m, id, outputs, order, rest[..k], r);
      assert (order + rest)[..|order + rest| - 1] == order + rest[..k];
      if mid.Err? {
        r' := mid;
      } else {
        r' := StepExists(inputs, mid.value, id, rest[k], outputs[rest[k]]);
        if r'.Ok? && r.Ok? { ExtendsTransitive(r.value, mid.value, r'.value); }
      }
    }
  }

  lemma StepExists(inputs: map<string, string>, m: Matching, id: Id, output: string, t: string)
    returns (r: Result<Matching>)
    ensures MatchStep(inputs, m, id, output, t, r)
    ensures r.Ok? ==> Extends(m, r.value)
  {
    var c := Candidates(inputs, m, t);
    if (id, output) in m.claimed || c == {} {
      r := Ok(m);
    } else if |c| > 1 {
      r := Err("");
    } else {
      var n :| n in c;
      r := Ok(Bind(m, n, id, output, t));
    }
  }

  /** Each free output fits at most one free input and no two fit the same one. */
  ghost predicate OneToOne(inputs: map<string, string>, m: Matching, id: Id, outputs: map<string, string>) {
    && (forall o {:trigger outputs[o]} :: o in outputs && (id, o) !in m.claimed ==>
          |Candidates(inputs, m, outputs[o])| <= 1)
    && (forall o, o', n :: Takes(inputs, m, id, outputs, o, n) && Takes(inputs, m, id, outputs, o', n) ==> o == o')
  }

  ghost predicate Takes(inputs: map<string, string>, m: Matching, id: Id, outputs: map<string, string>, o: string,
                        n: string)
  {
    o in outputs && (id, o) !in m.claimed && n in Candidates(inputs, m, outputs[o])
  }

  /** The matching in which each output of `done` has taken the input it fits. */
  ghost predicate Fitted(inputs: map<string, string>, m: Matching, id: Id, outputs: map<string, string>,
                         done: seq<string>, m': Matching)
  {
    && (forall k :: k in m'.claimed <==>
          k in m.claimed || (k.0 == id && k.1 in done && exists n :: Takes(inputs, m, id, outputs, k.1, n)))
    && (forall n :: n in m.bound ==> n in m'.bound && m'.bound[n] == m.bound[n])
    && (forall o, n :: o in done && Takes(inputs, m, id, outputs, o, n) ==>
          n in m'.bound && m'.bound[n] == Binding(id, o, outputs[o]))
    && (forall n :: n in m'.bound && n !in m.bound ==> exists o :: o in done && Takes(inputs, m, id, outputs, o, n))
  }

  lemma FittedUnique(inputs: map<string, string>, m: Matching, id: Id, outputs: map<string, string>, d: seq<string>,
                     d': seq<string>, a: Matching, b: Matching)
    requires Fitted(inputs, m, id, outputs, d, a) && Fitted(inputs, m, id, outputs, d', b)
    requires forall o :: o in d <==> o in d'
    ensures a == b
  {
    assert a.claimed == b.claimed;
    forall n ensures n in a.bound <==> n in b.bound {}
    forall n | n in a.bound ensures a.bound[n] == b.bound[n] {
      if n !in m.bound {
        var o :| o in d && Takes(inputs, m, id, outputs, o, n);
      }
    }
    assert a.bound == b.bound;
  }

  lemma Singleton<T>(c: set<T>, a: T, b: T)
    requires |c| <= 1 && a in c && b in c
    ensures a == b
  {
    if a != b {
      assert {a, b} <= c;
      SubsetCard({a, b}, c);
    }
  }

  lemma {:induction false} FittedPass(inputs: map<string, string>, m: Matching, id: Id, outputs: map<string, string>,
                                      order: seq<string>, r: Result<Matching>)
    requires OneToOne(inputs, m, id, outputs) && NoDuplicates(order)
    requires MatchPass(inputs, m, id, outputs, order, r)
    ensures r.Ok? && Fitted(inputs, m, id, outputs, order, r.value)
  {
    if order != [] {
      var k := |order| - 1;
      var mid :| MatchPass(inputs, m, id, outputs, order[..k], mid) &&
        if mid.Err? then r.Err? else MatchStep(inputs, mid.value, id, order[k], outputs[order[k]], r);
      FittedPass(inputs, m, id, outputs, order[..k], mid);
      FittedStep(inputs, m, id, outputs, order[..k], order[k], mid.value, r);
      assert order == order[..k] + [order[k]];
    }
  }

  /** Nobody else has taken the input an output fits. */
  lemma StillFree(inputs: map<string, string>, m: Matching, id: Id, outputs: map<string, string>, done: seq<string>,
                  o: string, mid: Matching)
    requires OneToOne(inputs, m, id, outputs) && o in outputs && o !in done && (id, o) !in m.claimed
    requires Fitted(inputs, m, id, outputs, done, mid)
    ensures Candidates(inputs, mid, outputs[o]) == Candidates(inputs, m, outputs[o])
    ensures (id, o) !in mid.claimed
  {
    forall n | n in Candidates(inputs, m, outputs[o]) ensures n !in mid.bound {
      assert Takes(inputs, m, id, outputs, o, n);
    }
  }

  lemma FittedBind(inputs: map<string, string>, m: Matching, id: Id, outputs: map<string, string>, done: seq<string>,
                   o: string, mid: Matching, n: string)
    requires OneToOne(inputs, m, id, outputs) && o !in done && Takes(inputs, m, id, outputs, o, n)
    requires Fitted(inputs, m, id, outputs, done, mid)
    ensures Fitted(inputs, m, id, outputs, done + [o], Bind(mid, n, id, o, outputs[o]))
  {
    var m' := Bind(mid, n, id, o, outputs[o]);
    forall x | Takes(inputs, m, id, outputs, o, x)
      ensures x == n { Singleton(Candidates(inputs, m, outputs[o]), x, n); }
    forall o', x | o' in done + [o] && Takes(inputs, m, id, outputs, o', x)
      ensures x in m'.bound && m'.bound[x] == Binding(id, o', outputs[o'])
    {
      if o' != o { assert o' in done && x != n; }
    }
  }

  lemma FittedStep(inputs: map<string, string>, m: Matching, id: Id, outputs: map<string, string>, done: seq<string>,
                   o: string, mid: Matching, r: Result<Matching>)
    requires OneToOne(inputs, m, id, outputs) && o in outputs && o !in done
    requires Fitted(inputs, m, id, outputs, done, mid) && MatchStep(inputs, mid, id, o, outputs[o], r)
    ensures r.Ok? && Fitted(inputs, m, id, outputs, done + [o], r.value)
  {
    if (id, o) in m.claimed {
      assert (id, o) in mid.claimed;
    } else {
      StillFree(inputs, m, id, outputs, done, o, mid);
      var c := Candidates(inputs, mid, outputs[o]);
      if c != {} {
        var n :| n in c && r.value == Bind(mid, n, id, o, outputs[o]);
        assert Takes(inputs, m, id, outputs, o, n);
        FittedBind(inputs, m, id, outputs, done, o, mid, n);
      }
    }
  }

  ghost predicate AlwaysYields(inputs: map<string, string>, m: Matching, id: Id, outputs: map<string, string>,
                               m': Matching)
  {
    forall r :: Matches(inputs, m, id, outputs, r) ==> r == Ok(m')
  }

  lemma FirstTakes(inputs: map<string, string>, m: Matching, id: Id, outputs: map<string, string>, o: string, n: string,
                   m': Matching)
    requires Takes(inputs, m, id, outputs, o, n) && |Candidates(inputs, m, outputs[o])| <= 1
    requires AlwaysYields(inputs, m, id, outputs, m')
    ensures n in m'.bound && m'.bound[n].output == o
  {
    var first: Result<Matching> := Ok(Bind(m, n, id, o, outputs[o]));
    assert [o][..0] == [] && MatchPass(inputs, m, id, outputs, [], Ok(m));
    assert MatchStep(inputs, m, id, o, outputs[o], first);
    assert MatchPass(inputs, m, id, outputs, [o], first);
    var rest := EnumerationExists(outputs.Keys - {o});
    var r := ContinuePass(inputs, m, id, outputs, [o], rest, first);
    NoDuplicatesConcat([o], rest);
    assert Enumerates([o] + rest, outputs.Keys);
    assert Matches(inputs, m, id, outputs, r);
  }

  lemma AmbiguousFirst(inputs: map<string, string>, m: Matching, id: Id, outputs: map<string, string>, o: string)
    returns (r: Result<Matching>)
    requires o in outputs && (id, o) !in m.claimed && |Candidates(inputs, m, outputs[o])| > 1
    ensures Matches(inputs, m, id, outputs, r) && r.Err?
  {
    var first: Result<Matching> := Err("");
    assert [o][..0] == [] && MatchPass(inputs, m, id, outputs, [], Ok(m));
    assert MatchStep(inputs, m, id, o, outputs[o], first);
    assert MatchPass(inputs, m, id, outputs, [o], first);
    var rest := EnumerationExists(outputs.Keys - {o});
    r := ContinuePass(inputs, m, id, outputs, [o], rest, first);
    NoDuplicatesConcat([o], rest);
    assert Enumerates([o] + rest, outputs.Keys);
  }

  /** Matched alike in every order, and never an error: each free output fits at
      most one free input and no two fit the same one. */
  lemma AlwaysYieldsIff(inputs: map<string, string>, m: Matching, id: Id, outputs: map<string, string>)
    ensures OneToOne(inputs, m, id, outputs) <==> exists m' :: AlwaysYields(inputs, m, id, outputs, m')
  {
    if OneToOne(inputs, m, id, outputs) {
      var order := EnumerationExists(outputs.Keys);
      var one := ContinuePass(inputs, m, id, outputs, [], order, Ok(m));
      assert [] + order == order;
      FittedPass(inputs, m, id, outputs, order, one);
      forall r | Matches(inputs, m, id, outputs, r) ensures r == Ok(one.value) {
        var order' :| Enumerates(order', outputs.Keys) && MatchPass(inputs, m, id, outputs, order', r);
        FittedPass(inputs, m, id, outputs, order', r);
        FittedUnique(inputs, m, id, outputs, order', order, r.value, one.value);
      }
      assert AlwaysYields(inputs, m, id, outputs, one.value);
    }
    forall m' | AlwaysYields(inputs, m, id, outputs, m') ensures OneToOne(inputs, m, id, outputs) {
      forall o | o in outputs && (id, o) !in m.claimed ensures |Candidates(inputs, m, outputs[o])| <= 1 {
        if |Candidates(inputs, m, outputs[o])| > 1 {
          var r := AmbiguousFirst(inputs, m, id, outputs, o);
        }
      }
      forall o, o', n | Takes(inputs, m, id, outputs, o, n) && Takes(inputs, m, id, outputs, o', n) ensures o == o' {
        FirstTakes(inputs, m, id, outputs, o, n, m');
        FirstTakes(inputs, m, id, outputs, o', n, m');
      }
    }
  }

  // ---- When every order fails -----------------------------------------------------------

  /** The inputs an output fits once those of `taken` are gone. */
  function Fits(inputs: map<string, string>, taken: set<string>, t: string): set<string> {
    set n | n in inputs && n !in taken && TypesCompatible(inputs[n], t)
  }

  /** An output that can be visited without ambiguity. */
  ghost function Forced(inputs: map<string, string>, taken: set<string>, outputs: map<string, string>,
                        left: set<string>): (o: Option<string>)
    requires left <= outputs.Keys
    ensures o.Some? ==> o.value in left && |Fits(inputs, taken, outputs[o.value])| <= 1
    ensures o.None? ==> forall x :: x in left ==> |Fits(inputs, taken, outputs[x])| > 1
  {
    if x :| x in left && |Fits(inputs, taken, outputs[x])| <= 1 then Some(x) else None
  }

  /** What remains when outputs with at most one candidate are visited for as
      long as there are any. */
  ghost function Leftover(inputs: map<string, string>, taken: set<string>, outputs: map<string, string>,
                          left: set<string>): set<string>
    requires left <= outputs.Keys
    decreases left
  {
    match Forced(inputs, taken, outputs, left)
    case None => left
    case Some(o) => Leftover(inputs, taken + Fits(inputs, taken, outputs[o]), outputs, left - {o})
  }

  function Open(m: Matching, id: Id, outputs: map<string, string>): set<string> {
    set o | o in outputs && (id, o) !in m.claimed
  }

  ghost predicate Stuck(inputs: map<string, string>, m: Matching, id: Id, outputs: map<string, string>) {
    Leftover(inputs, m.bound.Keys, outputs, Open(m, id, outputs)) != {}
  }

  lemma {:induction false} ClaimedPass(inputs: map<string, string>, m: Matching, id: Id, outputs: map<string, string>,
                                       order: seq<string>)
    requires forall o :: o in order ==> o in outputs && (id, o) in m.claimed
    ensures MatchPass(inputs, m, id, outputs, order, Ok(m))
  {
    if order != [] {
      ClaimedPass(inputs, m, id, outputs, order[..|order| - 1]);
    }
  }

  lemma ForcedStep(inputs: map<string, string>, m: Matching, id: Id, o: string, t: string) returns (m': Matching)
    requires (id, o) !in m.claimed && |Fits(inputs, m.bound.Keys, t)| <= 1
    ensures MatchStep(inputs, m, id, o, t, Ok(m'))
    ensures m'.bound.Keys == m.bound.Keys + Fits(inputs, m.bound.Keys, t)
    ensures forall x :: x != o ==> ((id, x) in m'.claimed <==> (id, x) in m.claimed)
  {
    var c := Candidates(inputs, m, t);
    assert c == Fits(inputs, m.bound.Keys, t);
    if c == {} {
      m' := m;
    } else {
      var n :| n in c;
      m' := Bind(m, n, id, o, t);
      forall x | x in c ensures x == n { Singleton(c, x, n); }
      assert c == {n};
    }
  }

  lemma PassThen(inputs: map<string, string>, m: Matching, id: Id, outputs: map<string, string>,
                 order: seq<string>, mid: Matching, o: string, r: Result<Matching>)
    requires MatchPass(inputs, m, id, outputs, order, Ok(mid)) && o in outputs
    requires MatchStep(inputs, mid, id, o, outputs[o], r)
    ensures MatchPass(inputs, m, id, outputs, order + [o], r)
  {
    assert (order + [o])[..|order|] == order;
  }

  lemma PeelOne(inputs: map<string, string>, m: Matching, id: Id, outputs: map<string, string>,
                order: seq<string>, mid: Matching, left: set<string>, o: string) returns (next: Matching)
    requires MatchPass(inputs, m, id, outputs, order, Ok(mid)) && left <= outputs.Keys
    requires forall x :: x in left ==> (id, x) !in mid.claimed
    requires Forced(inputs, mid.bound.Keys, outputs, left) == Some(o)
    ensures MatchPass(inputs, m, id, outputs, order + [o], Ok(next))
    ensures forall x :: x in left - {o} ==> (id, x) !in next.claimed
    ensures Leftover(inputs, next.bound.Keys, outputs, left - {o}) == Leftover(inputs, mid.bound.Keys, outputs, left)
  {
    next := ForcedStep(inputs, mid, id, o, outputs[o]);
    PassThen(inputs, m, id, outputs, order, mid, o, Ok(next));
  }

  /** When nothing remains, visiting in that order succeeds. */
  lemma {:induction false} PeeledPass(inputs: map<string, string>, m: Matching, id: Id, outputs: map<string, string>,
                                      order: seq<string>, mid: Matching, left: set<string>)
    returns (full: seq<string>, m': Matching)
    requires MatchPass(inputs, m, id, outputs, order, Ok(mid)) && left <= outputs.Keys
    requires NoDuplicates(order) && forall o :: o in left ==> (id, o) !in mid.claimed && o !in order
    requires Leftover(inputs, mid.bound.Keys, outputs, left) == {}
    ensures MatchPass(inputs, m, id, outputs, full, Ok(m'))
    ensures NoDuplicates(full) && forall o :: o in full <==> o in order || o in left
    decreases left
  {
    var forced := Forced(inputs, mid.bound.Keys, outputs, left);
    if forced.None? {
      full, m' := order, mid;
    } else {
      var o := forced.value;
      var next := PeelOne(inputs, m, id, outputs, order, mid, left, o);
      NoDuplicatesConcat(order, [o]);
      full, m' := PeeledPass(inputs, m, id, outputs, order + [o], next, left - {o});
    }
  }

  /** A successful pass, seen when it comes to position j. */
  lemma {:induction false} PassAt(inputs: map<string, string>, m: Matching, id: Id, outputs: map<string, string>,
                                  order: seq<string>, r: Result<Matching>, j: nat)
    returns (mid: Matching, next: Result<Matching>)
    requires MatchPass(inputs, m, id, outputs, order, r) && r.Ok? && j < |order|
    ensures order[j] in outputs && MatchPass(inputs, m, id, outputs, order[..j], Ok(mid))
    ensures MatchStep(inputs, mid, id, order[j], outputs[order[j]], next) && next.Ok?
  {
    var k := |order| - 1;
    var before :| MatchPass(inputs, m, id, outputs, order[..k], before) &&
      if before.Err? then r.Err? else MatchStep(inputs, before.value, id, order[k], outputs[order[k]], r);
    if j == k {
      mid, next := before.value, r;
    } else {
      mid, next := PassAt(inputs, m, id, outputs, order[..k], before, j);
      assert order[..k][..j] == order[..j];
    }
  }

  ghost predicate FitsSome(inputs: map<string, string>, m: Matching, id: Id, outputs: map<string, string>,
                           order: seq<string>, n: string)
  {
    exists o :: o in order && Takes(inputs, m, id, outputs, o, n)
  }

  lemma StepBinds(inputs: map<string, string>, m: Matching, id: Id, outputs: map<string, string>, o: string,
                  m': Matching)
    requires o in outputs && MatchStep(inputs, m, id, o, outputs[o], Ok(m'))
    ensures m.claimed <= m'.claimed <= m.claimed + {(id, o)} && m.bound.Keys <= m'.bound.Keys
    ensures forall n :: n in m'.bound && n !in m.bound ==> Takes(inputs, m, id, outputs, o, n)
  {
  }

  /** A pass binds only inputs its outputs fit, and claims only its outputs. */
  lemma {:induction false} PassBinds(inputs: map<string, string>, m: Matching, id: Id, outputs: map<string, string>,
                                     order: seq<string>, mid: Matching)
    requires MatchPass(inputs, m, id, outputs, order, Ok(mid))
    ensures m.bound.Keys <= mid.bound.Keys && m.claimed <= mid.claimed
    ensures forall n :: n in mid.bound && n !in m.bound ==> FitsSome(inputs, m, id, outputs, order, n)
    ensures forall o :: (id, o) in mid.claimed ==> (id, o) in m.claimed || o in order
  {
    if order != [] {
      var k := |order| - 1;
      var before: Result<Matching> :| MatchPass(inputs, m, id, outputs, order[..k], before) &&
        if before.Err? then false else MatchStep(inputs, before.value, id, order[k], outputs[order[k]], Ok(mid));
      assert before == Ok(before.value);
      PassBinds(inputs, m, id, outputs, order[..k], before.value);
      StepBinds(inputs, before.value, id, outputs, order[k], mid);
      assert order == order[..k] + [order[k]];
      forall n | n in mid.bound && n !in m.bound ensures FitsSome(inputs, m, id, outputs, order, n) {
        if n in before.value.bound {
          var o :| o in order[..k] && Takes(inputs, m, id, outputs, o, n);
          assert o in order;
        } else {
          assert Takes(inputs, before.value, id, outputs, order[k], n);
          assert Takes(inputs, m, id, outputs, order[k], n) && order[k] in order;
        }
      }
    }
  }

  /** Visited outputs have left no free input they fit. */
  ghost predicate Emptied(inputs: map<string, string>, taken: set<string>, outputs: map<string, string>,
                          visited: set<string>)
    requires visited <= outputs.Keys
  {
    forall p :: p in visited ==> Fits(inputs, taken, outputs[p]) == {}
  }

  lemma {:induction false} FirstOf(order: seq<string>, left: set<string>) returns (j: nat)
    requires exists o :: o in order && o in left
    ensures j < |order| && order[j] in left && forall i :: 0 <= i < j ==> order[i] !in left
  {
    if order[0] in left {
      j := 0;
    } else {
      assert order == [order[0]] + order[1..];
      var i := FirstOf(order[1..], left);
      j := i + 1;
    }
  }

  /** In a successful order, the first of the outputs that remain has at most
      one candidate even now: candidates only get fewer. */
  lemma FirstIsForced(inputs: map<string, string>, m: Matching, id: Id, outputs: map<string, string>,
                      order: seq<string>, r: Result<Matching>, taken: set<string>, left: set<string>)
    returns (o: string)
    requires MatchPass(inputs, m, id, outputs, order, r) && r.Ok? && Enumerates(order, outputs.Keys)
    requires m.bound.Keys <= taken && left <= Open(m, id, outputs) && left != {}
    requires Emptied(inputs, taken, outputs, Open(m, id, outputs) - left)
    ensures o in left && |Fits(inputs, taken, outputs[o])| <= 1
  {
    var x :| x in left;
    assert x in order;
    var j := FirstOf(order, left);
    o := order[j];
    var mid, next := PassAt(inputs, m, id, outputs, order, r, j);
    PassBinds(inputs, m, id, outputs, order[..j], mid);
    assert o !in order[..j];
    forall n | n in mid.bound ensures n in taken {
      if n !in m.bound {
        var p :| p in order[..j] && Takes(inputs, m, id, outputs, p, n);
        assert p in Open(m, id, outputs) - left;
        assert n in Fits(inputs, {}, outputs[p]);
      }
    }
    SubsetCard(Fits(inputs, taken, outputs[o]), Candidates(inputs, mid, outputs[o]));
  }

  /** Visiting forced outputs first loses no success. */
  lemma {:induction false} NothingRemains(inputs: map<string, string>, m: Matching, id: Id,
                                          outputs: map<string, string>,
                                          order: seq<string>, r: Result<Matching>, taken: set<string>,
                                          left: set<string>)
    requires MatchPass(inputs, m, id, outputs, order, r) && r.Ok? && Enumerates(order, outputs.Keys)
    requires m.bound.Keys <= taken && left <= Open(m, id, outputs)
    requires Emptied(inputs, taken, outputs, Open(m, id, outputs) - left)
    ensures Leftover(inputs, taken, outputs, left) == {}
    decreases left
  {
    if left != {} {
      var first := FirstIsForced(inputs, m, id, outputs, order, r, taken, left);
      var o := Forced(inputs, taken, outputs, left).value;
      var taken' := taken + Fits(inputs, taken, outputs[o]);
      forall p | p in Open(m, id, outputs) - (left - {o}) ensures Fits(inputs, taken', outputs[p]) == {} {
        assert Fits(inputs, taken', outputs[p]) <= Fits(inputs, taken, outputs[p]);
      }
      NothingRemains(inputs, m, id, outputs, order, r, taken', left - {o});
    }
  }

  /** Every order fails exactly when visiting unambiguous outputs for as long as
      there are any leaves some over. */
  lemma AlwaysFailsIffStuck(inputs: map<string, string>, m: Matching, id: Id, outputs: map<string, string>)
    ensures (forall r :: Matches(inputs, m, id, outputs, r) ==> r.Err?) <==> Stuck(inputs, m, id, outputs)
  {
    forall r | Matches(inputs, m, id, outputs, r) && r.Ok? ensures !Stuck(inputs, m, id, outputs) {
      var order :| Enumerates(order, outputs.Keys) && MatchPass(inputs, m, id, outputs, order, r);
      NothingRemains(inputs, m, id, outputs, order, r, m.bound.Keys, Open(m, id, outputs));
    }
    if !Stuck(inputs, m, id, outputs) {
      var claimed := EnumerationExists(outputs.Keys - Open(m, id, outputs));
      ClaimedPass(inputs, m, id, outputs, claimed);
      var full, m' := PeeledPass(inputs, m, id, outputs, claimed, m, Open(m, id, outputs));
      assert Enumerates(full, outputs.Keys);
      assert Matches(inputs, m, id, outputs, Ok(m'));
    }
  }

  // ---- The condition -----------------------------------------------------------------------

  ghost predicate SameOutcome(r: Result<Matching>, r': Result<Matching>) {
    (r.Err? && r'.Err?) || r == r'
  }

  /** Every order has the same outcome. */
  ghost predicate OrderIrrelevant(inputs: map<string, string>, m: Matching, id: Id, outputs: map<string, string>) {
    forall r, r' :: Matches(inputs, m, id, outputs, r) && Matches(inputs, m, id, outputs, r') ==> SameOutcome(r, r')
  }

  /** The order of a dependency's outputs is irrelevant for a bare reference
      exactly when each free output fits at most one free input and no two fit
      the same, or when no order gets past the ambiguous ones. */
  lemma OrderIrrelevantIff(inputs: map<string, string>, m: Matching, id: Id, outputs: map<string, string>)
    ensures OrderIrrelevant(inputs, m, id, outputs) <==>
            OneToOne(inputs, m, id, outputs) || Stuck(inputs, m, id, outputs)
  {
    AlwaysYieldsIff(inputs, m, id, outputs);
    AlwaysFailsIffStuck(inputs, m, id, outputs);
    if OrderIrrelevant(inputs, m, id, outputs) && !Stuck(inputs, m, id, outputs) {
      var one :| Matches(inputs, m, id, outputs, one) && one.Ok?;
      forall r | Matches(inputs, m, id, outputs, r) ensures r == Ok(one.value) {
        assert SameOutcome(one, r);
      }
      assert AlwaysYields(inputs, m, id, outputs, one.value);
    }
  }

  // ---- Where it matters, concretely -----------------------------------------------------------

  const NONE_BOUND: Matching := Matching(map[], {})

  lemma OneStep(inputs: map<string, string>, m: Matching, id: Id, outputs: map<string, string>, o: string,
                r: Result<Matching>)
    requires o in outputs && MatchStep(inputs, m, id, o, outputs[o], r)
    ensures MatchPass(inputs, m, id, outputs, [o], r)
  {
    assert [o][..0] == [] && MatchPass(inputs, m, id, outputs, [], Ok(m));
  }

  lemma TwoSteps(inputs: map<string, string>, m: Matching, id: Id, outputs: map<string, string>, a: string, b: string,
                 mid: Matching, r: Result<Matching>)
    requires a != b && outputs.Keys == {a, b}
    requires MatchStep(inputs, m, id, a, outputs[a], Ok(mid)) && MatchStep(inputs, mid, id, b, outputs[b], r)
    ensures Matches(inputs, m, id, outputs, r)
  {
    OneStep(inputs, m, id, outputs, a, Ok(mid));
    assert [a, b][..1] == [a];
    assert MatchPass(inputs, m, id, outputs, [a, b], r);
    assert Enumerates([a, b], outputs.Keys);
  }

  lemma FailsFirst(inputs: map<string, string>, m: Matching, id: Id, outputs: map<string, string>, a: string, b: string)
    requires a != b && outputs.Keys == {a, b} && (id, a) !in m.claimed && |Candidates(inputs, m, outputs[a])| > 1
    ensures Matches(inputs, m, id, outputs, Err(""))
  {
    OneStep(inputs, m, id, outputs, a, Err(""));
    MatchPassFails(inputs, m, id, outputs, [a], [b], Err(""));
    assert [a] + [b] == [a, b];
    assert Enumerates([a, b], outputs.Keys);
  }

  lemma TakesOnly(inputs: map<string, string>, m: Matching, id: Id, o: string, t: string, n: string)
    requires Candidates(inputs, m, t) == {n} && (id, o) !in m.claimed
    ensures MatchStep(inputs, m, id, o, t, Ok(Bind(m, n, id, o, t)))
  {
  }

  lemma EitherFirst(id: Id, a: string, b: string, n: string)
    requires a != b
    ensures var m := Bind(NONE_BOUND, n, id, a, "file");
            Matches(map[n := "file"], NONE_BOUND, id, map[a := "file", b := "file"], Ok(m))
  {
    var inputs, outputs := map[n := "file"], map[a := "file", b := "file"];
    var m := Bind(NONE_BOUND, n, id, a, "file");
    TakesOnly(inputs, NONE_BOUND, id, a, "file", n);
    assert Candidates(inputs, m, "file") == {};
    TwoSteps(inputs, NONE_BOUND, id, outputs, a, b, m, Ok(m));
  }

  /** Two file outputs and one file input: which output is bound depends on the order. */
  lemma BindsEitherOutput(id: Id)
    ensures var inputs, outputs := map["source" := "file"], map["left" := "file", "right" := "file"];
            && Matches(inputs, NONE_BOUND, id, outputs, Ok(Bind(NONE_BOUND, "source", id, "left", "file")))
            && Matches(inputs, NONE_BOUND, id, outputs, Ok(Bind(NONE_BOUND, "source", id, "right", "file")))
  {
    EitherFirst(id, "left", "right", "source");
    EitherFirst(id, "right", "left", "source");
    assert map["right" := "file", "left" := "file"] == map["left" := "file", "right" := "file"];
  }

  const TABLE_AND_TILES: map<string, string> := map["table" := "file", "tiles" := "directory"]
  const CSV_AND_ITEMS: map<string, string> := map["csv" := "file", "items" := "expansion"]

  lemma CandidatesAre(inputs: map<string, string>, m: Matching, t: string, c: set<string>)
    requires forall n :: n in c <==> n in inputs && n !in m.bound && TypesCompatible(inputs[n], t)
    ensures Candidates(inputs, m, t) == c
  {
  }

  lemma FileAndDirectory()
    ensures TypesCompatible("file", "file") && !TypesCompatible("directory", "file")
    ensures TypesCompatible("file", "expansion") && TypesCompatible("directory", "expansion")
  {
    assert |"directory"| == 9 && |"file"| == 4;
  }

  lemma ItemsFirst(id: Id)
    ensures Matches(TABLE_AND_TILES, NONE_BOUND, id, CSV_AND_ITEMS, Err(""))
  {
    FileAndDirectory();
    CandidatesAre(TABLE_AND_TILES, NONE_BOUND, "expansion", {"table", "tiles"});
    assert "table"[1] != "tiles"[1];
    FailsFirst(TABLE_AND_TILES, NONE_BOUND, id, CSV_AND_ITEMS, "items", "csv");
  }

  lemma CsvFirst(id: Id) returns (m: Matching)
    ensures Matches(TABLE_AND_TILES, NONE_BOUND, id, CSV_AND_ITEMS, Ok(m))
  {
    FileAndDirectory();
    var inputs := TABLE_AND_TILES;
    CandidatesAre(inputs, NONE_BOUND, "file", {"table"});
    TakesOnly(inputs, NONE_BOUND, id, "csv", "file", "table");
    var mid := Bind(NONE_BOUND, "table", id, "csv", "file");
    CandidatesAre(inputs, mid, "expansion", {"tiles"});
    TakesOnly(inputs, mid, id, "items", "expansion", "tiles");
    m := Bind(mid, "tiles", id, "items", "expansion");
    TwoSteps(inputs, NONE_BOUND, id, CSV_AND_ITEMS, "csv", "items", mid, Ok(m));
  }

  /** A file and an expansion for a file and a directory input: one order binds
      both, the other calls the expansion ambiguous. */
  lemma SucceedsOrFails(id: Id)
    ensures Matches(TABLE_AND_TILES, NONE_BOUND, id, CSV_AND_ITEMS, Err(""))
    ensures exists m :: Matches(TABLE_AND_TILES, NONE_BOUND, id, CSV_AND_ITEMS, Ok(m))
  {
    ItemsFirst(id);
    var m := CsvFirst(id);
  }
}
